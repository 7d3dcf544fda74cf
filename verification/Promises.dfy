/** What every transaction on the table promises, in plain amounts and without the functions that define it:
    when it goes through, what it changes, and that it changes nothing else. */
module Promises {
  import opened Fixed
  import opened Sums
  import opened Ledger
  import opened Options
  import opened Steps
  import opened Invariants
  import opened Epochs

  // ---------------------------------------------------------------- what holders do

  /** Staking and unstaking need an open auction, withdrawing does not. Nobody can use more than there is, and
      an operator with delegators keeps its role's minimum. */
  lemma UseGoesThrough(s: State, who: Who, action: Action, amount: nat)
    requires NodesOk(s.nodes)
    ensures !Exists(s.nodes, who) ==> !Enabled(s, Use(who, action, amount))
    ensures Exists(s.nodes, who) ==>
            var n, h := s.nodes[who.id], Get(s.nodes, who);
            Enabled(s, Use(who, action, amount)) <==>
              match action
              case StakeNew => s.auction && amount <= s.outside
              case StakeUnstaked => s.auction && amount <= h.request + h.unstaked
              case StakeRewarded => s.auction && amount <= h.rewarded
              case RequestUnstaking =>
                && s.auction && amount + h.request <= h.staked + h.committed
                && (who.Operator? && n.delegators != map[] ==>
                      n.role in s.minimums && h.committed + h.staked - h.request - amount >= s.minimums[n.role])
              case UnstakeAll => s.auction && who.Operator?
              case WithdrawUnstaked => amount <= h.unstaked
              case WithdrawRewarded => amount <= h.rewarded
  {
    if Exists(s.nodes, who) {
      assert NodeOk(who.id, s.nodes[who.id]);
    }
  }

  /** What a holder will have staked after the next move rises by what it stakes, from wherever it takes it,
      and falls by what it asks for; rewards are used only by staking and withdrawing them. */
  lemma UseChangesCommitment(s: State, who: Who, action: Action, amount: nat)
    requires NodesOk(s.nodes) && Enabled(s, Use(who, action, amount))
    ensures Exists(Apply(s, Use(who, action, amount)).nodes, who)
    ensures var h, after := Get(s.nodes, who), Get(Apply(s, Use(who, action, amount)).nodes, who);
            && after.committed + after.staked - after.request ==
                 (match action
                  case StakeNew => h.committed + h.staked - h.request + amount
                  case StakeUnstaked => h.committed + h.staked - h.request + amount
                  case StakeRewarded => h.committed + h.staked - h.request + amount
                  case RequestUnstaking => h.committed + h.staked - h.request - amount
                  case UnstakeAll => 0
                  case _ => h.committed + h.staked - h.request)
            && after.rewarded ==
                 (if action.StakeRewarded? || action.WithdrawRewarded? then h.rewarded - amount else h.rewarded)
            && after.staked == h.staked && after.unstaking == h.unstaking
  {
  }

  /** Which vaults the amount goes through. Staking unstaked tokens cancels requests first, and a request to
      unstake is served from committed first. */
  lemma UseChangesVaults(s: State, who: Who, action: Action, amount: nat)
    requires NodesOk(s.nodes) && Enabled(s, Use(who, action, amount))
    ensures Exists(Apply(s, Use(who, action, amount)).nodes, who)
    ensures var h, after := Get(s.nodes, who), Get(Apply(s, Use(who, action, amount)).nodes, who);
            match action
            case StakeNew => after.unstaked == h.unstaked && after.request == h.request
            case StakeRewarded => after.unstaked == h.unstaked && after.request == h.request
            case StakeUnstaked =>
              if amount <= h.request then
                after.request == h.request - amount && after.unstaked == h.unstaked && after.committed == h.committed
              else
                after.request == 0 && after.unstaked == h.unstaked + h.request - amount
            case RequestUnstaking =>
              if amount <= h.committed then
                after.request == h.request && after.unstaked == h.unstaked + amount
              else
                after.committed == 0 && after.unstaked == h.unstaked + h.committed
            case UnstakeAll => after.committed == 0 && after.unstaked == h.unstaked + h.committed
            case WithdrawUnstaked =>
              after.unstaked == h.unstaked - amount && after.committed == h.committed && after.request == h.request
            case WithdrawRewarded =>
              after.unstaked == h.unstaked && after.committed == h.committed && after.request == h.request
  {
  }

  /** Everybody else's vaults, and everything but what is outside, stay as they are. */
  lemma UseChangesNothingElse(s: State, who: Who, action: Action, amount: nat, other: Who)
    requires Enabled(s, Use(who, action, amount))
    ensures var after := Apply(s, Use(who, action, amount));
            && (other != who ==> (Exists(after.nodes, other) <==> Exists(s.nodes, other)))
            && (other != who && Exists(s.nodes, other) ==> Get(after.nodes, other) == Get(s.nodes, other))
            && after == s.(nodes := after.nodes, outside :=
                 if action.StakeNew? then s.outside - amount
                 else if action.WithdrawUnstaked? || action.WithdrawRewarded? then s.outside + amount
                 else s.outside)
            && SameMetadata(s.nodes, after.nodes)
  {
  }

  // ---------------------------------------------------------------- closing the auction

  /** A node keeps its vaults and its delegators theirs. */
  predicate Kept(n: NodeRecord, after: NodeRecord) { after.own == n.own && after.delegators == n.delegators }

  /** Everything committed is refunded, and everything staked is asked to leave. */
  predicate SentOff(h: Holder, after: Holder) {
    && after.committed == 0 && after.unstaked == h.unstaked + h.committed && after.request == h.staked
    && after.staked == h.staked && after.unstaking == h.unstaking && after.rewarded == h.rewarded
  }

  predicate NodeSentOff(n: NodeRecord, after: NodeRecord) {
    && SentOff(n.own, after.own)
    && after.delegators.Keys == n.delegators.Keys
    && forall d <- n.delegators :: SentOff(n.delegators[d], after.delegators[d])
  }

  /** On the list and with a commitment that suffices: anything for an access node, the minimum for others. */
  predicate Suffices(s: State, approved: set<string>, id: string)
    requires id in s.nodes && (s.nodes[id].role == 5 || s.nodes[id].role in s.minimums)
  {
    var n := s.nodes[id];
    var commitment := n.own.committed + n.own.staked - n.own.request;
    id in approved && if n.role == 5 then commitment > 0 else commitment >= s.minimums[n.role]
  }

  lemma SentOffKeeps(n: NodeRecord, after: NodeRecord)
    requires NodeSentOff(n, after)
    ensures Kept(n, after) <==> Leaving(n)
  {
    if Leaving(n) {
      assert forall d <- n.delegators :: after.delegators[d] == n.delegators[d];
    }
    if Kept(n, after) {
      forall d | d in n.delegators
        ensures n.delegators[d].committed == 0 && n.delegators[d].request == n.delegators[d].staked
      {
        assert SentOff(n.delegators[d], after.delegators[d]);
      }
    }
  }

  /** What screening does to a node that stays or does not. */
  ghost predicate Screened(n: NodeRecord, after: NodeRecord, suffices: bool) {
    && (Kept(n, after) <==> suffices || Leaving(n))
    && (!suffices ==> NodeSentOff(n, after))
    && after == n.(own := after.own, delegators := after.delegators, initialWeight := if suffices then 100 else 0)
  }

  lemma ExpelledIsScreened(n: NodeRecord)
    ensures Screened(n, ExpelNode(n), false)
  {
    SentOffKeeps(n, ExpelNode(n));
  }

  /** Closing the auction, or removing unapproved nodes, keeps the vaults of every approved node whose commitment
      suffices, and sends all others off with their delegators. */
  lemma ScreeningDecides(s: State, op: Op, id: string)
    requires NodesOk(s.nodes) && Enabled(s, op) && (op.EndAuction? || op.RemoveUnapproved?) && id in s.nodes
    ensures id in Apply(s, op).nodes && (s.nodes[id].role == 5 || s.nodes[id].role in s.minimums)
    ensures Screened(s.nodes[id], Apply(s, op).nodes[id], Suffices(s, op.approved, id))
  {
    assert NodeOk(id, s.nodes[id]) && MinimumKnown(s, s.nodes[id].role);
    SufficesToStay(s, op.approved, id);
    ExpelledIsScreened(s.nodes[id]);
  }

  lemma SufficesToStay(s: State, approved: set<string>, id: string)
    requires id in s.nodes && NodeOk(id, s.nodes[id]) && MinimumKnown(s, s.nodes[id].role)
    ensures Suffices(s, approved, id) <==> Stays(s, approved, id)
  {
  }

  /** It goes through exactly if every role that occurs, but access nodes', has a minimum, and changes nothing
      but the table and, if it closes the auction, that. */
  lemma ScreeningGoesThrough(s: State, op: Op)
    requires op.EndAuction? || op.RemoveUnapproved?
    ensures Enabled(s, op) <==> forall id <- s.nodes :: s.nodes[id].role == 5 || s.nodes[id].role in s.minimums
    ensures Enabled(s, op) ==>
              Apply(s, op) == s.(nodes := Apply(s, op).nodes, auction := if op.EndAuction? then false else s.auction)
    ensures Enabled(s, op) ==> Apply(s, op).nodes.Keys == s.nodes.Keys
  {
    if Enabled(s, op) {
      forall id | id in s.nodes ensures s.nodes[id].role == 5 || s.nodes[id].role in s.minimums {
        assert MinimumKnown(s, s.nodes[id].role);
      }
    } else {
      assert exists id :: id in s.nodes && !MinimumKnown(s, s.nodes[id].role);
    }
  }

  // ---------------------------------------------------------------- paying rewards

  /** q is a fraction of whole units: a divided by b, truncated. */
  predicate Truncated(q: nat, a: int, b: int) { q * b <= a < q * b + b }

  function Amount(c: nat): int { c }

  /** What a paid node and its delegators get, for given gross rewards and cuts. */
  ghost predicate PaidOut(n: NodeRecord, after: NodeRecord, own: nat, gross: map<nat, nat>, cuts: map<nat, nat>)
    requires gross.Keys == cuts.Keys == n.delegators.Keys
  {
    && after.own == n.own.(rewarded := after.own.rewarded)
    && after.own.rewarded == n.own.rewarded + own + SumOver(cuts, Amount)
    && after.delegators.Keys == n.delegators.Keys
    && (forall d <- n.delegators ::
          && after.delegators[d] == n.delegators[d].(rewarded := after.delegators[d].rewarded)
          && after.delegators[d].rewarded == n.delegators[d].rewarded + gross[d] - cuts[d])
    && after == n.(own := after.own, delegators := after.delegators)
  }

  lemma NodePayingDecides(n: NodeRecord, scale: nat, cut: nat)
    returns (own: nat, gross: map<nat, nat>, cuts: map<nat, nat>)
    requires Paid(n, scale) ==> CutFits(n.delegators, scale, cut)
    ensures Truncated(own, n.own.staked * scale, ONE)
    ensures gross.Keys == cuts.Keys == n.delegators.Keys
    ensures forall d <- gross :: Truncated(gross[d], n.delegators[d].staked * scale, ONE)
    ensures forall d <- cuts :: Truncated(cuts[d], gross[d] * cut, ONE)
    ensures if n.role == 5 || own == 0 then PayNode(n, scale, cut) == n
            else PaidOut(n, PayNode(n, scale, cut), own, gross, cuts)
  {
    own := Reward(n.own, scale);
    gross := map d | d in n.delegators :: Reward(n.delegators[d], scale);
    cuts := map d | d in n.delegators :: Cut(n.delegators[d], scale, cut);
    SumOverSame(n.delegators, CutOf(scale, cut), cuts, Amount);
  }

  /** What paying does for one node: the scale is the payout by the network's stake, gross rewards are stakes at
      that scale, cuts are gross rewards times the cut, all truncated. A node that earns something itself and is
      no access node gets its own gross reward and all its delegators' cuts, each of them the rest of its own.
      Nobody else gets anything. */
  lemma PayingDecides(s: State, id: string)
    returns (scale: nat, own: nat, gross: map<nat, nat>, cuts: map<nat, nat>)
    requires Enabled(s, PayRewards) && id in s.nodes
    requires s.totals[1] + s.totals[2] + s.totals[3] + s.totals[4] > 0
    ensures id in Apply(s, PayRewards).nodes
    ensures Truncated(scale, s.payout * ONE, s.totals[1] + s.totals[2] + s.totals[3] + s.totals[4])
    ensures Truncated(own, s.nodes[id].own.staked * scale, ONE)
    ensures gross.Keys == cuts.Keys == s.nodes[id].delegators.Keys
    ensures forall d <- gross :: Truncated(gross[d], s.nodes[id].delegators[d].staked * scale, ONE)
    ensures forall d <- cuts :: Truncated(cuts[d], gross[d] * s.cut, ONE)
    ensures var n, after := s.nodes[id], Apply(s, PayRewards).nodes[id];
            if n.role == 5 || own == 0 then after == n else PaidOut(n, after, own, gross, cuts)
  {
    scale := Scale(s);
    own, gross, cuts := NodePayingDecides(s.nodes[id], scale, s.cut);
  }

  /** All that is paid is minted: the supply grows by it, the minter's allowance falls by it, and nothing else
      changes but the table. */
  lemma PayingIsMinted(s: State)
    requires Enabled(s, PayRewards) && NodesOk(s.nodes)
    ensures var after := Apply(s, PayRewards);
            && after == s.(nodes := after.nodes, supply := after.supply, allowance := after.allowance)
            && after.nodes.Keys == s.nodes.Keys
            && after.supply - s.supply == s.allowance - after.allowance
                 == TableTokens(after.nodes) - TableTokens(s.nodes)
  {
    Conserves(s, PayRewards);
  }

  /** With nothing staked, paying changes nothing. */
  lemma NothingStakedNothingPaid(s: State)
    requires Enabled(s, PayRewards) && s.totals[1] + s.totals[2] + s.totals[3] + s.totals[4] == 0
    ensures Apply(s, PayRewards) == s
  {
  }

  // ---------------------------------------------------------------- moving tokens

  /** A move needs a closed auction and opens the next one. For every holder what was committed is staked, what
      was requested is unstaking, and what was unstaking is unstaked. */
  lemma MovingDecides(s: State, op: Op, who: Who)
    requires NodesOk(s.nodes) && op.MoveTokens? && Enabled(s, op) && Exists(s.nodes, who)
    ensures !s.auction && Apply(s, op).auction && Apply(s, op).nodes.Keys == s.nodes.Keys
    ensures Exists(Apply(s, op).nodes, who)
    ensures var h, after := Get(s.nodes, who), Get(Apply(s, op).nodes, who);
            && after.committed == 0 && after.request == 0 && after.rewarded == h.rewarded
            && after.staked == h.staked + h.committed - h.request
            && after.unstaking == h.request
            && after.unstaked == h.unstaked + h.unstaking
    ensures var after := Apply(s, op); after == s.(nodes := after.nodes, totals := after.totals, auction := true)
  {
    MovedAligned(s.nodes);
    assert NodeOk(who.id, s.nodes[who.id]);
  }

  // ---------------------------------------------------------------- registration and removal

  /** Nobody in the table has this networking address, networking key or staking key. */
  predicate Unclaimed(nodes: map<string, NodeRecord>, address: string, networkingKey: string, stakingKey: string) {
    forall id <- nodes ::
      && nodes[id].networkingAddress != address
      && nodes[id].networkingKey != networkingKey
      && nodes[id].stakingKey != stakingKey
  }

  /** A node can register exactly with an id, a role and metadata of the right form that nobody else in the
      table has. It enters with its tokens committed and nothing else. */
  lemma RegisteringDecides(s: State, id: string, role: nat, address: string, networkingKey: string,
                           stakingKey: string, amount: nat)
    requires InvClaims(s)
    ensures var op := Register(id, role, address, networkingKey, stakingKey, amount);
            && (Enabled(s, op) <==>
                  && s.auction && amount <= s.outside && s.claims.Some? && id !in s.nodes
                  && |id| == 64 && role in {1, 2, 3, 4, 5}
                  && |address| > 0 && |address| <= 510 && |networkingKey| == 128 && |stakingKey| == 192
                  && Unclaimed(s.nodes, address, networkingKey, stakingKey))
            && (Enabled(s, op) ==>
                  var after := Apply(s, op);
                  && after.nodes == s.nodes[id := NodeRecord(role, address, networkingKey, stakingKey,
                                                             Holder(amount, 0, 0, 0, 0, 0), map[], 0, 0)]
                  && after == s.(nodes := after.nodes, claims := after.claims, outside := s.outside - amount))
  {
    if s.claims.Some? {
      UnclaimedMeaning(s.nodes, address, networkingKey, stakingKey);
    }
  }

  lemma UnclaimedMeaning(nodes: map<string, NodeRecord>, address: string, networkingKey: string, stakingKey: string)
    ensures Unclaimed(nodes, address, networkingKey, stakingKey) <==>
              && address !in LiveClaims(nodes).networkingAddresses
              && networkingKey !in LiveClaims(nodes).networkingKeys
              && stakingKey !in LiveClaims(nodes).stakingKeys
  {
  }

  /** A delegator can register exactly with a node that is no access node and whose commitment meets its role's
      minimum. It gets the next id and empty vaults. */
  lemma DelegatingDecides(s: State, id: string)
    requires NodesOk(s.nodes) && id in s.nodes
    ensures var n := s.nodes[id];
            && (Enabled(s, RegisterDelegator(id)) <==>
                  && s.auction && n.role != 5 && n.role in s.minimums && n.delegatorIDCounter < 0xFFFF_FFFF
                  && n.own.committed + n.own.staked - n.own.request >= s.minimums[n.role])
            && (Enabled(s, RegisterDelegator(id)) ==>
                  && n.delegatorIDCounter + 1 !in n.delegators
                  && Apply(s, RegisterDelegator(id)) == s.(nodes := s.nodes[id := n.(
                       delegatorIDCounter := n.delegatorIDCounter + 1,
                       delegators := n.delegators[n.delegatorIDCounter + 1 := Holder(0, 0, 0, 0, 0, 0)])]))
  {
    assert NodeOk(id, s.nodes[id]);
  }

  /** Any node can be removed. All its tokens and its delegators' go outside, its own stake leaves its role's
      total, and nothing else changes but what is claimed. */
  lemma RemovingDecides(s: State, id: string)
    requires Inv(s) && id in s.nodes
    ensures Enabled(s, RemoveNode(id)) <==> s.claims.Some?
    ensures Enabled(s, RemoveNode(id)) ==> HandedOver(s, id, Apply(s, RemoveNode(id)))
  {
    StakeIsInTotal(s, id);
  }

  ghost predicate HandedOver(s: State, id: string, after: State)
    requires id in s.nodes
  {
    var n := s.nodes[id];
    && after.nodes == s.nodes - {id}
    && n.role in s.totals && n.own.staked <= s.totals[n.role]
    && after.totals == s.totals[n.role := s.totals[n.role] - n.own.staked]
    && after.outside == s.outside + n.own.committed + n.own.staked + n.own.unstaking + n.own.unstaked
                        + n.own.rewarded + SumOver(n.delegators, Tokens)
    && after == s.(nodes := after.nodes, totals := after.totals, claims := after.claims, outside := after.outside)
  }

  lemma StakeIsInTotal(s: State, id: string)
    requires Inv(s) && id in s.nodes
    ensures s.nodes[id].role in s.totals && s.nodes[id].own.staked <= s.totals[s.nodes[id].role]
  {
    var r := s.nodes[id].role;
    assert NodeOk(id, s.nodes[id]);
    NodeAtMostTable(s.nodes, id, {r}, Staked);
    assert RoleStaked(s.nodes, r) <= s.totals[r];
    assert Staked(s.nodes[id].own) == s.nodes[id].own.staked;
  }

  // ---------------------------------------------------------------- settings

  /** Minimums are set for exactly five roles, cuts strictly between 0 and 1; the auction and the payout can
      always be set, and claims be rebuilt only where there are none. Each changes nothing else. */
  lemma SettingDecides(s: State, op: Op)
    requires op.StartAuction? || op.SetMinimums? || op.SetPayout? || op.SetCut? || op.SetClaimed?
    ensures Enabled(s, op) <==>
              match op
              case SetMinimums(minimums) => |minimums| == 5
              case SetCut(cut) => 0 < cut < 100_000_000
              case SetClaimed => s.claims.None?
              case _ => true
    ensures Enabled(s, op) ==>
              var after := Apply(s, op);
              match op
              case SetMinimums(minimums) => after.minimums == minimums && after == s.(minimums := minimums)
              case SetPayout(payout) => after.payout == payout && after == s.(payout := payout)
              case SetCut(cut) => after.cut == cut && after == s.(cut := cut)
              case SetClaimed => after == s.(claims := after.claims)
              case _ => after.auction && after == s.(auction := true)
  {
  }
}
