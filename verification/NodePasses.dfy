/** The loops over one node and its delegators, as the contract runs them, with every addition and
    subtraction checked to stay within UFix64. A method that returns false stands for an aborted
    transaction. The order in which a dictionary yields its keys is left open: a pass picks any key that is
    still to be visited, or, where the order decides whether it goes through, is given one. */
module NodePasses {
  import opened Fixed
  import opened Sums
  import opened Ledger
  import opened Options
  import opened Steps
  import opened Invariants
  import opened Moving
  import opened Orders
  import opened Vaults

  // ---------------------------------------------------------------- one node at a time

  /** Refund a node and its delegators and mark everything they have staked for unstaking. */
  method ExpelOne(n: NodeRecord) returns (out: NodeRecord)
    requires NodeTokens(n) <= MAX_UFIX64
    ensures out == ExpelNode(n)
  {
    SumOverNonNegative(n.delegators, Tokens);
    var own := n.own.(unstaked := Plus(n.own.unstaked, n.own.committed), committed := 0);
    own := own.(request := own.staked);
    var delegators := n.delegators;
    var todo := n.delegators.Keys;
    while todo != {}
      invariant todo <= n.delegators.Keys && delegators.Keys == n.delegators.Keys
      invariant forall d <- n.delegators ::
        delegators[d] == if d in todo then n.delegators[d] else Expel(n.delegators[d])
      decreases todo
    {
      var d :| d in todo;
      var h := delegators[d];
      assert Tokens(n.delegators[d]) <= SumOver(n.delegators, Tokens);
      if h.committed > 0 {
        h := h.(unstaked := Plus(h.unstaked, h.committed), committed := 0);
      }
      h := h.(request := h.staked);
      delegators := delegators[d := h];
      todo := todo - {d};
    }
    assert delegators == ExpelNode(n).delegators;
    out := n.(own := own, delegators := delegators, initialWeight := 0);
  }

  /** Move one holder's tokens between its vaults, in the order of the source. */
  method MoveOneHolder(h: Holder) returns (out: Holder)
    requires h.request <= h.staked && Tokens(h) <= MAX_UFIX64
    ensures out == Move(h)
  {
    out := h;
    if out.committed > 0 {
      out := out.(staked := Plus(out.staked, out.committed), committed := 0);
    }
    if out.unstaking > 0 {
      out := out.(unstaked := Plus(out.unstaked, out.unstaking), unstaking := 0);
    }
    if out.request > 0 {
      out := out.(staked := Minus(out.staked, out.request), unstaking := Plus(out.unstaking, out.request));
    }
    out := out.(request := 0);
  }

  /** Move the delegators' tokens in this order, keeping the role's total up to date. It goes through exactly
      if the total has room on the way. */
  method MoveDelegators(dels: map<nat, Holder>, order: seq<nat>, total: UFix64)
    returns (ok: bool, moved: map<nat, Holder>, newTotal: UFix64)
    requires Visits(order, dels.Keys)
    requires forall d <- dels :: dels[d].request <= dels[d].staked && Tokens(dels[d]) <= MAX_UFIX64
    requires SumOver(dels, Requested) <= total
    ensures ok <==> DelegatorsFit(dels, order, total)
    ensures ok ==> moved.Keys == dels.Keys && forall d <- dels :: moved[d] == Move(dels[d])
    ensures ok ==> newTotal == total + SumOver(dels, Committed) - SumOver(dels, Requested)
  {
    ok, moved, newTotal := true, dels, total;
    NothingSummed(dels, Committed);
    NothingSummed(dels, Requested);
    var i := 0;
    while i < |order|
      invariant i <= |order| && Left(order, i) <= dels.Keys
      invariant DelegatorsMovedSoFar(dels, Left(order, i), moved)
      invariant newTotal == DelegatorTotal(dels, Left(order, i), total)
      invariant forall k: nat | k < i :: order[k] in dels && DelegatorFits(dels, order, total, k)
    {
      LeftStep(order, i, dels.Keys);
      ok, moved, newTotal := MoveNextDelegator(dels, order, i, moved, total, newTotal);
      if !ok {
        return;
      }
      i := i + 1;
    }
    assert Left(order, i) == {};
  }

  ghost predicate DelegatorsMovedSoFar(dels: map<nat, Holder>, todo: set<nat>, moved: map<nat, Holder>) {
    moved.Keys == dels.Keys && forall d <- dels :: d in todo || (RequestCovered(dels[d]) && moved[d] == Move(dels[d]))
  }

  lemma OneMoreDelegatorMoved(dels: map<nat, Holder>, order: seq<nat>, i: nat, moved: map<nat, Holder>)
    requires Visits(order, dels.Keys) && i < |order| && order[i] in dels && RequestCovered(dels[order[i]])
    requires DelegatorsMovedSoFar(dels, Left(order, i), moved)
    ensures DelegatorsMovedSoFar(dels, Left(order, i + 1), moved[order[i] := Move(dels[order[i]])])
  {
    LeftStep(order, i, dels.Keys);
  }

  method MoveNextDelegator(dels: map<nat, Holder>, order: seq<nat>, i: nat, moved: map<nat, Holder>,
                           ghost total: nat, now: UFix64)
    returns (ok: bool, table: map<nat, Holder>, newTotal: UFix64)
    requires Visits(order, dels.Keys) && i < |order| && order[i] in dels
    requires forall d <- dels :: dels[d].request <= dels[d].staked && Tokens(dels[d]) <= MAX_UFIX64
    requires SumOver(dels, Requested) <= total
    requires DelegatorsMovedSoFar(dels, Left(order, i), moved)
    requires now == DelegatorTotal(dels, Left(order, i), total)
    ensures ok <==> DelegatorFits(dels, order, total, i)
    ensures ok ==> DelegatorsMovedSoFar(dels, Left(order, i + 1), table)
    ensures ok ==> newTotal == DelegatorTotal(dels, Left(order, i + 1), total)
  {
    var d := order[i];
    if now + dels[d].committed > MAX_UFIX64 {
      return false, moved, now;
    }
    NextDelegatorTotal(dels, order, i, total);
    OneMoreDelegatorMoved(dels, order, i, moved);
    newTotal := Plus(now, dels[d].committed);
    var h := MoveOneHolder(dels[d]);
    newTotal := Minus(newTotal, dels[d].request);
    ok, table := true, moved[d := h];
  }

  /** Move the tokens of a node and of its delegators. */
  method MoveOne(n: NodeRecord, order: seq<nat>, total: UFix64) returns (ok: bool, out: NodeRecord, newTotal: UFix64)
    requires Visits(order, n.delegators.Keys)
    requires NodeRequestsCovered(n) && NodeTokens(n) <= MAX_UFIX64
    requires n.own.staked + SumOver(n.delegators, Staked) <= total
    ensures ok <==> NodeFits(n, order, total)
    ensures ok ==> out == MoveNode(n)
    ensures ok ==> newTotal == total + n.own.committed + SumOver(n.delegators, Committed)
                               - n.own.request - SumOver(n.delegators, Requested)
  {
    out, newTotal := n, total;
    NodeBounds(n);
    if total + n.own.committed > MAX_UFIX64 {
      return false, n, total;
    }
    var own := MoveOneHolder(n.own);
    var delegators;
    ok, delegators, newTotal := MoveDelegators(n.delegators, order, Plus(total, n.own.committed));
    if ok {
      newTotal := Minus(newTotal, n.own.request);
      out := n.(own := own, delegators := delegators);
      assert out.delegators == MoveNode(n).delegators;
    }
  }

  lemma NodeBounds(n: NodeRecord)
    requires NodeRequestsCovered(n) && NodeTokens(n) <= MAX_UFIX64
    ensures Tokens(n.own) <= MAX_UFIX64 && forall d <- n.delegators :: Tokens(n.delegators[d]) <= MAX_UFIX64
    ensures 0 <= SumOver(n.delegators, Committed)
    ensures 0 <= SumOver(n.delegators, Requested) <= SumOver(n.delegators, Staked)
  {
    SumOverNonNegative(n.delegators, Tokens);
    SumOverNonNegative(n.delegators, Committed);
    SumOverNonNegative(n.delegators, Requested);
    SumOverAtMost(n.delegators, Requested, n.delegators, Staked);
    forall d | d in n.delegators ensures Tokens(n.delegators[d]) <= MAX_UFIX64 {
      assert Tokens(n.delegators[d]) <= SumOver(n.delegators, Tokens);
    }
  }

  /** The sums over one more delegator's reward and over the operator's share of it. */
  lemma DelegatorEarns(dels: map<nat, Holder>, todo: set<nat>, d: nat, scale: nat, cut: nat)
    requires d in todo && todo <= dels.Keys
    ensures Sum(dels, todo - {d}, RewardOf(scale)) == Sum(dels, todo, RewardOf(scale)) + Reward(dels[d], scale)
    ensures Sum(dels, todo - {d}, CutOf(scale, cut)) == Sum(dels, todo, CutOf(scale, cut)) + Cut(dels[d], scale, cut)
    ensures 0 <= Sum(dels, todo, RewardOf(scale))
    ensures Sum(dels, todo - {d}, RewardOf(scale)) <= SumOver(dels, RewardOf(scale))
    ensures 0 <= Sum(dels, todo, CutOf(scale, cut))
  {
    DoneStep(dels, todo, d, RewardOf(scale));
    DoneStep(dels, todo, d, CutOf(scale, cut));
    DoneAtMost(dels, todo - {d}, RewardOf(scale));
    SumOverNonNegative(Done(dels, todo), RewardOf(scale));
    SumOverNonNegative(Done(dels, todo), CutOf(scale, cut));
  }

  /** What paying can draw on: the supply so far, and what may still be minted. */
  datatype Mint = Mint(supply: nat, allowance: nat)

  predicate CanMint(m: Mint, amount: int) { amount <= m.allowance && m.supply + amount <= MAX_UFIX64 }

  function AfterMint(m: Mint, amount: nat): Mint
    requires CanMint(m, amount)
  {
    Mint(m.supply + amount, m.allowance - amount)
  }

  /** Minting so far, from what there was before. */
  ghost predicate MintSoFar(before: Mint, now: Mint, minted: int) {
    && now.supply == before.supply + minted <= MAX_UFIX64
    && now.allowance == before.allowance - minted <= MAX_UFIX64
    && minted >= 0
  }

  /** Mint a delegator's reward and split it: the operator's cut, truncated, and the rest. */
  method PayOneDelegator(h: Holder, scale: UFix64, cut: UFix64, tokenReward: UFix64, m: Mint)
    returns (ok: bool, paid: Holder, newReward: UFix64, m': Mint)
    requires h.rewarded <= m.supply && tokenReward <= m.supply <= MAX_UFIX64 && m.allowance <= MAX_UFIX64
    ensures ok <==> CanMint(m, Reward(h, scale)) && Cut(h, scale, cut) <= Reward(h, scale)
    ensures ok ==> paid == PayDelegator(h, scale, cut) && newReward == tokenReward + Cut(h, scale, cut)
                   && m' == AfterMint(m, Reward(h, scale))
  {
    paid, newReward, m' := h, tokenReward, m;
    var reward := Times(h.staked, scale);
    if reward == 0 {
      assert Times(0, cut) == 0;
      return true, h, tokenReward, m;
    }
    if !CanMint(m, reward) {
      return false, h, tokenReward, m;
    }
    m' := AfterMint(m, reward);
    var share := Times(reward, cut);
    if share > reward {
      return false, h, tokenReward, m;
    }
    newReward := Plus(tokenReward, share);
    paid := h.(rewarded := Plus(h.rewarded, Minus(reward, share)));
    ok := true;
  }

  ghost predicate DelegatorsPaidSoFar(dels: map<nat, Holder>, todo: set<nat>, paid: map<nat, Holder>,
                                      scale: nat, cut: nat)
  {
    && paid.Keys == dels.Keys
    && forall d <- dels ::
         d in todo || (CutCovered(dels[d], scale, cut) && paid[d] == PayDelegator(dels[d], scale, cut))
  }

  lemma EveryDelegatorPaid(dels: map<nat, Holder>, paid: map<nat, Holder>, scale: nat, cut: nat)
    requires DelegatorsPaidSoFar(dels, {}, paid, scale, cut)
    ensures CutFits(dels, scale, cut) && forall d <- dels :: paid[d] == PayDelegator(dels[d], scale, cut)
  {
    forall d | d in dels ensures Cut(dels[d], scale, cut) <= Reward(dels[d], scale) {
      assert CutCovered(dels[d], scale, cut);
    }
  }

  /** Pay one more delegator of a node. */
  method PayNextDelegator(dels: map<nat, Holder>, ghost todo: set<nat>, d: nat, scale: UFix64, cut: UFix64,
                          tokenReward: UFix64, ghost before: Mint, now: Mint)
    returns (ok: bool, paid: Holder, newReward: UFix64, m: Mint)
    requires d in todo && todo <= dels.Keys && dels[d].rewarded <= before.supply
    requires MintSoFar(before, now, Sum(dels, todo, RewardOf(scale))) && tokenReward <= now.supply
    ensures ok ==> CutCovered(dels[d], scale, cut) && paid == PayDelegator(dels[d], scale, cut)
    ensures ok ==> newReward == tokenReward + Cut(dels[d], scale, cut) <= m.supply
    ensures ok ==> MintSoFar(before, m, Sum(dels, todo - {d}, RewardOf(scale)))
    ensures !ok ==> !CutFits(dels, scale, cut) || !CanMint(before, SumOver(dels, RewardOf(scale)))
  {
    DelegatorEarns(dels, todo, d, scale, cut);
    ok, paid, newReward, m := PayOneDelegator(dels[d], scale, cut, tokenReward, now);
  }

  /** Pay a node's delegators, collecting the operator's shares in the operator's own reward. */
  method PayDelegators(dels: map<nat, Holder>, scale: UFix64, cut: UFix64, tokenReward: UFix64, m: Mint)
    returns (ok: bool, paid: map<nat, Holder>, newReward: UFix64, m': Mint)
    requires forall d <- dels :: dels[d].rewarded <= m.supply
    requires tokenReward <= m.supply <= MAX_UFIX64 && m.allowance <= MAX_UFIX64
    ensures ok <==> CanMint(m, SumOver(dels, RewardOf(scale))) && CutFits(dels, scale, cut)
    ensures ok ==> paid.Keys == dels.Keys && forall d <- dels :: paid[d] == PayDelegator(dels[d], scale, cut)
    ensures ok ==> newReward == tokenReward + SumOver(dels, CutOf(scale, cut))
    ensures ok ==> SumOver(dels, RewardOf(scale)) >= 0 && m' == AfterMint(m, SumOver(dels, RewardOf(scale)))
  {
    ok, paid, newReward, m' := true, dels, tokenReward, m;
    var todo := dels.Keys;
    NothingSummed(dels, RewardOf(scale));
    NothingSummed(dels, CutOf(scale, cut));
    while todo != {}
      invariant todo <= dels.Keys
      invariant DelegatorsPaidSoFar(dels, todo, paid, scale, cut)
      invariant newReward == tokenReward + Sum(dels, todo, CutOf(scale, cut)) && newReward <= m'.supply
      invariant MintSoFar(m, m', Sum(dels, todo, RewardOf(scale)))
      decreases todo
    {
      var d :| d in todo;
      DelegatorEarns(dels, todo, d, scale, cut);
      var h;
      ok, h, newReward, m' := PayNextDelegator(dels, todo, d, scale, cut, newReward, m, m');
      if !ok {
        return;
      }
      paid, todo := paid[d := h], todo - {d};
    }
    EveryDelegatorPaid(dels, paid, scale, cut);
  }

  lemma RewardsWithin(n: NodeRecord)
    ensures n.own.rewarded <= NodeTokens(n)
    ensures forall d <- n.delegators :: n.delegators[d].rewarded <= NodeTokens(n)
  {
    SumOverNonNegative(n.delegators, Tokens);
    forall d | d in n.delegators ensures n.delegators[d].rewarded <= NodeTokens(n) {
      assert Tokens(n.delegators[d]) <= SumOver(n.delegators, Tokens);
    }
  }

  lemma PaidInFull(n: NodeRecord, scale: nat, cut: nat, paid: map<nat, Holder>)
    requires Paid(n, scale) && CutFits(n.delegators, scale, cut) && paid.Keys == n.delegators.Keys
    requires forall d <- paid :: paid[d] == PayDelegator(n.delegators[d], scale, cut)
    ensures PayNode(n, scale, cut)
         == n.(own := n.own.(rewarded := n.own.rewarded + OperatorReward(n, scale, cut)), delegators := paid)
  {
    assert paid == PayNode(n, scale, cut).delegators;
  }

  /** Pay a node: its own reward, then its delegators', of which it keeps a cut. */
  method PayOne(n: NodeRecord, scale: UFix64, cut: UFix64, m: Mint) returns (ok: bool, out: NodeRecord, m': Mint)
    requires NodeTokens(n) <= m.supply <= MAX_UFIX64 && m.allowance <= MAX_UFIX64
    ensures ok <==> CanMint(m, MintedFor(scale)(n)) && (Paid(n, scale) ==> CutFits(n.delegators, scale, cut))
    ensures ok ==> out == PayNode(n, scale, cut)
    ensures ok ==> MintedFor(scale)(n) >= 0 && m' == AfterMint(m, MintedFor(scale)(n))
  {
    if n.own.staked == 0 || n.role == ACCESS_ROLE || Times(n.own.staked, scale) == 0 {
      NothingStakedNothingDue(n.own, scale);
      return true, n, m;
    }
    ok, out, m' := PayDue(n, scale, cut, m);
  }

  lemma NothingStakedNothingDue(h: Holder, scale: nat)
    ensures h.staked == 0 ==> Reward(h, scale) == 0
  {
    assert h.staked == 0 ==> Times(0, scale) == 0;
  }

  /** What minting for the operator and then for the delegators comes to. */
  lemma MintInTwo(n: NodeRecord, scale: nat, m: Mint)
    requires Paid(n, scale)
    ensures SumOver(n.delegators, RewardOf(scale)) >= 0
    ensures MintedFor(scale)(n) == Reward(n.own, scale) + SumOver(n.delegators, RewardOf(scale))
    ensures CanMint(m, MintedFor(scale)(n)) <==>
              CanMint(m, Reward(n.own, scale))
              && CanMint(AfterMint(m, Reward(n.own, scale)), SumOver(n.delegators, RewardOf(scale)))
    ensures CanMint(m, MintedFor(scale)(n)) ==>
              AfterMint(m, MintedFor(scale)(n))
              == AfterMint(AfterMint(m, Reward(n.own, scale)), SumOver(n.delegators, RewardOf(scale)))
  {
    SumOverNonNegative(n.delegators, RewardOf(scale));
  }

  /** Pay a node to which something is due. */
  method PayDue(n: NodeRecord, scale: UFix64, cut: UFix64, m: Mint) returns (ok: bool, out: NodeRecord, m': Mint)
    requires NodeTokens(n) <= m.supply <= MAX_UFIX64 && m.allowance <= MAX_UFIX64 && Paid(n, scale)
    ensures ok <==> CanMint(m, MintedFor(scale)(n)) && CutFits(n.delegators, scale, cut)
    ensures ok ==> out == PayNode(n, scale, cut)
    ensures ok ==> MintedFor(scale)(n) >= 0 && m' == AfterMint(m, MintedFor(scale)(n))
  {
    out, m' := n, m;
    MintInTwo(n, scale, m);
    var reward := Times(n.own.staked, scale);
    if !CanMint(m, reward) {
      return false, n, m;
    }
    RewardsWithin(n);
    var delegators, tokenReward;
    ok, delegators, tokenReward, m' := PayDelegators(n.delegators, scale, cut, reward, AfterMint(m, reward));
    if ok {
      CutsWithinRewards(n.delegators, scale, cut);
      PaidInFull(n, scale, cut, delegators);
      out := n.(own := n.own.(rewarded := Plus(n.own.rewarded, tokenReward)), delegators := delegators);
    }
  }

  lemma CutsWithinRewards(dels: map<nat, Holder>, scale: nat, cut: nat)
    requires CutFits(dels, scale, cut)
    ensures SumOver(dels, CutOf(scale, cut)) <= SumOver(dels, RewardOf(scale))
  {
    SumOverAtMost(dels, CutOf(scale, cut), dels, RewardOf(scale));
  }

  // ---------------------------------------------------------------- removal and metadata

  /** Hand all tokens of a node and its delegators to the account that holds `outside`. */
  method CollectTokens(n: NodeRecord, outside: UFix64) returns (out: UFix64)
    requires NodeTokens(n) + outside <= MAX_UFIX64
    ensures out == outside + NodeTokens(n)
  {
    var dels := n.delegators;
    SumOverNonNegative(dels, Tokens);
    out := Plus(outside, n.own.staked);
    out := Plus(Plus(Plus(Plus(out, n.own.committed), n.own.unstaking), n.own.unstaked), n.own.rewarded);
    var todo := dels.Keys;
    assert Done(dels, todo) == map[];
    while todo != {}
      invariant todo <= dels.Keys
      invariant out == outside + Tokens(n.own) + Sum(dels, todo, Tokens)
      decreases todo
    {
      var d :| d in todo;
      var h := dels[d];
      DoneStep(dels, todo, d, Tokens);
      DoneAtMost(dels, todo - {d}, Tokens);
      assert Tokens(h) == h.committed + h.staked + h.unstaking + h.unstaked + h.rewarded;
      out := Plus(Plus(Plus(Plus(Plus(out, h.committed), h.staked), h.unstaked), h.rewarded), h.unstaking);
      todo := todo - {d};
    }
    assert Done(dels, todo) == dels;
  }

  /** What removing and destroying a record changes besides the table: only the node's own stake leaves
      the role's total, its metadata is free again, and its tokens are handed over. */
  method DestroyRecord(n: NodeRecord, totals: map<nat, nat>, claims: Claims, outside: UFix64)
    returns (newTotals: map<nat, nat>, newClaims: Option<Claims>, newOutside: UFix64)
    requires n.role in totals && n.own.staked <= totals[n.role] <= MAX_UFIX64
    requires NodeTokens(n) + outside <= MAX_UFIX64
    ensures newTotals == totals[n.role := totals[n.role] - n.own.staked]
    ensures newClaims == Some(DropClaims(claims, n))
    ensures newOutside == outside + NodeTokens(n)
  {
    newClaims := Some(Claims(claims.networkingAddresses - {n.networkingAddress},
                             claims.networkingKeys - {n.networkingKey},
                             claims.stakingKeys - {n.stakingKey}));
    newTotals := totals[n.role := Minus(totals[n.role], n.own.staked)];
    newOutside := CollectTokens(n, outside);
  }

  /** Rebuild the record of claimed metadata from the table. */
  method CollectClaims(nodes: map<string, NodeRecord>) returns (all: Claims)
    ensures all == LiveClaims(nodes)
  {
    var addresses, networkingKeys, stakingKeys := {}, {}, {};
    var todo := nodes.Keys;
    while todo != {}
      invariant todo <= nodes.Keys
      invariant addresses == set id | id in nodes && id !in todo :: nodes[id].networkingAddress
      invariant networkingKeys == set id | id in nodes && id !in todo :: nodes[id].networkingKey
      invariant stakingKeys == set id | id in nodes && id !in todo :: nodes[id].stakingKey
      decreases todo
    {
      var id :| id in todo;
      addresses := addresses + {nodes[id].networkingAddress};
      networkingKeys := networkingKeys + {nodes[id].networkingKey};
      stakingKeys := stakingKeys + {nodes[id].stakingKey};
      todo := todo - {id};
    }
    all := Claims(addresses, networkingKeys, stakingKeys);
  }

  /** A node's stake is part of its role's total, and its tokens fit in the account. */
  lemma RemovalFits(s: State, id: string)
    requires Inv(s) && id in s.nodes
    ensures s.nodes[id].role in s.totals
    ensures NodeTokens(s.nodes[id]) + s.outside <= MAX_UFIX64
    ensures s.nodes[id].own.staked <= s.totals[s.nodes[id].role] <= MAX_UFIX64
  {
    var r := s.nodes[id].role;
    NodeWithin(s, id);
    assert NodeOk(id, s.nodes[id]);
    NodeAtMostTable(s.nodes, id, {r}, Staked);
    assert RoleStaked(s.nodes, r) <= s.totals[r];
    assert Staked(s.nodes[id].own) == s.nodes[id].own.staked;
  }

  // ---------------------------------------------------------------- passes over the whole table

  /** isGreaterThanMinimumForRole; a role without a minimum aborts, here None. */
  function AboveMinimum(minimums: map<nat, nat>, amount: nat, role: nat): Option<bool> {
    if role == ACCESS_ROLE then Some(amount > 0)
    else if role in minimums then Some(amount >= minimums[role])
    else None
  }

  /** Refund every node that is not approved or below its minimum. */
  method ScreenTable(nodes: map<string, NodeRecord>, minimums: map<nat, nat>, approved: set<string>, ghost s: State)
    returns (ok: bool, table: map<string, NodeRecord>)
    requires nodes == s.nodes && minimums == s.minimums
    requires forall id <- nodes :: NodeTokens(nodes[id]) <= MAX_UFIX64
    ensures ok <==> AllMinimumsKnown(s)
    ensures ok ==> table == Screen(s, approved)
  {
    table := nodes;
    var todo := nodes.Keys;
    while todo != {}
      invariant todo <= nodes.Keys && table.Keys == nodes.Keys
      invariant forall id <- nodes | id !in todo :: MinimumKnown(s, nodes[id].role)
      invariant forall id <- nodes | id !in todo ::
        table[id] == if Stays(s, approved, id) then nodes[id].(initialWeight := 100) else ExpelNode(nodes[id])
      decreases todo
    {
      var id :| id in todo;
      var n := nodes[id];
      var above := AboveMinimum(minimums, Commitment(n.own), n.role);
      if above == None {
        assert !MinimumKnown(s, n.role);
        return false, nodes;
      }
      if !above.value || id !in approved {
        n := ExpelOne(n);
      } else {
        n := n.(initialWeight := 100);
      }
      table := table[id := n];
      todo := todo - {id};
    }
    ok := true;
    assert table == Screen(s, approved);
  }

  /** getTotalStaked: the sum of the role totals without access nodes, unless it overflows. */
  method TotalStaked(totals: map<nat, nat>) returns (ok: bool, total: nat)
    requires totals.Keys == ROLES
    ensures ok <==> NetworkTotal(totals) <= MAX_UFIX64
    ensures ok ==> total == NetworkTotal(totals)
  {
    total := 0;
    var todo := totals.Keys;
    while todo != {}
      invariant todo <= ROLES
      invariant total == NetworkTotal(totals) - Rest(totals, todo) <= MAX_UFIX64
      decreases todo
    {
      var role :| role in todo;
      if role != ACCESS_ROLE {
        if total + totals[role] > MAX_UFIX64 {
          return false, 0;
        }
        total := Plus(total, totals[role]);
      }
      todo := todo - {role};
    }
    ok := true;
  }

  /** What the paid roles that are still to be visited add. */
  ghost function Rest(totals: map<nat, nat>, todo: set<nat>): nat
    requires totals.Keys == ROLES
  {
    (if 1 in todo then totals[1] else 0) + (if 2 in todo then totals[2] else 0)
    + (if 3 in todo then totals[3] else 0) + (if 4 in todo then totals[4] else 0)
  }

  ghost predicate TotalsSoFar(nodes: map<string, NodeRecord>, todo: set<string>, before: map<nat, nat>,
                              now: map<nat, nat>)
  {
    && before.Keys == now.Keys == ROLES
    && forall r {:trigger TotalSoFar(nodes, todo, before, now, r)} | r in ROLES ::
         TotalSoFar(nodes, todo, before, now, r)
  }

  ghost predicate Movable(nodes: map<string, NodeRecord>, totals: map<nat, nat>) {
    && RequestsCovered(nodes)
    && (forall id <- nodes :: nodes[id].role in ROLES && NodeTokens(nodes[id]) <= MAX_UFIX64)
    && totals.Keys == ROLES
    && forall r {:trigger TotalCovers(nodes, totals, r)} | r in ROLES :: TotalCovers(nodes, totals, r)
  }

  ghost predicate TotalCovers(nodes: map<string, NodeRecord>, totals: map<nat, nat>, r: nat)
    requires r in totals
  {
    RoleStaked(nodes, r) <= totals[r] <= MAX_UFIX64
  }

  lemma AllTotalsAfterNode(nodes: map<string, NodeRecord>, todo: set<string>, id: string, before: map<nat, nat>,
                           now: map<nat, nat>, total: nat)
    requires Movable(nodes, before) && id in todo && todo <= nodes.Keys && TotalsSoFar(nodes, todo, before, now)
    requires total <= MAX_UFIX64
    requires var n := nodes[id];
             total == now[n.role] + n.own.committed + SumOver(n.delegators, Committed)
                      - n.own.request - SumOver(n.delegators, Requested)
    ensures TotalsSoFar(nodes, todo - {id}, before, now[nodes[id].role := total])
  {
    forall r | r in ROLES ensures TotalSoFar(nodes, todo - {id}, before, now[nodes[id].role := total], r) {
      assert TotalSoFar(nodes, todo, before, now, r);
      TotalAfterNode(nodes, todo, id, before, now, total, r);
    }
  }

  ghost predicate MovedSoFar(nodes: map<string, NodeRecord>, todo: set<string>, table: map<string, NodeRecord>)
    requires RequestsCovered(nodes)
  {
    table.Keys == nodes.Keys && forall id <- nodes :: id in todo || table[id] == MoveNode(nodes[id])
  }

  /** The first i nodes of the order have been moved, and the totals had room for them. */
  ghost predicate Progress(nodes: map<string, NodeRecord>, order: Order, before: map<nat, nat>, i: nat,
                           table: map<string, NodeRecord>, now: map<nat, nat>)
    requires Movable(nodes, before) && OrderOf(order, nodes) && i <= |order.nodes|
  {
    && MovedSoFar(nodes, Left(order.nodes, i), table)
    && TotalsSoFar(nodes, Left(order.nodes, i), before, now)
    && FirstNodesFit(nodes, order, before, i)
  }

  /** Move the tokens of one more node of the table. */
  method MoveNext(nodes: map<string, NodeRecord>, order: Order, i: nat, ghost before: map<nat, nat>,
                  table: map<string, NodeRecord>, now: map<nat, nat>)
    returns (ok: bool, moved: map<string, NodeRecord>, newTotals: map<nat, nat>)
    requires Movable(nodes, before) && OrderOf(order, nodes) && i < |order.nodes|
    requires Progress(nodes, order, before, i, table, now)
    ensures ok ==> Progress(nodes, order, before, i + 1, moved, newTotals)
    ensures !ok ==> !TableFits(nodes, order, before)
  {
    moved, newTotals := table, now;
    var id := order.nodes[i];
    LeftStep(order.nodes, i, nodes.Keys);
    var n := nodes[id];
    NextNodeCovered(nodes, order, i, before, now);
    var one, total;
    ok, one, total := MoveOne(n, order.delegators[id], now[n.role]);
    if ok {
      moved, newTotals := table[id := one], now[n.role := total];
      OneMoreMoved(nodes, order, before, i, table);
      AllTotalsAfterNode(nodes, Left(order.nodes, i), id, before, now, total);
    } else {
      OneUnfit(nodes, order, before, i);
    }
  }

  lemma NextNodeCovered(nodes: map<string, NodeRecord>, order: Order, i: nat, before: map<nat, nat>, now: map<nat, nat>)
    requires Movable(nodes, before) && OrderOf(order, nodes) && i < |order.nodes| && order.nodes[i] in nodes
    requires TotalsSoFar(nodes, Left(order.nodes, i), before, now)
    ensures var n := nodes[order.nodes[i]];
            && NodeRequestsCovered(n) && NodeTokens(n) <= MAX_UFIX64 && n.role in ROLES
            && n.own.staked + SumOver(n.delegators, Staked) <= now[n.role] <= MAX_UFIX64
            && (NodeFits(n, order.delegators[order.nodes[i]], now[n.role]) <==> NodeFitsAt(nodes, order, before, i))
  {
    var n := nodes[order.nodes[i]];
    LeftStep(order.nodes, i, nodes.Keys);
    assert TotalCovers(nodes, before, n.role) && TotalSoFar(nodes, Left(order.nodes, i), before, now, n.role);
    RunningTotalCovers(nodes, Left(order.nodes, i), order.nodes[i], before);
  }

  /** Move the tokens of every node in this order. It goes through exactly if the totals have room on the way. */
  method MoveTable(nodes: map<string, NodeRecord>, totals: map<nat, nat>, order: Order)
    returns (ok: bool, table: map<string, NodeRecord>, newTotals: map<nat, nat>)
    requires Movable(nodes, totals) && OrderOf(order, nodes)
    ensures ok <==> TableFits(nodes, order, totals)
    ensures ok ==> table == Moved(nodes)
    ensures ok ==> TotalsSoFar(nodes, {}, totals, newTotals)
  {
    ok, table, newTotals := true, nodes, totals;
    NobodyMoved(nodes, order, totals);
    var i := 0;
    while i < |order.nodes|
      invariant i <= |order.nodes|
      invariant Progress(nodes, order, totals, i, table, newTotals)
    {
      ok, table, newTotals := MoveNext(nodes, order, i, totals, table, newTotals);
      if !ok {
        return;
      }
      i := i + 1;
    }
    EverybodyMoved(nodes, order, totals, table, newTotals);
  }

  lemma OneUnfit(nodes: map<string, NodeRecord>, order: Order, totals: map<nat, nat>, i: nat)
    requires OrderOf(order, nodes) && RolesIn(nodes, totals)
    requires i < |order.nodes| && order.nodes[i] in nodes && !NodeFitsAt(nodes, order, totals, i)
    ensures !TableFits(nodes, order, totals)
  {
  }

  lemma OneMoreMoved(nodes: map<string, NodeRecord>, order: Order, totals: map<nat, nat>, i: nat,
                     table: map<string, NodeRecord>)
    requires OrderOf(order, nodes) && RequestsCovered(nodes) && RolesIn(nodes, totals)
    requires i < |order.nodes| && order.nodes[i] in nodes
    requires MovedSoFar(nodes, Left(order.nodes, i), table) && FirstNodesFit(nodes, order, totals, i)
    requires NodeFitsAt(nodes, order, totals, i)
    ensures Left(order.nodes, i + 1) == Left(order.nodes, i) - {order.nodes[i]}
    ensures MovedSoFar(nodes, Left(order.nodes, i + 1), table[order.nodes[i] := MoveNode(nodes[order.nodes[i]])])
    ensures FirstNodesFit(nodes, order, totals, i + 1)
  {
    LeftStep(order.nodes, i, nodes.Keys);
  }

  lemma NobodyMoved(nodes: map<string, NodeRecord>, order: Order, totals: map<nat, nat>)
    requires Movable(nodes, totals) && OrderOf(order, nodes)
    ensures Progress(nodes, order, totals, 0, nodes, totals)
  {
    forall r | r in ROLES ensures TotalSoFar(nodes, nodes.Keys, totals, totals, r) {
      assert TotalCovers(nodes, totals, r);
      NothingSummed(nodes, Measure({r}, Committed));
      NothingSummed(nodes, Measure({r}, Requested));
    }
  }

  lemma EverybodyMoved(nodes: map<string, NodeRecord>, order: Order, totals: map<nat, nat>,
                       table: map<string, NodeRecord>, now: map<nat, nat>)
    requires Movable(nodes, totals) && OrderOf(order, nodes)
    requires Progress(nodes, order, totals, |order.nodes|, table, now)
    ensures TableFits(nodes, order, totals) && table == Moved(nodes) && TotalsSoFar(nodes, {}, totals, now)
  {
    assert Left(order.nodes, |order.nodes|) == {};
  }

  // ---------------------------------------------------------------- rewards for the whole table

  /** What one more node adds to the rewards minted. */
  lemma NodeEarns(nodes: map<string, NodeRecord>, todo: set<string>, id: string, scale: nat)
    requires id in todo && todo <= nodes.Keys
    ensures Sum(nodes, todo - {id}, MintedFor(scale))
         == Sum(nodes, todo, MintedFor(scale)) + MintedFor(scale)(nodes[id])
    ensures 0 <= Sum(nodes, todo, MintedFor(scale)) && 0 <= MintedFor(scale)(nodes[id])
    ensures Sum(nodes, todo - {id}, MintedFor(scale)) <= Minted(nodes, scale)
  {
    forall other | other in nodes ensures 0 <= MintedFor(scale)(nodes[other]) {
      SumOverNonNegative(nodes[other].delegators, RewardOf(scale));
    }
    DoneStep(nodes, todo, id, MintedFor(scale));
    DoneAtMost(nodes, todo - {id}, MintedFor(scale));
    SumOverNonNegative(Done(nodes, todo), MintedFor(scale));
  }

  ghost predicate NodePaidOk(n: NodeRecord, scale: nat, cut: nat) {
    Paid(n, scale) ==> CutFits(n.delegators, scale, cut)
  }

  ghost predicate PaidSoFar(nodes: map<string, NodeRecord>, todo: set<string>, table: map<string, NodeRecord>,
                            scale: nat, cut: nat)
  {
    && table.Keys == nodes.Keys
    && forall id <- nodes ::
         id in todo || (NodePaidOk(nodes[id], scale, cut) && table[id] == PayNode(nodes[id], scale, cut))
  }

  lemma OneMorePaid(nodes: map<string, NodeRecord>, todo: set<string>, table: map<string, NodeRecord>,
                    id: string, scale: nat, cut: nat)
    requires PaidSoFar(nodes, todo, table, scale, cut) && id in todo && todo <= nodes.Keys
    requires NodePaidOk(nodes[id], scale, cut)
    ensures PaidSoFar(nodes, todo - {id}, table[id := PayNode(nodes[id], scale, cut)], scale, cut)
  {
  }

  lemma EverybodyPaid(nodes: map<string, NodeRecord>, table: map<string, NodeRecord>, scale: nat, cut: nat)
    requires PaidSoFar(nodes, {}, table, scale, cut)
    ensures CutsFit(nodes, scale, cut) && table == PaidNodes(nodes, scale, cut)
  {
    forall id | id in nodes ensures Paid(nodes[id], scale) ==> CutFits(nodes[id].delegators, scale, cut) {
      assert NodePaidOk(nodes[id], scale, cut);
    }
  }

  /** Pay one more node of the table. */
  method PayNext(nodes: map<string, NodeRecord>, ghost todo: set<string>, id: string, scale: UFix64, cut: UFix64,
                 ghost before: Mint, now: Mint)
    returns (ok: bool, paid: NodeRecord, m: Mint)
    requires id in todo && todo <= nodes.Keys && NodeTokens(nodes[id]) <= before.supply
    requires MintSoFar(before, now, Sum(nodes, todo, MintedFor(scale)))
    ensures ok ==> NodePaidOk(nodes[id], scale, cut) && paid == PayNode(nodes[id], scale, cut)
    ensures ok ==> MintSoFar(before, m, Sum(nodes, todo - {id}, MintedFor(scale)))
    ensures !ok ==> !CutsFit(nodes, scale, cut) || !CanMint(before, Minted(nodes, scale))
  {
    NodeEarns(nodes, todo, id, scale);
    ok, paid, m := PayOne(nodes[id], scale, cut, now);
  }

  /** Pay every node. It fails if some cut exceeds its reward or if the rewards cannot all be minted. */
  method PayTable(nodes: map<string, NodeRecord>, scale: UFix64, cut: UFix64, before: Mint)
    returns (ok: bool, table: map<string, NodeRecord>, m: Mint)
    requires before.supply <= MAX_UFIX64 && before.allowance <= MAX_UFIX64
    requires forall id <- nodes :: NodeTokens(nodes[id]) <= before.supply
    ensures ok <==> CutsFit(nodes, scale, cut) && CanMint(before, Minted(nodes, scale))
    ensures ok ==> table == PaidNodes(nodes, scale, cut) && m == AfterMint(before, Minted(nodes, scale))
  {
    ok, table, m := true, nodes, before;
    var todo := nodes.Keys;
    NothingSummed(nodes, MintedFor(scale));
    while todo != {}
      invariant todo <= nodes.Keys
      invariant PaidSoFar(nodes, todo, table, scale, cut)
      invariant MintSoFar(before, m, Sum(nodes, todo, MintedFor(scale)))
      decreases todo
    {
      var id :| id in todo;
      var paid;
      ok, paid, m := PayNext(nodes, todo, id, scale, cut, before, m);
      if !ok {
        return;
      }
      OneMorePaid(nodes, todo, table, id, scale, cut);
      table, todo := table[id := paid], todo - {id};
    }
    EverybodyPaid(nodes, table, scale, cut);
  }
}
