/** The identity table: its fields, and every transaction on them, in the order of the contract.
    A method that returns false stands for an aborted transaction, which leaves no trace.
    Every `Plus` and `Minus` is a place where the contract would abort if the amounts did not fit;
    that they verify says that in a valid table they always do. */
module StakingTable {
  import opened Fixed
  import opened Sums
  import opened Ledger
  import opened Options
  import opened Steps
  import opened Invariants
  import opened Runs
  import opened Moving
  import opened Orders
  import opened NodePasses
  import opened Vaults

  class IDTable {
    var nodes: map<string, NodeRecord>
    var minimumStakeRequired: map<nat, nat>
    var totalTokensStakedByNodeType: map<nat, nat>
    var epochTokenPayout: nat
    var nodeDelegatingRewardCut: nat
    var stakingEnabled: bool
    var claimed: Option<Claims>
    // FlowToken, as far as the table can see it
    var totalSupply: nat
    var allowedAmount: nat
    var outside: nat

    ghost function Contents(): State
      reads this
    {
      State(nodes, minimumStakeRequired, totalTokensStakedByNodeType, epochTokenPayout, nodeDelegatingRewardCut,
            stakingEnabled, claimed, totalSupply, allowedAmount, outside)
    }

    ghost predicate Valid()
      reads this
    {
      Inv(Contents())
    }

    constructor (payout: UFix64, rewardCut: UFix64, supply: UFix64, allowance: UFix64)
      ensures Valid() && Contents() == Initial(payout, rewardCut, supply, allowance)
    {
      nodes := map[];
      minimumStakeRequired :=
        map[1 := 250_000 * ONE, 2 := 500_000 * ONE, 3 := 1_250_000 * ONE, 4 := 135_000 * ONE, 5 := 0];
      totalTokensStakedByNodeType := map[1 := 0, 2 := 0, 3 := 0, 4 := 0, 5 := 0];
      epochTokenPayout, nodeDelegatingRewardCut := payout, rewardCut;
      stakingEnabled, claimed := true, Some(Claims({}, {}, {}));
      totalSupply, allowedAmount, outside := supply, allowance, supply;
      new;
      InitialInvariant(payout, rewardCut, supply, allowance);
    }

    // -------------------------------------------------------------- what holders do

    /** Store a holder's vaults, with this much outside the table. */
    method Store(who: Who, h: Holder, rest: UFix64)
      requires Exists(nodes, who)
      modifies this
      ensures Contents() == old(Contents()).(nodes := Put(old(nodes), who, h), outside := rest)
    {
      nodes, outside := Put(nodes, who, h), rest;
    }

    /** After an action that went through the table is valid. */
    ghost method Settle(before: State, who: Who, action: Action, amount: nat)
      requires Inv(before) && CanUse(before, who, action, amount)
      requires Contents() == before.(nodes := Put(before.nodes, who, Act(Get(before.nodes, who), action, amount)),
                                     outside := before.outside - In(action, amount) + Out(action, amount))
      ensures Valid() && Contents() == Used(before, who, action, amount)
    {
      InvariantKept(before, Step(Use(who, action, amount), true, Contents()));
    }

    method StakeNewTokens(who: Who, tokens: UFix64) returns (ok: bool)
      requires Valid()
      modifies this
      ensures Valid()
      ensures ok <==> CanUse(old(Contents()), who, StakeNew, tokens)
      ensures Contents() == if ok then Used(old(Contents()), who, StakeNew, tokens) else old(Contents())
    {
      if !stakingEnabled || !Exists(nodes, who) || tokens > outside {
        return false;
      }
      ghost var before := Contents();
      HolderWithin(before, who);
      var h := Commit(Get(nodes, who), tokens);
      Store(who, h, Minus(outside, tokens));
      Settle(before, who, StakeNew, tokens);
      ok := true;
    }

    method StakeUnstakedTokens(who: Who, amount: UFix64) returns (ok: bool)
      requires Valid()
      modifies this
      ensures Valid()
      ensures ok <==> CanUse(old(Contents()), who, StakeUnstaked, amount)
      ensures Contents() == if ok then Used(old(Contents()), who, StakeUnstaked, amount) else old(Contents())
    {
      if !stakingEnabled || !Exists(nodes, who) {
        return false;
      }
      ghost var before := Contents();
      HolderWithin(before, who);
      var h;
      ok, h := CommitUnstaked(Get(nodes, who), amount);
      if ok {
        Store(who, h, outside);
        Settle(before, who, StakeUnstaked, amount);
      }
    }

    method StakeRewardedTokens(who: Who, amount: UFix64) returns (ok: bool)
      requires Valid()
      modifies this
      ensures Valid()
      ensures ok <==> CanUse(old(Contents()), who, StakeRewarded, amount)
      ensures Contents() == if ok then Used(old(Contents()), who, StakeRewarded, amount) else old(Contents())
    {
      if !stakingEnabled || !Exists(nodes, who) {
        return false;
      }
      ghost var before := Contents();
      HolderWithin(before, who);
      var h;
      ok, h := CommitRewarded(Get(nodes, who), amount);
      if ok {
        Store(who, h, outside);
        Settle(before, who, StakeRewarded, amount);
      }
    }

    method RequestUnstakingOf(who: Who, amount: UFix64) returns (ok: bool)
      requires Valid()
      modifies this
      ensures Valid()
      ensures ok <==> CanUse(old(Contents()), who, RequestUnstaking, amount)
      ensures Contents() == if ok then Used(old(Contents()), who, RequestUnstaking, amount) else old(Contents())
    {
      if !stakingEnabled || !Exists(nodes, who) {
        return false;
      }
      ghost var before := Contents();
      HolderWithin(before, who);
      ok := EnoughToUnstake(Get(nodes, who), amount);
      if !ok {
        return;
      }
      var n := nodes[who.id];
      if who.Operator? && n.delegators != map[] {
        ok := AboveMinimum(minimumStakeRequired, Minus(Commitment(n.own), amount), n.role) == Some(true);
        if !ok {
          return;
        }
      }
      var h := TakeRequest(Get(nodes, who), amount);
      Store(who, h, outside);
      Settle(before, who, RequestUnstaking, amount);
    }

    method UnstakeAllOf(id: string) returns (ok: bool)
      requires Valid()
      modifies this
      ensures Valid()
      ensures ok <==> CanUse(old(Contents()), Operator(id), UnstakeAll, 0)
      ensures Contents() == if ok then Used(old(Contents()), Operator(id), UnstakeAll, 0) else old(Contents())
    {
      if !stakingEnabled || id !in nodes {
        return false;
      }
      ghost var before := Contents();
      HolderWithin(before, Operator(id));
      var h := TakeEverything(nodes[id].own);
      Store(Operator(id), h, outside);
      Settle(before, Operator(id), UnstakeAll, 0);
      ok := true;
    }

    method WithdrawUnstakedTokens(who: Who, amount: UFix64) returns (ok: bool)
      requires Valid()
      modifies this
      ensures Valid()
      ensures ok <==> CanUse(old(Contents()), who, WithdrawUnstaked, amount)
      ensures Contents() == if ok then Used(old(Contents()), who, WithdrawUnstaked, amount) else old(Contents())
    {
      if !Exists(nodes, who) {
        return false;
      }
      ghost var before := Contents();
      HolderWithin(before, who);
      var h;
      ok, h := ReleaseUnstaked(Get(nodes, who), amount);
      if ok {
        Store(who, h, Plus(outside, amount));
        Settle(before, who, WithdrawUnstaked, amount);
      }
    }

    method WithdrawRewardedTokens(who: Who, amount: UFix64) returns (ok: bool)
      requires Valid()
      modifies this
      ensures Valid()
      ensures ok <==> CanUse(old(Contents()), who, WithdrawRewarded, amount)
      ensures Contents() == if ok then Used(old(Contents()), who, WithdrawRewarded, amount) else old(Contents())
    {
      if !Exists(nodes, who) {
        return false;
      }
      ghost var before := Contents();
      HolderWithin(before, who);
      var h;
      ok, h := ReleaseRewarded(Get(nodes, who), amount);
      if ok {
        Store(who, h, Plus(outside, amount));
        Settle(before, who, WithdrawRewarded, amount);
      }
    }

    // -------------------------------------------------------------- registration

    method AddNodeRecord(id: string, role: nat, networkingAddress: string, networkingKey: string, stakingKey: string,
                         tokens: UFix64)
      returns (ok: bool)
      requires Valid()
      modifies this
      ensures Valid()
      ensures var op := Register(id, role, networkingAddress, networkingKey, stakingKey, tokens);
              && (ok <==> CanRegister(old(Contents()), op))
              && Contents() == if ok then Registered(old(Contents()), op) else old(Contents())
    {
      if !stakingEnabled || tokens > outside || claimed == None
         || !ValidInfo(id, role, networkingAddress, networkingKey, stakingKey) || id in nodes
         || networkingAddress in claimed.value.networkingAddresses
         || networkingKey in claimed.value.networkingKeys
         || stakingKey in claimed.value.stakingKeys {
        return false;
      }
      ghost var before := Contents();
      OutsideWithin(before);
      var n := NodeRecord(role, networkingAddress, networkingKey, stakingKey,
                          EMPTY_HOLDER.(committed := tokens), map[], 0, 0);
      claimed := Some(Claims(claimed.value.networkingAddresses + {networkingAddress},
                             claimed.value.networkingKeys + {networkingKey},
                             claimed.value.stakingKeys + {stakingKey}));
      nodes, outside := nodes[id := n], Minus(outside, tokens);
      SettleOp(before, Register(id, role, networkingAddress, networkingKey, stakingKey, tokens));
      ok := true;
    }

    method RegisterNewDelegator(id: string) returns (ok: bool, delegatorID: nat)
      requires Valid()
      modifies this
      ensures Valid()
      ensures ok <==> CanRegisterDelegator(old(Contents()), id)
      ensures Contents() == if ok then old(Contents()).(nodes := old(nodes)[id := WithDelegator(old(nodes)[id])])
                            else old(Contents())
      ensures ok ==> delegatorID !in old(nodes)[id].delegators && delegatorID in nodes[id].delegators
    {
      delegatorID := 0;
      if !stakingEnabled || id !in nodes || nodes[id].role == ACCESS_ROLE
         || AboveMinimum(minimumStakeRequired, Commitment(nodes[id].own), nodes[id].role) != Some(true)
         || nodes[id].delegatorIDCounter == MAX_UINT32 {
        return false, 0;
      }
      ghost var before := Contents();
      var n := nodes[id];
      assert NodeOk(id, n);
      delegatorID := n.delegatorIDCounter + 1;
      n := n.(delegatorIDCounter := delegatorID);
      n := n.(delegators := n.delegators[delegatorID := EMPTY_HOLDER]);
      assert n == WithDelegator(before.nodes[id]);
      nodes := nodes[id := n];
      assert CanRegisterDelegator(before, id);
      InvariantKept(before, Step(RegisterDelegator(id), true, Contents()));
      ok := true;
    }

    /** removeNode, and the destruction of the removed record, which returns its tokens to the
        contract's account and takes only the node's own stake out of its role's total. */
    method RemoveNodeOf(id: string) returns (ok: bool)
      requires Valid()
      modifies this
      ensures Valid()
      ensures ok <==> CanRemove(old(Contents()), id)
      ensures Contents() == if ok then Removed(old(Contents()), id) else old(Contents())
    {
      if id !in nodes || claimed == None {
        return false;
      }
      ghost var before := Contents();
      RemovalFits(before, id);
      TakeOut(id);
      SettleRemoval(before, id);
      ok := true;
    }

    method TakeOut(id: string)
      requires CanRemove(Contents(), id) && NodeTokens(nodes[id]) + outside <= MAX_UFIX64
      requires totalTokensStakedByNodeType[nodes[id].role] <= MAX_UFIX64
      modifies this
      ensures Contents() == Removed(old(Contents()), id)
    {
      totalTokensStakedByNodeType, claimed, outside :=
        DestroyRecord(nodes[id], totalTokensStakedByNodeType, claimed.value, outside);
      nodes := nodes - {id};
    }

    ghost method SettleRemoval(before: State, id: string)
      requires Inv(before) && CanRemove(before, id) && Contents() == Removed(before, id)
      ensures Valid()
    {
      InvariantKept(before, Step(RemoveNode(id), true, Contents()));
    }

    method SetClaimedMetadata() returns (ok: bool)
      requires Valid()
      modifies this
      ensures Valid()
      ensures ok <==> old(claimed) == None
      ensures Contents() == if ok then old(Contents()).(claims := Some(LiveClaims(old(nodes)))) else old(Contents())
    {
      // saving over dictionaries that are already in storage aborts
      if claimed != None {
        return false;
      }
      ghost var before := Contents();
      var all := CollectClaims(nodes);
      claimed := Some(all);
      InvariantKept(before, Step(SetClaimed, true, Contents()));
      ok := true;
    }

    // -------------------------------------------------------------- the administrator's epoch

    method StartStakingAuction()
      requires Valid()
      modifies this
      ensures Valid()
      ensures Contents() == old(Contents()).(auction := true)
    {
      stakingEnabled := true;
    }

    method RemoveUnapprovedNodes(approved: set<string>) returns (ok: bool)
      requires Valid()
      modifies this
      ensures Valid()
      ensures ok <==> AllMinimumsKnown(old(Contents()))
      ensures Contents() == if ok then old(Contents()).(nodes := Screen(old(Contents()), approved)) else old(Contents())
    {
      ghost var before := Contents();
      forall id | id in nodes ensures NodeTokens(nodes[id]) <= MAX_UFIX64 {
        NodeWithin(before, id);
      }
      var table;
      ok, table := ScreenTable(nodes, minimumStakeRequired, approved, before);
      if ok {
        nodes := table;
        InvariantKept(before, Step(RemoveUnapproved(approved), true, Contents()));
      }
    }

    method EndStakingAuction(approved: set<string>) returns (ok: bool)
      requires Valid()
      modifies this
      ensures Valid()
      ensures ok <==> AllMinimumsKnown(old(Contents()))
      ensures Contents() == if ok then old(Contents()).(nodes := Screen(old(Contents()), approved), auction := false)
                            else old(Contents())
    {
      ok := RemoveUnapprovedNodes(approved);
      if ok {
        stakingEnabled := false;
      }
    }

    /** Pay the epoch's rewards; the order of visiting nodes and delegators does not matter. */
    method PayEpochRewards() returns (ok: bool)
      requires Valid()
      modifies this
      ensures Valid()
      ensures ok <==> CanPay(old(Contents()))
      ensures Contents() == if ok then AfterPaying(old(Contents())) else old(Contents())
    {
      ghost var before := Contents();
      var total;
      ok, total := TotalStaked(totalTokensStakedByNodeType);
      if !ok || total == 0 {
        return;
      }
      var scale := Over(epochTokenPayout, total);
      if scale > MAX_UFIX64 {
        return false;
      }
      ok := PayAtScale(scale);
      if ok {
        SettleOp(before, PayRewards);
      }
    }

    /** Pay everybody at this scale. */
    method PayAtScale(scale: UFix64) returns (ok: bool)
      requires Valid()
      modifies this
      ensures var s := old(Contents());
              && (ok <==> CutsFit(s.nodes, scale, s.cut)
                          && CanMint(Mint(s.supply, s.allowance), Minted(s.nodes, scale)))
              && Contents() == if ok then s.(nodes := PaidNodes(s.nodes, scale, s.cut),
                                             supply := s.supply + Minted(s.nodes, scale),
                                             allowance := s.allowance - Minted(s.nodes, scale))
                               else s
    {
      AllNodesWithin(Contents());
      var table, m;
      ok, table, m := PayTable(nodes, scale, nodeDelegatingRewardCut, Mint(totalSupply, allowedAmount));
      if ok {
        StorePaid(table, m);
      }
    }

    method StorePaid(table: map<string, NodeRecord>, m: Mint)
      modifies this
      ensures Contents() == old(Contents()).(nodes := table, supply := m.supply, allowance := m.allowance)
    {
      nodes, totalSupply, allowedAmount := table, m.supply, m.allowance;
    }

    ghost method SettleOp(before: State, op: Op)
      requires Inv(before) && Enabled(before, op) && Contents() == Apply(before, op)
      ensures Valid()
    {
      InvariantKept(before, Step(op, true, Contents()));
    }

    /** Move everybody's tokens, visiting nodes and delegators in this order, and open the next auction. It goes
        through exactly if the auction is closed and the role totals have room, on the way and at the end. */
    method MoveEpochTokens(order: Order) returns (ok: bool)
      requires Valid() && OrderOf(order, nodes)
      modifies this
      ensures Valid()
      ensures ok <==> CanMove(old(Contents()), order)
      ensures Contents() == if ok then AfterMoving(old(Contents())) else old(Contents())
    {
      if stakingEnabled {
        return false;
      }
      ghost var before := Contents();
      AllMovable(before);
      var table, totals, total;
      ok, table, totals := MoveTable(nodes, totalTokensStakedByNodeType, order);
      if !ok {
        return;
      }
      TotalsAreMoved(before, totals);
      ok, total := TotalStaked(totals);
      if !ok {
        return;
      }
      nodes, totalTokensStakedByNodeType, stakingEnabled := table, totals, true;
      SettleOp(before, MoveTokens(order));
    }

    // -------------------------------------------------------------- the administrator's settings

    method SetMinimumStakeRequirements(minimums: map<nat, nat>) returns (ok: bool)
      requires Valid()
      modifies this
      ensures Valid()
      ensures ok <==> |minimums| == 5
      ensures Contents() == if ok then old(Contents()).(minimums := minimums) else old(Contents())
    {
      ok := |minimums| == 5;
      if ok {
        minimumStakeRequired := minimums;
      }
    }

    method SetEpochTokenPayout(payout: UFix64)
      requires Valid()
      modifies this
      ensures Valid()
      ensures Contents() == old(Contents()).(payout := payout)
    {
      epochTokenPayout := payout;
    }

    method SetCutPercentage(cut: UFix64) returns (ok: bool)
      requires Valid()
      modifies this
      ensures Valid()
      ensures ok <==> 0 < cut < ONE
      ensures Contents() == if ok then old(Contents()).(cut := cut) else old(Contents())
    {
      ok := 0 < cut < ONE;
      if ok {
        nodeDelegatingRewardCut := cut;
      }
    }
  }

  lemma AllNodesWithin(s: State)
    requires Inv(s)
    ensures forall id <- s.nodes :: NodeTokens(s.nodes[id]) <= s.supply
  {
    OutsideWithin(s);
    forall id | id in s.nodes ensures NodeTokens(s.nodes[id]) <= s.supply {
      NodeWithin(s, id);
    }
  }

  lemma AllMovable(s: State)
    requires Inv(s)
    ensures Movable(s.nodes, s.totals)
  {
    AllNodesWithin(s);
    MoveNeverUnderflows(s);
    RolesKnown(s.nodes);
    forall r | r in ROLES ensures TotalCovers(s.nodes, s.totals, r) {
      assert RoleStaked(s.nodes, r) <= s.totals[r];
    }
  }

  /** The totals that the pass over the table has arrived at are the totals after a move. */
  lemma TotalsAreMoved(s: State, totals: map<nat, nat>)
    requires RequestsCovered(s.nodes) && TotalsSoFar(s.nodes, {}, s.totals, totals)
    ensures TotalsFit(s) && totals == MovedTotals(s)
  {
    assert Done(s.nodes, {}) == s.nodes;
    forall r | r in ROLES ensures totals[r] == MovedTotal(s, r) <= MAX_UFIX64 {
      assert TotalSoFar(s.nodes, {}, s.totals, totals, r);
    }
  }
}
