/** What every step keeps: the invariant of the table, the flow of tokens and the drift of the totals. */
module Invariants {
  import opened Fixed
  import opened Sums
  import opened Ledger
  import opened Steps

  predicate NodeOk(id: string, n: NodeRecord) {
    && ValidInfo(id, n.role, n.networkingAddress, n.networkingKey, n.stakingKey)
    && NodeRequestsCovered(n)
    && (n.role == ACCESS_ROLE ==> n.delegators == map[])
    && n.delegatorIDCounter <= MAX_UINT32
    && forall d <- n.delegators :: 1 <= d <= n.delegatorIDCounter
  }

  predicate NodesOk(nodes: map<string, NodeRecord>) {
    forall id <- nodes :: NodeOk(id, nodes[id])
  }

  predicate DistinctMetadata(nodes: map<string, NodeRecord>) {
    forall i, j | i in nodes && j in nodes && i != j ::
      && nodes[i].networkingAddress != nodes[j].networkingAddress
      && nodes[i].networkingKey != nodes[j].networkingKey
      && nodes[i].stakingKey != nodes[j].stakingKey
  }

  ghost predicate Inv(s: State) {
    && NodesOk(s.nodes)
    && InvClaims(s)
    && InvTotals(s)
    && InvTokens(s)
  }

  /** Once the claimed metadata is recorded it is exactly the live nodes' metadata. */
  ghost predicate InvClaims(s: State) {
    && DistinctMetadata(s.nodes)
    && (s.claims.Some? ==> s.claims.value == LiveClaims(s.nodes))
  }

  /** The totals never fall short of what is really staked. */
  ghost predicate InvTotals(s: State) {
    && s.totals.Keys == ROLES
    && forall r <- s.totals :: RoleStaked(s.nodes, r) <= s.totals[r] <= MAX_UFIX64
  }

  /** The table and the outside hold the whole supply. */
  ghost predicate InvTokens(s: State) {
    && s.supply == TableTokens(s.nodes) + s.outside
    && s.supply <= MAX_UFIX64
    && s.allowance <= MAX_UFIX64
    && s.payout <= MAX_UFIX64
    && s.cut <= MAX_UFIX64
  }

  predicate SameMetadata(nodes: map<string, NodeRecord>, other: map<string, NodeRecord>) {
    && nodes.Keys == other.Keys
    && forall id <- nodes ::
        && nodes[id].networkingAddress == other[id].networkingAddress
        && nodes[id].networkingKey == other[id].networkingKey
        && nodes[id].stakingKey == other[id].stakingKey
  }

  // ---------------------------------------------------------------- effects on the sums of the table

  lemma RegisterEffect(s: State, op: Op, roles: set<nat>, f: Holder -> int)
    requires op.Register? && Enabled(s, op)
    ensures TableSum(Apply(s, op).nodes, roles, f)
         == TableSum(s.nodes, roles, f) + if op.role in roles then f(EMPTY_HOLDER.(committed := op.amount)) else 0
  {
    SumOverUpdate(s.nodes, op.id, NewNode(op), Measure(roles, f));
  }

  lemma RemoveEffect(s: State, id: string, roles: set<nat>, f: Holder -> int)
    requires Enabled(s, RemoveNode(id))
    ensures TableSum(Apply(s, RemoveNode(id)).nodes, roles, f)
         == TableSum(s.nodes, roles, f) - Measure(roles, f)(s.nodes[id])
  {
    SumOverRemove(s.nodes, id, Measure(roles, f));
  }

  lemma DelegatorEffect(s: State, id: string, roles: set<nat>, f: Holder -> int)
    requires Enabled(s, RegisterDelegator(id)) && f(EMPTY_HOLDER) == 0
    ensures TableSum(Apply(s, RegisterDelegator(id)).nodes, roles, f) == TableSum(s.nodes, roles, f)
  {
    var n := s.nodes[id];
    NewDelegatorMeasure(n, roles, f);
    SumOverUpdate(s.nodes, id, WithDelegator(n), Measure(roles, f));
  }

  lemma NewDelegatorMeasure(n: NodeRecord, roles: set<nat>, f: Holder -> int)
    requires n.delegatorIDCounter + 1 !in n.delegators && f(EMPTY_HOLDER) == 0
    ensures Measure(roles, f)(WithDelegator(n)) == Measure(roles, f)(n)
  {
    var next: nat := n.delegatorIDCounter + 1;
    SumOverUpdate(n.delegators, next, EMPTY_HOLDER, f);
    assert WithDelegator(n).delegators == n.delegators[next := EMPTY_HOLDER];
  }

  /** Whatever a holder does: tokens only enter or leave as stated, nothing staked or unstaking moves,
      and no more than what is staked is ever requested. */
  lemma ActEffect(h: Holder, action: Action, amount: nat)
    requires CanAct(h, action, amount) && h.request <= h.staked
    ensures var after := Act(h, action, amount);
            && Tokens(after) == Tokens(h) + In(action, amount) - Out(action, amount)
            && after.staked == h.staked && after.unstaking == h.unstaking
            && after.request <= after.staked
  {
  }

  lemma UseEffect(s: State, who: Who, action: Action, amount: nat, roles: set<nat>, f: Holder -> int)
    requires Enabled(s, Use(who, action, amount))
    ensures TableSum(Apply(s, Use(who, action, amount)).nodes, roles, f)
         == TableSum(s.nodes, roles, f)
            + if s.nodes[who.id].role in roles then
                f(Act(Get(s.nodes, who), action, amount)) - f(Get(s.nodes, who))
              else 0
  {
    PutSum(s.nodes, who, Act(Get(s.nodes, who), action, amount), roles, f);
  }

  lemma ScreenAligned(s: State, approved: set<string>)
    requires AllMinimumsKnown(s)
    ensures Aligned(s.nodes, Screen(s, approved)) && SameMetadata(s.nodes, Screen(s, approved))
    ensures forall who :: Exists(s.nodes, who) ==>
              (Get(Screen(s, approved), who) ==
               if Stays(s, approved, who.id) then Get(s.nodes, who) else Expel(Get(s.nodes, who)))
  {
  }

  lemma ScreenEffect(s: State, approved: set<string>, roles: set<nat>, f: Holder -> int)
    requires AllMinimumsKnown(s) && forall h :: f(Expel(h)) == f(h)
    ensures TableSum(Screen(s, approved), roles, f) == TableSum(s.nodes, roles, f)
  {
    ScreenAligned(s, approved);
    TableSame(s.nodes, f, Screen(s, approved), f, roles);
  }

  lemma MovedAligned(nodes: map<string, NodeRecord>)
    requires RequestsCovered(nodes)
    ensures Aligned(nodes, Moved(nodes)) && SameMetadata(nodes, Moved(nodes))
    ensures forall who :: Exists(nodes, who) ==> Get(Moved(nodes), who) == Move(Get(nodes, who))
  {
  }

  /** A move keeps every token, and changes what is staked by what was committed and requested. */
  lemma MoveEffect(nodes: map<string, NodeRecord>, roles: set<nat>)
    requires RequestsCovered(nodes)
    ensures TableSum(Moved(nodes), roles, Tokens) == TableSum(nodes, roles, Tokens)
    ensures TableSum(Moved(nodes), roles, Staked)
         == TableSum(nodes, roles, Staked) + TableSum(nodes, roles, Committed) - TableSum(nodes, roles, Requested)
  {
    MovedAligned(nodes);
    TableSame(nodes, Tokens, Moved(nodes), Tokens, roles);
    var both := (h: Holder) => Staked(h) + Committed(h);
    TableAdd(nodes, both, nodes, Staked, nodes, Committed, roles);
    TableAdd(nodes, both, Moved(nodes), Staked, nodes, Requested, roles);
  }

  lemma PaidAligned(nodes: map<string, NodeRecord>, scale: nat, cut: nat)
    requires CutsFit(nodes, scale, cut)
    ensures Aligned(nodes, PaidNodes(nodes, scale, cut)) && SameMetadata(nodes, PaidNodes(nodes, scale, cut))
    ensures forall who :: Exists(nodes, who) ==>
              var paid := Get(PaidNodes(nodes, scale, cut), who);
              paid == Get(nodes, who).(rewarded := paid.rewarded)
  {
  }

  /** The operator's share and the delegators' shares are the gross rewards, to the last unit. */
  lemma PayNodeSplits(n: NodeRecord, scale: nat, cut: nat)
    requires Paid(n, scale) && CutFits(n.delegators, scale, cut)
    ensures NodeTokens(PayNode(n, scale, cut)) == NodeTokens(n) + MintedFor(scale)(n)
  {
    var paid := PayNode(n, scale, cut).delegators;
    var both := (h: Holder) => Tokens(h) + Reward(h, scale);
    SumOverAdd(n.delegators, both, n.delegators, Tokens, n.delegators, RewardOf(scale));
    SumOverAdd(n.delegators, both, paid, Tokens, n.delegators, CutOf(scale, cut));
  }

  /** Paying rewards adds exactly what is minted to the table and leaves everything staked as it is. */
  lemma PayEffect(nodes: map<string, NodeRecord>, scale: nat, cut: nat)
    requires CutsFit(nodes, scale, cut) && NodesOk(nodes)
    ensures TableTokens(PaidNodes(nodes, scale, cut)) == TableTokens(nodes) + Minted(nodes, scale)
    ensures forall roles :: TableSum(PaidNodes(nodes, scale, cut), roles, Staked) == TableSum(nodes, roles, Staked)
  {
    var all, paid := Measure(ROLES, Tokens), PaidNodes(nodes, scale, cut);
    forall id | id in nodes ensures all(paid[id]) == all(nodes[id]) + MintedFor(scale)(nodes[id]) {
      PayNodeEffect(id, nodes[id], scale, cut);
    }
    SumOverAdd(paid, all, nodes, all, nodes, MintedFor(scale));
    PaidAligned(nodes, scale, cut);
    forall roles ensures TableSum(paid, roles, Staked) == TableSum(nodes, roles, Staked) {
      TableSame(nodes, Staked, paid, Staked, roles);
    }
  }

  lemma PayNodeEffect(id: string, n: NodeRecord, scale: nat, cut: nat)
    requires NodeOk(id, n) && (Paid(n, scale) ==> CutFits(n.delegators, scale, cut))
    ensures Measure(ROLES, Tokens)(PayNode(n, scale, cut)) == Measure(ROLES, Tokens)(n) + MintedFor(scale)(n)
  {
    if Paid(n, scale) {
      PayNodeSplits(n, scale, cut);
    }
  }

  // ---------------------------------------------------------------- flow of tokens

  /** Tokens an operation brings into the table from outside. */
  function Deposited(op: Op): nat {
    match op
    case Register(_, _, _, _, _, amount) => amount
    case Use(_, action, amount) => In(action, amount)
    case _ => 0
  }

  /** Tokens an operation lets out of the table to their owner. */
  function Withdrawn(op: Op): nat {
    match op
    case Use(_, action, amount) => Out(action, amount)
    case _ => 0
  }

  /** Tokens of a removed node and its delegators, which go to the contract's account. */
  ghost function Refunded(s: State, op: Op): (r: int)
    ensures r >= 0
  {
    if op.RemoveNode? && op.id in s.nodes then NodeTokens(s.nodes[op.id]) else 0
  }

  ghost function MintedIn(s: State, op: Op): (r: int)
    ensures r >= 0
  {
    if op.PayRewards? && s.totals.Keys == ROLES then MintedBy(s) else 0
  }

  /** Conservation: what comes in, what is minted, what goes out, and nothing else. */
  lemma Conserves(s: State, op: Op)
    requires Enabled(s, op) && NodesOk(s.nodes)
    ensures TableTokens(Apply(s, op).nodes)
         == TableTokens(s.nodes) + Deposited(op) + MintedIn(s, op) - Withdrawn(op) - Refunded(s, op)
  {
    match op {
      case Register(_, _, _, _, _, _) => RegisterConserves(s, op);
      case RemoveNode(id) => RemoveConserves(s, id);
      case Use(who, action, amount) => UseConserves(s, who, action, amount);
      case PayRewards => PayConserves(s);
      case _ => RearrangeConserves(s, op);
    }
  }

  lemma RegisterConserves(s: State, op: Op)
    requires op.Register? && Enabled(s, op)
    ensures TableTokens(Apply(s, op).nodes) == TableTokens(s.nodes) + Deposited(op)
  {
    RegisterEffect(s, op, ROLES, Tokens);
    assert Tokens(EMPTY_HOLDER.(committed := op.amount)) == op.amount;
  }

  lemma RemoveConserves(s: State, id: string)
    requires Enabled(s, RemoveNode(id)) && NodesOk(s.nodes)
    ensures TableTokens(Apply(s, RemoveNode(id)).nodes) == TableTokens(s.nodes) - Refunded(s, RemoveNode(id))
  {
    RemoveEffect(s, id, ROLES, Tokens);
    assert NodeOk(id, s.nodes[id]);
  }

  lemma UseConserves(s: State, who: Who, action: Action, amount: nat)
    requires Enabled(s, Use(who, action, amount)) && NodesOk(s.nodes)
    ensures TableTokens(Apply(s, Use(who, action, amount)).nodes)
         == TableTokens(s.nodes) + In(action, amount) - Out(action, amount)
  {
    UseEffect(s, who, action, amount, ROLES, Tokens);
    assert NodeOk(who.id, s.nodes[who.id]);
    ActEffect(Get(s.nodes, who), action, amount);
  }

  lemma PayConserves(s: State)
    requires Enabled(s, PayRewards) && NodesOk(s.nodes)
    ensures TableTokens(Apply(s, PayRewards).nodes) == TableTokens(s.nodes) + MintedIn(s, PayRewards)
  {
    if NetworkTotal(s.totals) > 0 {
      PayEffect(s.nodes, Scale(s), s.cut);
    }
  }

  lemma RearrangeConserves(s: State, op: Op)
    requires Enabled(s, op) && NodesOk(s.nodes)
    requires !op.Register? && !op.RemoveNode? && !op.Use? && !op.PayRewards?
    ensures TableTokens(Apply(s, op).nodes) == TableTokens(s.nodes)
  {
    match op {
      case RegisterDelegator(id) => DelegatorEffect(s, id, ROLES, Tokens);
      case EndAuction(approved) => ScreenEffect(s, approved, ROLES, Tokens);
      case RemoveUnapproved(approved) => ScreenEffect(s, approved, ROLES, Tokens);
      case MoveTokens(_) => MoveEffect(s.nodes, ROLES);
      case _ =>
    }
  }

  /** What leaves the table is held outside; only paying rewards changes the supply. */
  lemma OutsideFollows(s: State, op: Op)
    requires Enabled(s, op)
    ensures Apply(s, op).supply == s.supply + MintedIn(s, op)
    ensures Apply(s, op).outside == s.outside - Deposited(op) + Withdrawn(op) + Refunded(s, op)
  {
  }

  // ---------------------------------------------------------------- totals

  /** By how much a role's total exceeds what is really staked in that role. */
  ghost function Drift(s: State, role: nat): int
    requires role in s.totals
  {
    s.totals[role] - RoleStaked(s.nodes, role)
  }

  /** What a removal takes out of a role without taking it out of the role's total:
      the stake of the removed node's delegators. */
  ghost function Orphaned(s: State, op: Op, role: nat): (r: int)
    ensures r >= 0
  {
    if op.RemoveNode? && op.id in s.nodes && s.nodes[op.id].role == role then
      SumOverNonNegative(s.nodes[op.id].delegators, Staked);
      SumOver(s.nodes[op.id].delegators, Staked)
    else 0
  }

  lemma RemovalDrift(s: State, id: string, r: nat)
    requires Enabled(s, RemoveNode(id)) && r in s.totals
    ensures Drift(Apply(s, RemoveNode(id)), r) == Drift(s, r) + Orphaned(s, RemoveNode(id), r)
  {
    RemoveEffect(s, id, {r}, Staked);
    assert Staked(s.nodes[id].own) == s.nodes[id].own.staked;
  }

  /** Removing a node is the only operation that makes a role's total drift from the truth,
      and it does so by exactly its delegators' stake. */
  lemma DriftOnlyByRemoval(s: State, op: Op, r: nat)
    requires Enabled(s, op) && NodesOk(s.nodes) && r in s.totals
    ensures r in Apply(s, op).totals
    ensures Drift(Apply(s, op), r) == Drift(s, r) + Orphaned(s, op, r)
  {
    match op {
      case Register(_, _, _, _, _, _) => RegisterEffect(s, op, {r}, Staked);
      case RemoveNode(id) => RemovalDrift(s, id, r);
      case RegisterDelegator(id) => DelegatorEffect(s, id, {r}, Staked);
      case Use(who, action, amount) =>
        UseEffect(s, who, action, amount, {r}, Staked);
        assert NodeOk(who.id, s.nodes[who.id]);
        ActEffect(Get(s.nodes, who), action, amount);
      case EndAuction(approved) => ScreenEffect(s, approved, {r}, Staked);
      case RemoveUnapproved(approved) => ScreenEffect(s, approved, {r}, Staked);
      case PayRewards => if NetworkTotal(s.totals) > 0 { PayEffect(s.nodes, Scale(s), s.cut); }
      case MoveTokens(_) => MoveEffect(s.nodes, {r});
      case _ =>
    }
  }

  // ---------------------------------------------------------------- the invariant

  lemma NodesStayOk(s: State, op: Op)
    requires Enabled(s, op) && NodesOk(s.nodes)
    ensures NodesOk(Apply(s, op).nodes)
  {
    forall id | id in Apply(s, op).nodes
      ensures NodeOk(id, Apply(s, op).nodes[id])
    {
      if id in s.nodes {
        assert NodeOk(id, s.nodes[id]);
        NodeStaysOk(s, op, id);
      }
    }
  }

  lemma NodeStaysOk(s: State, op: Op, id: string)
    requires Enabled(s, op) && id in s.nodes && NodeOk(id, s.nodes[id]) && id in Apply(s, op).nodes
    ensures NodeOk(id, Apply(s, op).nodes[id])
  {
    var n := s.nodes[id];
    match op {
      case RegisterDelegator(changed) => if changed == id { WithDelegatorOk(id, n); }
      case Use(who, action, amount) => UseNodeOk(s, who, action, amount, id);
      case EndAuction(_) => ScreenedOk(id, n);
      case RemoveUnapproved(_) => ScreenedOk(id, n);
      case PayRewards => if NetworkTotal(s.totals) > 0 { PayNodeOk(id, n, Scale(s), s.cut); }
      case MoveTokens(_) => MoveNodeOk(id, n);
      case _ =>
    }
  }

  lemma MoveNodeOk(id: string, n: NodeRecord)
    requires NodeOk(id, n)
    ensures NodeOk(id, MoveNode(n))
  {
  }

  lemma UseNodeOk(s: State, who: Who, action: Action, amount: nat, id: string)
    requires Enabled(s, Use(who, action, amount)) && id in s.nodes && NodeOk(id, s.nodes[id])
    ensures NodeOk(id, Apply(s, Use(who, action, amount)).nodes[id])
  {
    if who.id == id {
      ActEffect(Get(s.nodes, who), action, amount);
      PutInOk(id, s.nodes[id], who, Act(Get(s.nodes, who), action, amount));
    }
  }

  lemma WithDelegatorOk(id: string, n: NodeRecord)
    requires NodeOk(id, n) && n.role != ACCESS_ROLE && n.delegatorIDCounter < MAX_UINT32
    ensures NodeOk(id, WithDelegator(n))
  {
  }

  lemma PutInOk(id: string, n: NodeRecord, who: Who, h: Holder)
    requires NodeOk(id, n) && h.request <= h.staked
    requires who.Delegate? ==> who.delegator in n.delegators
    ensures NodeOk(id, PutIn(n, who, h))
  {
  }

  lemma ScreenedOk(id: string, n: NodeRecord)
    requires NodeOk(id, n)
    ensures NodeOk(id, ExpelNode(n)) && NodeOk(id, n.(initialWeight := 100))
  {
  }

  lemma PayNodeOk(id: string, n: NodeRecord, scale: nat, cut: nat)
    requires NodeOk(id, n) && (Paid(n, scale) ==> CutFits(n.delegators, scale, cut))
    ensures NodeOk(id, PayNode(n, scale, cut))
  {
  }

  lemma MetadataOnlyByRegistration(s: State, op: Op)
    requires Enabled(s, op) && !op.Register? && !op.RemoveNode?
    ensures SameMetadata(s.nodes, Apply(s, op).nodes)
  {
    match op {
      case EndAuction(approved) => ScreenAligned(s, approved);
      case RemoveUnapproved(approved) => ScreenAligned(s, approved);
      case PayRewards => if NetworkTotal(s.totals) > 0 { PaidAligned(s.nodes, Scale(s), s.cut); }
      case MoveTokens(_) => MovedAligned(s.nodes);
      case _ =>
    }
  }

  lemma RegisterClaims(nodes: map<string, NodeRecord>, id: string, n: NodeRecord)
    requires DistinctMetadata(nodes) && id !in nodes
    requires n.networkingAddress !in LiveClaims(nodes).networkingAddresses
    requires n.networkingKey !in LiveClaims(nodes).networkingKeys
    requires n.stakingKey !in LiveClaims(nodes).stakingKeys
    ensures DistinctMetadata(nodes[id := n])
    ensures LiveClaims(nodes[id := n]) == AddClaims(LiveClaims(nodes), n)
  {
    var more := nodes[id := n];
    assert more.Keys == nodes.Keys + {id};
    assert LiveClaims(more).networkingAddresses == LiveClaims(nodes).networkingAddresses + {more[id].networkingAddress};
    assert LiveClaims(more).networkingKeys == LiveClaims(nodes).networkingKeys + {more[id].networkingKey};
    assert LiveClaims(more).stakingKeys == LiveClaims(nodes).stakingKeys + {more[id].stakingKey};
  }

  lemma RemoveClaims(nodes: map<string, NodeRecord>, id: string)
    requires DistinctMetadata(nodes) && id in nodes
    ensures DistinctMetadata(nodes - {id})
    ensures LiveClaims(nodes - {id}) == DropClaims(LiveClaims(nodes), nodes[id])
  {
    assert nodes == (nodes - {id})[id := nodes[id]];
    RegisterClaims(nodes - {id}, id, nodes[id]);
  }

  /** Claimed metadata follows registration, removal and rebuilding. */
  lemma ClaimsStayExact(s: State, op: Op)
    requires Enabled(s, op) && InvClaims(s)
    ensures InvClaims(Apply(s, op))
  {
    match op {
      case Register(id, _, _, _, _, _) => RegisterClaims(s.nodes, id, NewNode(op));
      case RemoveNode(id) => RemoveClaims(s.nodes, id);
      case _ =>
        MetadataOnlyByRegistration(s, op);
        SameClaims(s.nodes, Apply(s, op).nodes);
    }
  }

  lemma SameClaims(nodes: map<string, NodeRecord>, other: map<string, NodeRecord>)
    requires SameMetadata(nodes, other)
    ensures LiveClaims(nodes) == LiveClaims(other)
    ensures DistinctMetadata(nodes) ==> DistinctMetadata(other)
  {
  }

  lemma TotalsStayAbove(s: State, op: Op)
    requires Enabled(s, op) && Inv(s)
    ensures InvTotals(Apply(s, op))
  {
    forall r | r in s.totals
      ensures r in Apply(s, op).totals && RoleStaked(Apply(s, op).nodes, r) <= Apply(s, op).totals[r]
    {
      DriftOnlyByRemoval(s, op, r);
      assert RoleStaked(s.nodes, r) <= s.totals[r];
    }
  }

  lemma TokensStay(s: State, op: Op)
    requires Enabled(s, op) && NodesOk(s.nodes) && InvTokens(s)
    ensures InvTokens(Apply(s, op))
  {
    Conserves(s, op);
    OutsideFollows(s, op);
    SettingsStay(s, op);
  }

  /** The supply stays within what was allowed, and the settings within UFix64. */
  lemma SettingsStay(s: State, op: Op)
    requires Enabled(s, op) && InvTokens(s)
    ensures var t := Apply(s, op);
            t.supply <= MAX_UFIX64 && t.allowance <= MAX_UFIX64 && t.payout <= MAX_UFIX64 && t.cut <= MAX_UFIX64
  {
  }

  /** The invariant is kept by every step. */
  lemma InvariantKept(s: State, step: Step)
    requires Next(s, step) && Inv(s)
    ensures Inv(step.after)
  {
    if step.ok {
      NodesStayOk(s, step.op);
      ClaimsStayExact(s, step.op);
      TotalsStayAbove(s, step.op);
      TokensStay(s, step.op);
    }
  }
}
