/** Every transaction on the table as a step: when it goes through, and what it leaves behind.
    A transaction that does not go through aborts and leaves the state as it was. */
module Steps {
  import opened Fixed
  import opened Sums
  import opened Ledger
  import opened Options
  import opened Orders

  /** What a NodeStaker or a NodeDelegator does with its holder's vaults. */
  datatype Action =
    | StakeNew | StakeUnstaked | StakeRewarded
    | RequestUnstaking | UnstakeAll
    | WithdrawUnstaked | WithdrawRewarded

  datatype Op =
    | Register(id: string, role: nat, networkingAddress: string, networkingKey: string, stakingKey: string, amount: nat)
    | RemoveNode(id: string)
    | RegisterDelegator(id: string)
    | Use(who: Who, action: Action, amount: nat)
    | StartAuction
    | EndAuction(approved: set<string>)
    | RemoveUnapproved(approved: set<string>)
    | PayRewards
    | MoveTokens(order: Order)
    | SetMinimums(minimums: map<nat, nat>)
    | SetPayout(payout: UFix64)
    | SetCut(cut: UFix64)
    | SetClaimed

  // ---------------------------------------------------------------- one holder's vaults

  function Min(a: nat, b: nat): nat { if a <= b then a else b }

  /** Staking unstaked tokens first cancels what is requested to unstake, then takes from unstaked. */
  predicate CanRestake(h: Holder, amount: nat) { amount <= h.request + h.unstaked }

  function Restake(h: Holder, amount: nat): Holder
    requires CanRestake(h, amount)
  {
    var taken := amount - Min(amount, h.request);
    h.(request := h.request - Min(amount, h.request),
       unstaked := h.unstaked - taken,
       committed := h.committed + taken)
  }

  /** A request to unstake is served at once from committed; the rest waits for the next move. */
  predicate CanRequest(h: Holder, amount: nat) { amount + h.request <= h.staked + h.committed }

  function Request(h: Holder, amount: nat): Holder
    requires CanRequest(h, amount)
  {
    var atOnce := Min(amount, h.committed);
    h.(committed := h.committed - atOnce,
       unstaked := h.unstaked + atOnce,
       request := h.request + amount - atOnce)
  }

  /** Everything committed is refunded and everything staked is asked to leave. */
  function Expel(h: Holder): Holder {
    h.(committed := 0, unstaked := h.unstaked + h.committed, request := h.staked)
  }

  predicate CanAct(h: Holder, action: Action, amount: nat) {
    match action
    case StakeNew => true
    case StakeUnstaked => CanRestake(h, amount)
    case StakeRewarded => amount <= h.rewarded
    case RequestUnstaking => CanRequest(h, amount)
    case UnstakeAll => true
    case WithdrawUnstaked => amount <= h.unstaked
    case WithdrawRewarded => amount <= h.rewarded
  }

  function Act(h: Holder, action: Action, amount: nat): Holder
    requires CanAct(h, action, amount)
  {
    match action
    case StakeNew => h.(committed := h.committed + amount)
    case StakeUnstaked => Restake(h, amount)
    case StakeRewarded => h.(rewarded := h.rewarded - amount, committed := h.committed + amount)
    case RequestUnstaking => Request(h, amount)
    case UnstakeAll => Expel(h)
    case WithdrawUnstaked => h.(unstaked := h.unstaked - amount)
    case WithdrawRewarded => h.(rewarded := h.rewarded - amount)
  }

  /** Only withdrawing is possible while the auction is closed. */
  predicate NeedsAuction(action: Action) { !action.WithdrawUnstaked? && !action.WithdrawRewarded? }

  /** Tokens an action takes from outside the table, and tokens it hands out. */
  function In(action: Action, amount: nat): nat { if action.StakeNew? then amount else 0 }

  function Out(action: Action, amount: nat): nat {
    if action.WithdrawUnstaked? || action.WithdrawRewarded? then amount else 0
  }

  predicate RequestCovered(h: Holder) { h.request <= h.staked }

  /** The epoch's move: committed becomes staked, requested becomes unstaking, unstaking unstaked. */
  function Move(h: Holder): Holder
    requires RequestCovered(h)
  {
    Holder(0, h.staked + h.committed - h.request, h.request, h.unstaked + h.unstaking, h.rewarded, 0)
  }

  // ---------------------------------------------------------------- nodes

  /** At or above the role's minimum; an access node only has to have something. */
  predicate MeetsMinimum(minimums: map<nat, nat>, amount: nat, role: nat)
    requires role == ACCESS_ROLE || role in minimums
  {
    if role == ACCESS_ROLE then amount > 0 else amount >= minimums[role]
  }

  predicate MinimumKnown(s: State, role: nat) { role == ACCESS_ROLE || role in s.minimums }

  predicate AllMinimumsKnown(s: State) {
    forall id <- s.nodes :: MinimumKnown(s, s.nodes[id].role)
  }

  /** Does the node stay in when the auction closes with this approved list? */
  predicate Stays(s: State, approved: set<string>, id: string)
    requires id in s.nodes && MinimumKnown(s, s.nodes[id].role)
  {
    id in approved && MeetsMinimum(s.minimums, Commitment(s.nodes[id].own), s.nodes[id].role)
  }

  function ExpelNode(n: NodeRecord): NodeRecord {
    n.(own := Expel(n.own),
       delegators := map d | d in n.delegators :: Expel(n.delegators[d]),
       initialWeight := 0)
  }

  function Screen(s: State, approved: set<string>): map<string, NodeRecord>
    requires AllMinimumsKnown(s)
  {
    map id | id in s.nodes ::
      if Stays(s, approved, id) then s.nodes[id].(initialWeight := 100) else ExpelNode(s.nodes[id])
  }

  predicate RequestsCovered(nodes: map<string, NodeRecord>) {
    forall id <- nodes :: NodeRequestsCovered(nodes[id])
  }

  predicate NodeRequestsCovered(n: NodeRecord) {
    RequestCovered(n.own) && forall d <- n.delegators :: RequestCovered(n.delegators[d])
  }

  function MoveNode(n: NodeRecord): NodeRecord
    requires NodeRequestsCovered(n)
  {
    n.(own := Move(n.own), delegators := map d | d in n.delegators :: Move(n.delegators[d]))
  }

  function Moved(nodes: map<string, NodeRecord>): map<string, NodeRecord>
    requires RequestsCovered(nodes)
  {
    map id | id in nodes :: MoveNode(nodes[id])
  }

  /** The role totals after a move: what was committed comes in, what was requested leaves. */
  ghost function MovedTotal(s: State, role: nat): int
    requires role in s.totals
  {
    s.totals[role] + TableSum(s.nodes, {role}, Committed) - TableSum(s.nodes, {role}, Requested)
  }

  ghost predicate TotalsFit(s: State) {
    && s.totals.Keys == ROLES
    && RequestsCovered(s.nodes)
    && forall r <- s.totals :: 0 <= MovedTotal(s, r) <= MAX_UFIX64
  }

  ghost function MovedTotals(s: State): map<nat, nat>
    requires TotalsFit(s)
  {
    map r | r in s.totals :: MovedTotal(s, r)
  }

  /** Enough room in the role totals for a move, whatever the order in which nodes are visited. */
  ghost predicate RoomToMove(s: State) {
    && TotalsFit(s)
    && (forall r <- s.totals :: s.totals[r] + TableSum(s.nodes, {r}, Committed) <= MAX_UFIX64)
    && NetworkTotal(MovedTotals(s)) <= MAX_UFIX64
  }

  // ---------------------------------------------------------------- rewards

  function Reward(h: Holder, scale: nat): nat { Times(h.staked, scale) }

  /** The operator's share of a delegator's reward. */
  function Cut(h: Holder, scale: nat, cut: nat): nat { Times(Reward(h, scale), cut) }

  ghost function RewardOf(scale: nat): Holder -> int { (h: Holder) => Reward(h, scale) }

  ghost function CutOf(scale: nat, cut: nat): Holder -> int { (h: Holder) => Cut(h, scale, cut) }

  /** Nodes that are paid, and whose delegators are: not an access node, and earning something itself. */
  predicate Paid(n: NodeRecord, scale: nat) { n.role != ACCESS_ROLE && Reward(n.own, scale) > 0 }

  predicate CutCovered(h: Holder, scale: nat, cut: nat) { Cut(h, scale, cut) <= Reward(h, scale) }

  predicate CutFits(dels: map<nat, Holder>, scale: nat, cut: nat) {
    forall d <- dels :: CutCovered(dels[d], scale, cut)
  }

  function PayDelegator(h: Holder, scale: nat, cut: nat): Holder
    requires CutCovered(h, scale, cut)
  {
    h.(rewarded := h.rewarded + Reward(h, scale) - Cut(h, scale, cut))
  }

  ghost function OperatorReward(n: NodeRecord, scale: nat, cut: nat): (r: int)
    ensures r >= 0
  {
    SumOverNonNegative(n.delegators, CutOf(scale, cut));
    Reward(n.own, scale) + SumOver(n.delegators, CutOf(scale, cut))
  }

  ghost function PayNode(n: NodeRecord, scale: nat, cut: nat): NodeRecord
    requires Paid(n, scale) ==> CutFits(n.delegators, scale, cut)
  {
    if !Paid(n, scale) then n
    else
      n.(own := n.own.(rewarded := n.own.rewarded + OperatorReward(n, scale, cut)),
         delegators := map d | d in n.delegators :: PayDelegator(n.delegators[d], scale, cut))
  }

  predicate CutsFit(nodes: map<string, NodeRecord>, scale: nat, cut: nat) {
    forall id <- nodes :: Paid(nodes[id], scale) ==> CutFits(nodes[id].delegators, scale, cut)
  }

  ghost function PaidNodes(nodes: map<string, NodeRecord>, scale: nat, cut: nat): map<string, NodeRecord>
    requires CutsFit(nodes, scale, cut)
  {
    map id | id in nodes :: PayNode(nodes[id], scale, cut)
  }

  /** What is minted for a node: gross rewards of the operator and of its delegators. */
  ghost function MintedFor(scale: nat): NodeRecord -> int {
    (n: NodeRecord) =>
      if Paid(n, scale) then Reward(n.own, scale) + SumOver(n.delegators, RewardOf(scale)) else 0
  }

  ghost function Minted(nodes: map<string, NodeRecord>, scale: nat): (r: int)
    ensures r >= 0
  {
    forall id | id in nodes ensures MintedFor(scale)(nodes[id]) >= 0 {
      SumOverNonNegative(nodes[id].delegators, RewardOf(scale));
    }
    SumOverNonNegative(nodes, MintedFor(scale));
    SumOver(nodes, MintedFor(scale))
  }

  function Scale(s: State): nat
    requires s.totals.Keys == ROLES && NetworkTotal(s.totals) > 0
  {
    Over(s.payout, NetworkTotal(s.totals))
  }

  ghost predicate CanPay(s: State) {
    && s.totals.Keys == ROLES
    && NetworkTotal(s.totals) <= MAX_UFIX64
    && (NetworkTotal(s.totals) > 0 ==>
        && Scale(s) <= MAX_UFIX64
        && CutsFit(s.nodes, Scale(s), s.cut)
        && Minted(s.nodes, Scale(s)) <= s.allowance
        && s.supply + Minted(s.nodes, Scale(s)) <= MAX_UFIX64)
  }

  ghost function MintedBy(s: State): (r: int)
    requires s.totals.Keys == ROLES
    ensures r >= 0
  {
    if NetworkTotal(s.totals) == 0 then 0 else Minted(s.nodes, Scale(s))
  }

  // ---------------------------------------------------------------- registration

  predicate ValidInfo(id: string, role: nat, address: string, networkingKey: string, stakingKey: string) {
    && |id| == 64
    && 1 <= role <= 5
    && 0 < |address| <= 510
    && |networkingKey| == 128
    && |stakingKey| == 192
  }

  predicate CanRegister(s: State, op: Op)
    requires op.Register?
  {
    && s.auction
    && ValidInfo(op.id, op.role, op.networkingAddress, op.networkingKey, op.stakingKey)
    && op.id !in s.nodes
    && s.claims.Some?
    && op.networkingAddress !in s.claims.value.networkingAddresses
    && op.networkingKey !in s.claims.value.networkingKeys
    && op.stakingKey !in s.claims.value.stakingKeys
    && op.amount <= s.outside
  }

  predicate CanRegisterDelegator(s: State, id: string) {
    && s.auction
    && id in s.nodes
    && s.nodes[id].role != ACCESS_ROLE
    && MinimumKnown(s, s.nodes[id].role)
    && MeetsMinimum(s.minimums, Commitment(s.nodes[id].own), s.nodes[id].role)
    && s.nodes[id].delegatorIDCounter < MAX_UINT32
    && s.nodes[id].delegatorIDCounter + 1 !in s.nodes[id].delegators
  }

  /** An operator with delegators may not take its own commitment below the minimum. */
  predicate FloorKept(s: State, who: Who, amount: nat)
    requires Exists(s.nodes, who) && CanRequest(Get(s.nodes, who), amount)
  {
    who.Operator? && s.nodes[who.id].delegators != map[] ==>
      && MinimumKnown(s, s.nodes[who.id].role)
      && MeetsMinimum(s.minimums, Commitment(s.nodes[who.id].own) - amount, s.nodes[who.id].role)
  }

  predicate CanUse(s: State, who: Who, action: Action, amount: nat) {
    && (NeedsAuction(action) ==> s.auction)
    && Exists(s.nodes, who)
    && (action.UnstakeAll? ==> who.Operator?)
    && In(action, amount) <= s.outside
    && CanAct(Get(s.nodes, who), action, amount)
    && (action.RequestUnstaking? ==> FloorKept(s, who, amount))
  }

  function AddClaims(c: Claims, n: NodeRecord): Claims {
    Claims(c.networkingAddresses + {n.networkingAddress},
           c.networkingKeys + {n.networkingKey},
           c.stakingKeys + {n.stakingKey})
  }

  function DropClaims(c: Claims, n: NodeRecord): Claims {
    Claims(c.networkingAddresses - {n.networkingAddress},
           c.networkingKeys - {n.networkingKey},
           c.stakingKeys - {n.stakingKey})
  }

  /** The metadata of the nodes that are in the table. */
  function LiveClaims(nodes: map<string, NodeRecord>): Claims {
    Claims(set id | id in nodes :: nodes[id].networkingAddress,
           set id | id in nodes :: nodes[id].networkingKey,
           set id | id in nodes :: nodes[id].stakingKey)
  }

  function NewNode(op: Op): NodeRecord
    requires op.Register?
  {
    NodeRecord(op.role, op.networkingAddress, op.networkingKey, op.stakingKey,
               EMPTY_HOLDER.(committed := op.amount), map[], 0, 0)
  }

  function WithDelegator(n: NodeRecord): NodeRecord {
    n.(delegatorIDCounter := n.delegatorIDCounter + 1,
       delegators := n.delegators[n.delegatorIDCounter + 1 := EMPTY_HOLDER])
  }

  /** Every token of a node and of its delegators. */
  ghost function NodeTokens(n: NodeRecord): (r: int)
    ensures r >= 0
  {
    SumOverNonNegative(n.delegators, Tokens);
    Tokens(n.own) + SumOver(n.delegators, Tokens)
  }

  // ---------------------------------------------------------------- the step relation

  predicate CanRemove(s: State, id: string) {
    && id in s.nodes
    && s.claims.Some?
    && s.nodes[id].role in s.totals
    && s.nodes[id].own.staked <= s.totals[s.nodes[id].role]
  }

  /** The auction is closed and the totals after the move fit. */
  ghost predicate MoveEnds(s: State) {
    !s.auction && TotalsFit(s) && NetworkTotal(MovedTotals(s)) <= MAX_UFIX64
  }

  /** And in this order they fit after every addition on the way. */
  ghost predicate CanMove(s: State, order: Order) {
    && MoveEnds(s)
    && OrderOf(order, s.nodes)
    && RolesIn(s.nodes, s.totals)
    && TableFits(s.nodes, order, s.totals)
  }

  ghost predicate Enabled(s: State, op: Op) {
    match op
    case Register(_, _, _, _, _, _) => CanRegister(s, op)
    case RemoveNode(id) => CanRemove(s, id)
    case RegisterDelegator(id) => CanRegisterDelegator(s, id)
    case Use(who, action, amount) => CanUse(s, who, action, amount)
    case StartAuction => true
    case EndAuction(_) => AllMinimumsKnown(s)
    case RemoveUnapproved(_) => AllMinimumsKnown(s)
    case PayRewards => CanPay(s)
    case MoveTokens(order) => CanMove(s, order)
    case SetMinimums(minimums) => |minimums| == 5
    case SetPayout(_) => true
    case SetCut(cut) => 0 < cut < ONE
    case SetClaimed => s.claims.None?
  }

  function Registered(s: State, op: Op): State
    requires op.Register? && CanRegister(s, op)
  {
    s.(nodes := s.nodes[op.id := NewNode(op)],
       claims := Some(AddClaims(s.claims.value, NewNode(op))),
       outside := s.outside - op.amount)
  }

  /** The removed node's own stake leaves its role's total, and all its tokens go to the contract's account. */
  ghost function Removed(s: State, id: string): State
    requires CanRemove(s, id)
  {
    var n := s.nodes[id];
    s.(nodes := s.nodes - {id},
       claims := Some(DropClaims(s.claims.value, n)),
       totals := s.totals[n.role := s.totals[n.role] - n.own.staked],
       outside := s.outside + NodeTokens(n))
  }

  function Used(s: State, who: Who, action: Action, amount: nat): State
    requires CanUse(s, who, action, amount)
  {
    s.(nodes := Put(s.nodes, who, Act(Get(s.nodes, who), action, amount)),
       outside := s.outside - In(action, amount) + Out(action, amount))
  }

  ghost function AfterPaying(s: State): State
    requires CanPay(s)
  {
    if NetworkTotal(s.totals) == 0 then s
    else
      s.(nodes := PaidNodes(s.nodes, Scale(s), s.cut),
         supply := s.supply + MintedBy(s),
         allowance := s.allowance - MintedBy(s))
  }

  /** It does not depend on the order. */
  ghost function AfterMoving(s: State): State
    requires MoveEnds(s)
  {
    s.(nodes := Moved(s.nodes), totals := MovedTotals(s), auction := true)
  }

  ghost function Apply(s: State, op: Op): State
    requires Enabled(s, op)
  {
    match op
    case Register(_, _, _, _, _, _) => Registered(s, op)
    case RemoveNode(id) => Removed(s, id)
    case RegisterDelegator(id) => s.(nodes := s.nodes[id := WithDelegator(s.nodes[id])])
    case Use(who, action, amount) => Used(s, who, action, amount)
    case StartAuction => s.(auction := true)
    case EndAuction(approved) => s.(nodes := Screen(s, approved), auction := false)
    case RemoveUnapproved(approved) => s.(nodes := Screen(s, approved))
    case PayRewards => AfterPaying(s)
    case MoveTokens(_) => AfterMoving(s)
    case SetMinimums(minimums) => s.(minimums := minimums)
    case SetPayout(payout) => s.(payout := payout)
    case SetCut(cut) => s.(cut := cut)
    case SetClaimed => s.(claims := Some(LiveClaims(s.nodes)))
  }

  /** One attempted transaction: whether it went through, and the state afterwards. */
  datatype Step = Step(op: Op, ok: bool, after: State)

  ghost predicate Next(s: State, step: Step) {
    if step.ok then Enabled(s, step.op) && step.after == Apply(s, step.op) else step.after == s
  }
}
