/** The state of the identity table: who is registered, and where every token is.
    Cadence resources are linear, so a record stored in a dictionary has no second reference;
    a record is therefore a value here, and the table that owns the records is a class
    (module StakingTable) that replaces them in its map fields. */
module Ledger {
  import opened Options
  import opened Sums

  const ACCESS_ROLE: nat := 5
  const ROLES: set<nat> := {1, 2, 3, 4, 5}
  const PAID_ROLES: set<nat> := {1, 2, 3, 4}

  /** The five vaults of a node operator or of a delegator, and the amount requested to unstake. */
  datatype Holder = Holder(
    committed: nat,
    staked: nat,
    unstaking: nat,
    unstaked: nat,
    rewarded: nat,
    request: nat)

  const EMPTY_HOLDER: Holder := Holder(0, 0, 0, 0, 0, 0)

  datatype NodeRecord = NodeRecord(
    role: nat,
    networkingAddress: string,
    networkingKey: string,
    stakingKey: string,
    own: Holder,
    delegators: map<nat, Holder>,
    delegatorIDCounter: nat,
    initialWeight: nat)

  /** The metadata recorded as taken, in the account's storage. */
  datatype Claims = Claims(
    networkingAddresses: set<string>,
    networkingKeys: set<string>,
    stakingKeys: set<string>)

  /** The contract's fields, together with what it can see of FlowToken: the total supply,
      what the minter may still mint, and the tokens held outside the table. */
  datatype State = State(
    nodes: map<string, NodeRecord>,
    minimums: map<nat, nat>,
    totals: map<nat, nat>,
    payout: nat,
    cut: nat,
    auction: bool,
    claims: Option<Claims>,
    supply: nat,
    allowance: nat,
    outside: nat)

  /** A token holder: the operator of a node, or one of the node's delegators. */
  datatype Who = Operator(id: string) | Delegate(id: string, delegator: nat)

  predicate Exists(nodes: map<string, NodeRecord>, who: Who) {
    who.id in nodes && (who.Delegate? ==> who.delegator in nodes[who.id].delegators)
  }

  function Get(nodes: map<string, NodeRecord>, who: Who): Holder
    requires Exists(nodes, who)
  {
    match who
    case Operator(id) => nodes[id].own
    case Delegate(id, d) => nodes[id].delegators[d]
  }

  function PutIn(n: NodeRecord, who: Who, h: Holder): NodeRecord {
    match who
    case Operator(_) => n.(own := h)
    case Delegate(_, d) => n.(delegators := n.delegators[d := h])
  }

  function Put(nodes: map<string, NodeRecord>, who: Who, h: Holder): map<string, NodeRecord>
    requires Exists(nodes, who)
  {
    nodes[who.id := PutIn(nodes[who.id], who, h)]
  }

  // ---------------------------------------------------------------- measures of a holder

  function Tokens(h: Holder): int { h.committed + h.staked + h.unstaking + h.unstaked + h.rewarded }

  function Staked(h: Holder): int { h.staked }

  function Committed(h: Holder): int { h.committed }

  function Requested(h: Holder): int { h.request }

  /** What a holder will have staked after the next move of tokens. */
  function Commitment(h: Holder): nat {
    if h.committed + h.staked < h.request then 0 else h.committed + h.staked - h.request
  }

  // ---------------------------------------------------------------- measures of the table

  /** A node's own part and its delegators' parts; nothing for a node whose role is not in roles. */
  ghost function Measure(roles: set<nat>, f: Holder -> int): NodeRecord -> int {
    (n: NodeRecord) => if n.role in roles then f(n.own) + SumOver(n.delegators, f) else 0
  }

  ghost function TableSum(nodes: map<string, NodeRecord>, roles: set<nat>, f: Holder -> int): int {
    SumOver(nodes, Measure(roles, f))
  }

  /** All tokens in all vaults of the table. */
  ghost function TableTokens(nodes: map<string, NodeRecord>): int {
    TableSum(nodes, ROLES, Tokens)
  }

  /** What the nodes of one role and their delegators really have staked. */
  ghost function RoleStaked(nodes: map<string, NodeRecord>, role: nat): int {
    TableSum(nodes, {role}, Staked)
  }

  /** What the contract believes is staked by all roles but access nodes. */
  function NetworkTotal(totals: map<nat, nat>): nat
    requires totals.Keys == ROLES
  {
    totals[1] + totals[2] + totals[3] + totals[4]
  }

  /** Replacing one holder's vaults changes every measure of the table by the difference. */
  lemma PutSum(nodes: map<string, NodeRecord>, who: Who, h: Holder, roles: set<nat>, f: Holder -> int)
    requires Exists(nodes, who)
    ensures TableSum(Put(nodes, who, h), roles, f)
         == TableSum(nodes, roles, f)
            + if nodes[who.id].role in roles then f(h) - f(Get(nodes, who)) else 0
  {
    var n := nodes[who.id];
    SumOverUpdate(nodes, who.id, PutIn(n, who, h), Measure(roles, f));
    if who.Delegate? {
      SumOverUpdate(n.delegators, who.delegator, h, f);
    }
  }

  /** The same nodes, with the same roles and the same delegators. */
  predicate Aligned(nodes: map<string, NodeRecord>, other: map<string, NodeRecord>) {
    && nodes.Keys == other.Keys
    && forall id <- nodes :: nodes[id].role == other[id].role && nodes[id].delegators.Keys == other[id].delegators.Keys
  }

  /** Tables whose holders add up one by one add up as wholes. */
  lemma TableAdd(nodes: map<string, NodeRecord>, f: Holder -> int, nodes1: map<string, NodeRecord>, f1: Holder -> int,
                 nodes2: map<string, NodeRecord>, f2: Holder -> int, roles: set<nat>)
    requires Aligned(nodes, nodes1) && Aligned(nodes, nodes2)
    requires forall who :: Exists(nodes, who) ==> f(Get(nodes, who)) == f1(Get(nodes1, who)) + f2(Get(nodes2, who))
    ensures TableSum(nodes, roles, f) == TableSum(nodes1, roles, f1) + TableSum(nodes2, roles, f2)
  {
    forall id | id in nodes
      ensures Measure(roles, f)(nodes[id]) == Measure(roles, f1)(nodes1[id]) + Measure(roles, f2)(nodes2[id])
    {
      assert Exists(nodes, Operator(id));
      forall d | d in nodes[id].delegators
        ensures f(nodes[id].delegators[d]) == f1(nodes1[id].delegators[d]) + f2(nodes2[id].delegators[d])
      {
        assert Exists(nodes, Delegate(id, d));
      }
      SumOverAdd(nodes[id].delegators, f, nodes1[id].delegators, f1, nodes2[id].delegators, f2);
    }
    SumOverAdd(nodes, Measure(roles, f), nodes1, Measure(roles, f1), nodes2, Measure(roles, f2));
  }

  /** Tables whose holders have the same measure one by one have the same measure as wholes. */
  lemma TableSame(nodes: map<string, NodeRecord>, f: Holder -> int, other: map<string, NodeRecord>, g: Holder -> int,
                  roles: set<nat>)
    requires Aligned(nodes, other)
    requires forall who :: Exists(nodes, who) ==> f(Get(nodes, who)) == g(Get(other, who))
    ensures TableSum(nodes, roles, f) == TableSum(other, roles, g)
  {
    var zero := (h: Holder) => 0;
    TableAdd(nodes, f, other, g, nodes, zero, roles);
    TableAdd(nodes, zero, nodes, zero, nodes, zero, roles);
  }

  /** A measure over the four paid roles is the sum of the measures over each of them. */
  lemma {:induction false} PaidRolesSplit(nodes: map<string, NodeRecord>, f: Holder -> int)
    ensures TableSum(nodes, PAID_ROLES, f)
         == TableSum(nodes, {1}, f) + TableSum(nodes, {2}, f) + TableSum(nodes, {3}, f) + TableSum(nodes, {4}, f)
  {
    SumOverAdd(nodes, Measure({1, 2}, f), nodes, Measure({1}, f), nodes, Measure({2}, f));
    SumOverAdd(nodes, Measure({3, 4}, f), nodes, Measure({3}, f), nodes, Measure({4}, f));
    SumOverAdd(nodes, Measure(PAID_ROLES, f), nodes, Measure({1, 2}, f), nodes, Measure({3, 4}, f));
  }

  /** What is non-negative on holders is non-negative on nodes, and no node exceeds the table. */
  lemma NodeAtMostTable(nodes: map<string, NodeRecord>, id: string, roles: set<nat>, f: Holder -> int)
    requires id in nodes && forall h :: 0 <= f(h)
    ensures 0 <= Measure(roles, f)(nodes[id]) <= TableSum(nodes, roles, f)
    ensures 0 <= SumOver(nodes[id].delegators, f)
  {
    forall other | other in nodes ensures 0 <= Measure(roles, f)(nodes[other]) {
      SumOverNonNegative(nodes[other].delegators, f);
    }
    SumOverNonNegative(nodes, Measure(roles, f));
    SumOverNonNegative(nodes[id].delegators, f);
  }

  /** A measure that is non-negative on holders is monotone in the set of roles. */
  lemma MeasureMono(nodes: map<string, NodeRecord>, roles: set<nat>, more: set<nat>, f: Holder -> int, g: Holder -> int)
    requires roles <= more
    requires forall h :: 0 <= f(h) <= g(h)
    ensures 0 <= TableSum(nodes, roles, f) <= TableSum(nodes, more, g)
  {
    forall id | id in nodes
      ensures 0 <= Measure(roles, f)(nodes[id]) <= Measure(more, g)(nodes[id])
    {
      SumOverNonNegative(nodes[id].delegators, f);
      SumOverAtMost(nodes[id].delegators, f, nodes[id].delegators, g);
    }
    SumOverNonNegative(nodes, Measure(roles, f));
    SumOverAtMost(nodes, Measure(roles, f), nodes, Measure(more, g));
  }
}
