/** The order in which a move of tokens visits nodes and delegators, and what the role totals must have room
    for on the way: what was committed comes in before anything that was requested goes out. */
module Orders {
  import opened Fixed
  import opened Sums
  import opened Ledger

  /** The keys of the dictionaries in the order in which they are visited. */
  datatype Order = Order(nodes: seq<string>, delegators: map<string, seq<nat>>)

  /** The keys from the i-th on. */
  function Left<K>(order: seq<K>, i: nat): set<K>
    requires i <= |order|
  {
    set k | k in order[i..]
  }

  /** An order that visits every key exactly once. */
  predicate Visits<K(!new)>(order: seq<K>, keys: set<K>) {
    Left(order, 0) == keys && forall i, j | 0 <= i < j < |order| :: order[i] != order[j]
  }

  lemma LeftStep<K(!new)>(order: seq<K>, i: nat, keys: set<K>)
    requires Visits(order, keys) && i < |order|
    ensures order[i] in Left(order, i) && Left(order, i) <= keys
    ensures Left(order, i + 1) == Left(order, i) - {order[i]}
  {
    assert order[i..][0] == order[i];
    assert order[i..] == [order[i]] + order[i + 1..];
    assert order[0..] == order;
  }

  ghost predicate OrderOf(order: Order, nodes: map<string, NodeRecord>) {
    && Visits(order.nodes, nodes.Keys)
    && forall id <- nodes :: id in order.delegators && Visits(order.delegators[id], nodes[id].delegators.Keys)
  }

  // ---------------------------------------------------------------- room on the way

  /** A role's total while these delegators of a node are still to be visited. */
  ghost function DelegatorTotal(dels: map<nat, Holder>, todo: set<nat>, total: int): int {
    total + Sum(dels, todo, Committed) - Sum(dels, todo, Requested)
  }

  /** A role's total when the i-th delegator of a node is visited still has room for what it committed. */
  ghost predicate DelegatorFits(dels: map<nat, Holder>, order: seq<nat>, total: int, i: nat)
    requires i < |order| && order[i] in dels
  {
    DelegatorTotal(dels, Left(order, i), total) + dels[order[i]].committed <= MAX_UFIX64
  }

  ghost predicate DelegatorsFit(dels: map<nat, Holder>, order: seq<nat>, total: int)
    requires Visits(order, dels.Keys)
  {
    forall i: nat | i < |order| :: LeftStep(order, i, dels.Keys); DelegatorFits(dels, order, total, i)
  }

  /** The role's total has room for the node's commitment, and then for its delegators' in their order. */
  ghost predicate NodeFits(n: NodeRecord, order: seq<nat>, total: int)
    requires Visits(order, n.delegators.Keys)
  {
    total + n.own.committed <= MAX_UFIX64 && DelegatorsFit(n.delegators, order, total + n.own.committed)
  }

  /** A role's total while these nodes are still to be visited. */
  ghost function RunningTotal(nodes: map<string, NodeRecord>, todo: set<string>, before: map<nat, nat>, r: nat): int
    requires r in before
  {
    before[r] + Sum(nodes, todo, Measure({r}, Committed)) - Sum(nodes, todo, Measure({r}, Requested))
  }

  predicate RolesIn(nodes: map<string, NodeRecord>, totals: map<nat, nat>) {
    forall id <- nodes :: nodes[id].role in totals
  }

  /** The running total of its role has room for the i-th node that is visited. */
  ghost predicate NodeFitsAt(nodes: map<string, NodeRecord>, order: Order, before: map<nat, nat>, i: nat)
    requires OrderOf(order, nodes) && i < |order.nodes| && order.nodes[i] in nodes
    requires nodes[order.nodes[i]].role in before
  {
    var id := order.nodes[i];
    NodeFits(nodes[id], order.delegators[id], RunningTotal(nodes, Left(order.nodes, i), before, nodes[id].role))
  }

  ghost predicate FirstNodesFit(nodes: map<string, NodeRecord>, order: Order, before: map<nat, nat>, n: nat)
    requires OrderOf(order, nodes) && n <= |order.nodes| && RolesIn(nodes, before)
  {
    forall i: nat {:trigger NodeFitsAt(nodes, order, before, i)} | i < n ::
      LeftStep(order.nodes, i, nodes.Keys); NodeFitsAt(nodes, order, before, i)
  }

  ghost predicate TableFits(nodes: map<string, NodeRecord>, order: Order, before: map<nat, nat>)
    requires OrderOf(order, nodes) && RolesIn(nodes, before)
  {
    FirstNodesFit(nodes, order, before, |order.nodes|)
  }
}
