/** When moving the epoch's tokens goes through: what an order of visiting nodes and delegators must leave
    room for on the way, and when the stakes after a move fit at all. */
module Moving {
  import opened Fixed
  import opened Sums
  import opened Ledger
  import opened Orders
  import opened Steps
  import opened Invariants

  // ---------------------------------------------------------------- running totals

  /** What one more delegator adds to a role's total and takes from it, against the delegators' sums. */
  lemma DelegatorMoves(dels: map<nat, Holder>, todo: set<nat>, d: nat)
    requires d in todo && todo <= dels.Keys
    requires forall k <- dels :: dels[k].request <= dels[k].staked
    ensures Sum(dels, todo - {d}, Committed) == Sum(dels, todo, Committed) + dels[d].committed
    ensures Sum(dels, todo - {d}, Requested) == Sum(dels, todo, Requested) + dels[d].request
    ensures 0 <= Sum(dels, todo, Committed) && Sum(dels, todo - {d}, Committed) <= SumOver(dels, Committed)
    ensures 0 <= Sum(dels, todo, Requested) && Sum(dels, todo - {d}, Requested) <= SumOver(dels, Requested)
  {
    DoneStep(dels, todo, d, Committed);
    DoneStep(dels, todo, d, Requested);
    assert Committed(dels[d]) == dels[d].committed && Requested(dels[d]) == dels[d].request;
    DoneAtMost(dels, todo - {d}, Committed);
    DoneAtMost(dels, todo - {d}, Requested);
    SumOverNonNegative(Done(dels, todo), Committed);
    SumOverNonNegative(Done(dels, todo), Requested);
  }

  lemma NextDelegatorTotal(dels: map<nat, Holder>, order: seq<nat>, i: nat, total: int)
    requires Visits(order, dels.Keys) && i < |order| && order[i] in dels
    requires forall d <- dels :: dels[d].request <= dels[d].staked
    ensures DelegatorTotal(dels, Left(order, i + 1), total)
         == DelegatorTotal(dels, Left(order, i), total) + dels[order[i]].committed - dels[order[i]].request
    ensures DelegatorTotal(dels, Left(order, i + 1), total) >= total - SumOver(dels, Requested)
  {
    LeftStep(order, i, dels.Keys);
    DelegatorMoves(dels, Left(order, i), order[i]);
  }

  /** What one more node adds to a role's total and takes from it, against the sums over the table. */
  lemma NodeMoves(nodes: map<string, NodeRecord>, todo: set<string>, id: string, r: nat)
    requires id in todo && todo <= nodes.Keys && RequestsCovered(nodes)
    ensures Sum(nodes, todo - {id}, Measure({r}, Committed))
         == Sum(nodes, todo, Measure({r}, Committed)) + Measure({r}, Committed)(nodes[id])
    ensures Sum(nodes, todo - {id}, Measure({r}, Requested))
         == Sum(nodes, todo, Measure({r}, Requested)) + Measure({r}, Requested)(nodes[id])
    ensures 0 <= Sum(nodes, todo, Measure({r}, Committed)) && 0 <= Sum(nodes, todo, Measure({r}, Requested))
    ensures Sum(nodes, todo - {id}, Measure({r}, Committed)) <= TableSum(nodes, {r}, Committed)
    ensures Sum(nodes, todo, Measure({r}, Requested)) + Measure({r}, Staked)(nodes[id]) <= RoleStaked(nodes, r)
  {
    forall other | other in nodes
      ensures 0 <= Measure({r}, Committed)(nodes[other])
      ensures 0 <= Measure({r}, Requested)(nodes[other]) <= Measure({r}, Staked)(nodes[other])
    {
      NodeAtMostTable(nodes, other, {r}, Committed);
      NodeAtMostTable(nodes, other, {r}, Requested);
      assert NodeRequestsCovered(nodes[other]);
      SumOverAtMost(nodes[other].delegators, Requested, nodes[other].delegators, Staked);
      assert Requested(nodes[other].own) <= Staked(nodes[other].own);
    }
    DoneStep(nodes, todo, id, Measure({r}, Committed));
    DoneStep(nodes, todo, id, Measure({r}, Requested));
    DoneStep(nodes, todo, id, Measure({r}, Staked));
    DoneAtMost(nodes, todo - {id}, Measure({r}, Committed));
    DoneAtMost(nodes, todo - {id}, Measure({r}, Staked));
    SumOverNonNegative(Done(nodes, todo), Measure({r}, Committed));
    SumOverNonNegative(Done(nodes, todo), Measure({r}, Requested));
    SumOverAtMost(Done(nodes, todo), Measure({r}, Requested), Done(nodes, todo), Measure({r}, Staked));
  }

  ghost predicate TotalSoFar(nodes: map<string, NodeRecord>, todo: set<string>, before: map<nat, nat>,
                             now: map<nat, nat>, r: nat)
    requires r in before && r in now
  {
    now[r] <= MAX_UFIX64 && now[r] == RunningTotal(nodes, todo, before, r)
  }

  /** One more node moved: its role's total follows, the other totals stay. */
  lemma TotalAfterNode(nodes: map<string, NodeRecord>, todo: set<string>, id: string, before: map<nat, nat>,
                       now: map<nat, nat>, total: nat, r: nat)
    requires id in todo && todo <= nodes.Keys && RequestsCovered(nodes)
    requires before.Keys == now.Keys == ROLES && nodes[id].role in ROLES && r in ROLES
    requires TotalSoFar(nodes, todo, before, now, r)
    requires total <= MAX_UFIX64
    requires var n := nodes[id];
             total == now[n.role] + n.own.committed + SumOver(n.delegators, Committed)
                      - n.own.request - SumOver(n.delegators, Requested)
    ensures TotalSoFar(nodes, todo - {id}, before, now[nodes[id].role := total], r)
  {
    NodeMoves(nodes, todo, id, r);
    var n := nodes[id];
    assert Committed(n.own) == n.own.committed && Requested(n.own) == n.own.request;
  }

  /** The running total of a node's role covers its stake, and with its commitments exceeds the total after
      all commitments by no more than they do. */
  lemma RunningTotalCovers(nodes: map<string, NodeRecord>, todo: set<string>, id: string, before: map<nat, nat>)
    requires id in todo && todo <= nodes.Keys && RequestsCovered(nodes) && nodes[id].role in before
    requires RoleStaked(nodes, nodes[id].role) <= before[nodes[id].role]
    ensures var n := nodes[id];
            && n.own.staked + SumOver(n.delegators, Staked) <= RunningTotal(nodes, todo, before, n.role)
            && RunningTotal(nodes, todo, before, n.role) + n.own.committed + SumOver(n.delegators, Committed)
                 <= before[n.role] + TableSum(nodes, {n.role}, Committed)
  {
    var n := nodes[id];
    NodeMoves(nodes, todo, id, n.role);
    assert Committed(n.own) == n.own.committed && Staked(n.own) == n.own.staked;
  }

  lemma RolesKnown(nodes: map<string, NodeRecord>)
    requires NodesOk(nodes)
    ensures forall id <- nodes :: nodes[id].role in ROLES
  {
    forall id | id in nodes ensures nodes[id].role in ROLES {
      assert NodeOk(id, nodes[id]);
    }
  }

  // ---------------------------------------------------------------- room for every order

  lemma RoomForDelegators(dels: map<nat, Holder>, order: seq<nat>, total: int)
    requires Visits(order, dels.Keys) && forall d <- dels :: dels[d].request <= dels[d].staked
    requires total + SumOver(dels, Committed) <= MAX_UFIX64
    ensures DelegatorsFit(dels, order, total)
  {
    forall i: nat | i < |order| ensures order[i] in dels && DelegatorFits(dels, order, total, i) {
      LeftStep(order, i, dels.Keys);
      DelegatorMoves(dels, Left(order, i), order[i]);
    }
  }

  lemma RoomForNode(nodes: map<string, NodeRecord>, order: Order, before: map<nat, nat>, i: nat, id: string)
    requires RequestsCovered(nodes) && OrderOf(order, nodes) && i < |order.nodes| && id == order.nodes[i] && id in nodes
    requires nodes[id].role in before && RoleStaked(nodes, nodes[id].role) <= before[nodes[id].role]
    requires before[nodes[id].role] + TableSum(nodes, {nodes[id].role}, Committed) <= MAX_UFIX64
    ensures NodeFitsAt(nodes, order, before, i)
  {
    var n := nodes[id];
    LeftStep(order.nodes, i, nodes.Keys);
    RunningTotalCovers(nodes, Left(order.nodes, i), id, before);
    RoomInNode(n, order.delegators[id], RunningTotal(nodes, Left(order.nodes, i), before, n.role));
  }

  lemma RoomInNode(n: NodeRecord, order: seq<nat>, total: int)
    requires NodeRequestsCovered(n) && Visits(order, n.delegators.Keys)
    requires total + n.own.committed + SumOver(n.delegators, Committed) <= MAX_UFIX64
    ensures NodeFits(n, order, total)
  {
    SumOverNonNegative(n.delegators, Committed);
    RoomForDelegators(n.delegators, order, total + n.own.committed);
  }

  lemma RoleHasRoom(s: State, r: nat)
    requires InvTotals(s) && RoomToMove(s) && r in ROLES
    ensures RoleStaked(s.nodes, r) <= s.totals[r]
    ensures s.totals[r] + TableSum(s.nodes, {r}, Committed) <= MAX_UFIX64
  {
  }

  /** With enough room in the totals, no order of nodes and delegators overflows. */
  lemma RoomForEveryOrder(s: State, order: Order)
    requires Inv(s) && !s.auction && OrderOf(order, s.nodes) && RoomToMove(s)
    ensures CanMove(s, order)
  {
    RolesKnown(s.nodes);
    MoveNeverUnderflows(s);
    forall i: nat | i < |order.nodes|
      ensures order.nodes[i] in s.nodes && NodeFitsAt(s.nodes, order, s.totals, i)
    {
      LeftStep(order.nodes, i, s.nodes.Keys);
      var id := order.nodes[i];
      RoleHasRoom(s, s.nodes[id].role);
      RoomForNode(s.nodes, order, s.totals, i, id);
    }
  }

  // ---------------------------------------------------------------- underflow and overflow

  /** In every reachable state a move can only abort for want of room in a role's total, and never
      because a request exceeds a stake or a total what leaves it. */
  lemma MoveNeverUnderflows(s: State)
    requires Inv(s)
    ensures RequestsCovered(s.nodes)
    ensures forall r <- s.totals :: 0 <= MovedTotal(s, r)
  {
    forall id | id in s.nodes ensures NodeRequestsCovered(s.nodes[id]) {
      assert NodeOk(id, s.nodes[id]);
    }
    forall r | r in s.totals ensures 0 <= MovedTotal(s, r) {
      MoveEffect(s.nodes, {r});
      MeasureMono(Moved(s.nodes), {r}, {r}, Staked, Staked);
      assert RoleStaked(s.nodes, r) <= s.totals[r];
    }
  }

  /** As long as the totals are exact there is always room: no order of visiting the nodes overflows. */
  lemma ExactTotalsLeaveRoom(s: State)
    requires Inv(s) && forall r <- ROLES :: Drift(s, r) == 0
    ensures RoomToMove(s)
  {
    MoveNeverUnderflows(s);
    var both := (h: Holder) => Staked(h) + Committed(h);
    forall r | r in s.totals
      ensures s.totals[r] + TableSum(s.nodes, {r}, Committed) <= MAX_UFIX64
      ensures MovedTotal(s, r) <= MAX_UFIX64
      ensures MovedTotal(s, r) == RoleStaked(Moved(s.nodes), r)
    {
      assert Drift(s, r) == 0;
      TableAdd(s.nodes, both, s.nodes, Staked, s.nodes, Committed, {r});
      MeasureMono(s.nodes, {r}, ROLES, both, Tokens);
      MeasureMono(s.nodes, {r}, {r}, Requested, Requested);
      MoveEffect(s.nodes, {r});
    }
    MoveEffect(s.nodes, ROLES);
    PaidRolesSplit(Moved(s.nodes), Staked);
    MeasureMono(Moved(s.nodes), PAID_ROLES, ROLES, Staked, Tokens);
  }

  /** These stakes, each role's with what its total exceeds the real stake by, fit in the totals. */
  ghost predicate StakesFit(nodes: map<string, NodeRecord>, s: State)
    requires s.totals.Keys == ROLES
  {
    && (forall r <- ROLES :: RoleStaked(nodes, r) + Drift(s, r) <= MAX_UFIX64)
    && TableSum(nodes, PAID_ROLES, Staked) + Drift(s, 1) + Drift(s, 2) + Drift(s, 3) + Drift(s, 4) <= MAX_UFIX64
  }

  lemma MovedTotalIs(s: State, r: nat)
    requires Inv(s) && RequestsCovered(s.nodes) && r in ROLES
    ensures MovedTotal(s, r) == RoleStaked(Moved(s.nodes), r) + Drift(s, r)
  {
    MoveEffect(s.nodes, {r});
  }

  /** With the auction closed, the totals after a move fit if and only if what will be staked, and what removals
      left in the totals, fit. */
  lemma MoveEndsExactly(s: State)
    requires Inv(s) && !s.auction
    ensures RequestsCovered(s.nodes)
    ensures MoveEnds(s) <==> StakesFit(Moved(s.nodes), s)
  {
    MoveNeverUnderflows(s);
    forall r | r in ROLES ensures MovedTotal(s, r) == RoleStaked(Moved(s.nodes), r) + Drift(s, r) {
      MovedTotalIs(s, r);
    }
    PaidRolesSplit(Moved(s.nodes), Staked);
  }

  /** Tokens can be moved in an order if and only if that is so and every addition on the way fits. */
  lemma MoveFitsExactly(s: State, order: Order)
    requires Inv(s) && !s.auction && OrderOf(order, s.nodes)
    ensures RequestsCovered(s.nodes) && RolesIn(s.nodes, s.totals)
    ensures Enabled(s, MoveTokens(order)) <==>
              StakesFit(Moved(s.nodes), s) && TableFits(s.nodes, order, s.totals)
  {
    MoveEndsExactly(s);
    RolesKnown(s.nodes);
  }

  // ---------------------------------------------------------------- every order

  /** What a move adds to a role's total for a holder, in the end. */
  function Net(h: Holder): int { h.committed - h.request }

  /** The same, for holders for whom it is an increase. */
  function Rise(h: Holder): int { if Net(h) > 0 then Net(h) else 0 }

  ghost function RiseIn(r: nat): NodeRecord -> int {
    (n: NodeRecord) => if Measure({r}, Net)(n) > 0 then Measure({r}, Net)(n) else 0
  }

  /** At this total there is room for the node's commitment, and for any delegator's even after all others of
      the node that let the total rise. */
  ghost predicate NodeAlwaysFits(n: NodeRecord, total: int) {
    && total + n.own.committed <= MAX_UFIX64
    && forall d <- n.delegators ::
         total + n.own.committed + SumOver(n.delegators - {d}, Rise) + n.delegators[d].committed <= MAX_UFIX64
  }

  /** A role's total before a node, after all others of the role that let it rise. */
  ghost function MostBefore(nodes: map<string, NodeRecord>, before: map<nat, nat>, id: string): int
    requires id in nodes && nodes[id].role in before
  {
    before[nodes[id].role] + SumOver(nodes - {id}, RiseIn(nodes[id].role))
  }

  /** There is room for every node even after all others of its role that let the total rise. */
  ghost predicate AlwaysFits(nodes: map<string, NodeRecord>, before: map<nat, nat>)
    requires RolesIn(nodes, before)
  {
    forall id <- nodes ::
      NodeAlwaysFits(nodes[id], MostBefore(nodes, before, id))
  }

  /** What is visited before a key adds no more than all rises but its own. */
  lemma VisitedAtMostRises<K(!new), V(!new)>(m: map<K, V>, todo: set<K>, k: K, net: V -> int, rise: V -> int)
    requires k in todo && todo <= m.Keys
    requires forall v :: rise(v) == if net(v) > 0 then net(v) else 0
    ensures Sum(m, todo, net) <= SumOver(m - {k}, rise)
  {
    assert Done(m, todo) == Done(m - {k}, todo - {k});
    SumOverAtMost(Done(m, todo), net, Done(m, todo), rise);
    DoneAtMost(m - {k}, todo - {k}, rise);
  }

  lemma DelegatorTotalIsNet(dels: map<nat, Holder>, todo: set<nat>, total: int)
    ensures DelegatorTotal(dels, todo, total) == total + Sum(dels, todo, Net)
  {
    SumOverAdd(Done(dels, todo), Committed, Done(dels, todo), Net, Done(dels, todo), Requested);
  }

  lemma RunningTotalIsNet(nodes: map<string, NodeRecord>, todo: set<string>, before: map<nat, nat>, r: nat)
    requires r in before
    ensures RunningTotal(nodes, todo, before, r) == before[r] + Sum(nodes, todo, Measure({r}, Net))
  {
    var part := Done(nodes, todo);
    forall id | id in part
      ensures Measure({r}, Committed)(part[id]) == Measure({r}, Net)(part[id]) + Measure({r}, Requested)(part[id])
    {
      SumOverAdd(part[id].delegators, Committed, part[id].delegators, Net, part[id].delegators, Requested);
      assert Committed(part[id].own) == Net(part[id].own) + Requested(part[id].own);
    }
    SumOverAdd(part, Measure({r}, Committed), part, Measure({r}, Net), part, Measure({r}, Requested));
  }

  lemma NodeFitsInAnyOrder(n: NodeRecord, order: seq<nat>, total: int, most: int)
    requires Visits(order, n.delegators.Keys) && total <= most && NodeAlwaysFits(n, most)
    ensures NodeFits(n, order, total)
  {
    forall i: nat | i < |order|
      ensures order[i] in n.delegators && DelegatorFits(n.delegators, order, total + n.own.committed, i)
    {
      LeftStep(order, i, n.delegators.Keys);
      DelegatorTotalIsNet(n.delegators, Left(order, i), total + n.own.committed);
      VisitedAtMostRises(n.delegators, Left(order, i), order[i], Net, Rise);
    }
  }

  lemma TableFitsInAnyOrder(nodes: map<string, NodeRecord>, order: Order, before: map<nat, nat>)
    requires OrderOf(order, nodes) && RolesIn(nodes, before)
    requires AlwaysFits(nodes, before)
    ensures TableFits(nodes, order, before)
  {
    forall i: nat | i < |order.nodes|
      ensures order.nodes[i] in nodes && NodeFitsAt(nodes, order, before, i)
    {
      LeftStep(order.nodes, i, nodes.Keys);
      var id := order.nodes[i];
      var r := nodes[id].role;
      RunningTotalIsNet(nodes, Left(order.nodes, i), before, r);
      VisitedAtMostRises(nodes, Left(order.nodes, i), id, Measure({r}, Net), RiseIn(r));
      NodeFitsInAnyOrder(nodes[id], order.delegators[id], RunningTotal(nodes, Left(order.nodes, i), before, r),
                         MostBefore(nodes, before, id));
    }
  }

  predicate NoDuplicates<K(==)>(order: seq<K>) { forall i, j | 0 <= i < j < |order| :: order[i] != order[j] }

  lemma InParts<K(!new)>(a: seq<K>, k: K, b: seq<K>)
    ensures forall x :: x in a + [k] + b <==> x in a || x == k || x in b
    ensures forall x :: x in [k] + b <==> x == k || x in b
  {
  }

  lemma DistinctParts<K(!new)>(a: seq<K>, k: K, b: seq<K>)
    requires NoDuplicates(a) && NoDuplicates(b) && k !in a && k !in b && forall x <- a :: x !in b
    ensures NoDuplicates(a + [k] + b)
  {
    var order := a + [k] + b;
    forall i, j | 0 <= i < j < |order| ensures order[i] != order[j] {
      if j < |a| {
        assert order[i] == a[i] && order[j] == a[j];
      } else if j == |a| {
        assert order[i] == a[i] && order[j] == k;
      } else {
        var y := b[j - |a| - 1];
        assert order[j] == y && y in b;
        if i < |a| {
          assert order[i] == a[i] && a[i] in a;
        } else if i > |a| {
          assert order[i] == b[i - |a| - 1];
        }
      }
    }
  }

  /** Some order of these keys. */
  ghost function Listing<K(!new)>(keys: set<K>): (order: seq<K>)
    ensures NoDuplicates(order) && forall k :: k in order <==> k in keys
  {
    if keys == {} then []
    else
      var k :| k in keys;
      var rest := Listing(keys - {k});
      InParts([], k, rest);
      DistinctParts([], k, rest);
      [] + [k] + rest
  }

  /** An order that visits these keys, then this one, then the others. */
  ghost function Around<K(!new)>(first: set<K>, k: K, keys: set<K>): seq<K> {
    Listing(first) + [k] + Listing(keys - first - {k})
  }

  lemma AroundVisits<K(!new)>(first: set<K>, k: K, keys: set<K>)
    requires first <= keys && k in keys && k !in first
    ensures Visits(Around(first, k, keys), keys)
    ensures |Listing(first)| < |Around(first, k, keys)| && Around(first, k, keys)[|Listing(first)|] == k
    ensures Left(Around(first, k, keys), |Listing(first)|) == keys - first
  {
    var a, b := Listing(first), Listing(keys - first - {k});
    DistinctParts(a, k, b);
    WholeOfParts(a, k, b, keys);
    RestOfParts(a, k, b, keys - first);
  }

  lemma WholeOfParts<K(!new)>(a: seq<K>, k: K, b: seq<K>, keys: set<K>)
    requires forall x :: x in keys <==> x in a || x == k || x in b
    ensures Left(a + [k] + b, 0) == keys
  {
    InParts(a, k, b);
    assert (a + [k] + b)[0..] == a + [k] + b;
    LeftIs(a + [k] + b, 0, a + [k] + b, keys);
  }

  lemma RestOfParts<K(!new)>(a: seq<K>, k: K, b: seq<K>, keys: set<K>)
    requires forall x :: x in keys <==> x == k || x in b
    ensures Left(a + [k] + b, |a|) == keys
  {
    InParts(a, k, b);
    assert (a + [k] + b)[|a|..] == [k] + b;
    LeftIs(a + [k] + b, |a|, [k] + b, keys);
  }

  lemma LeftIs<K(!new)>(order: seq<K>, i: nat, rest: seq<K>, keys: set<K>)
    requires i <= |order| && order[i..] == rest && forall x :: x in rest <==> x in keys
    ensures Left(order, i) == keys
  {
  }

  /** The keys that let the sum rise. */
  ghost function Risers<K(!new), V(!new)>(m: map<K, V>, net: V -> int): set<K> { set k | k in m && net(m[k]) > 0 }

  lemma {:induction false} RisersAddAll<K(!new), V(!new)>(m: map<K, V>, net: V -> int, rise: V -> int)
    requires forall v :: rise(v) == if net(v) > 0 then net(v) else 0
    ensures SumOver(Done(m, m.Keys - Risers(m, net)), net) == SumOver(m, rise)
    decreases |m|
  {
    if m == map[] {
      assert Done(m, m.Keys - Risers(m, net)) == map[];
    } else {
      var k :| k in m;
      RisersAddAll(m - {k}, net, rise);
      SumOverRemove(m, k, rise);
      var part, rest := Done(m, m.Keys - Risers(m, net)), Done(m - {k}, (m - {k}).Keys - Risers(m - {k}, net));
      if net(m[k]) > 0 {
        SumOverRemove(part, k, net);
        assert part - {k} == rest;
      } else {
        assert part == rest;
      }
    }
  }

  /** In some order all rises but its own come before a key. */
  lemma RisesFirst<K(!new), V(!new)>(m: map<K, V>, k: K, net: V -> int, rise: V -> int) returns (first: set<K>)
    requires k in m && forall v :: rise(v) == if net(v) > 0 then net(v) else 0
    ensures first <= m.Keys && k !in first
    ensures Sum(m, m.Keys - first, net) == SumOver(m - {k}, rise)
  {
    first := Risers(m - {k}, net);
    RisersAddAll(m - {k}, net, rise);
    assert Done(m, m.Keys - first) == Done(m - {k}, (m - {k}).Keys - first);
  }

  /** An order in which all other nodes that rise come before this node, with this order inside the node. */
  lemma OrderAround(nodes: map<string, NodeRecord>, before: map<nat, nat>, id: string, inside: seq<nat>)
    returns (order: Order, i: nat)
    requires id in nodes && RolesIn(nodes, before)
    requires Visits(inside, nodes[id].delegators.Keys)
    ensures OrderOf(order, nodes) && i < |order.nodes| && order.nodes[i] == id && order.delegators[id] == inside
    ensures RunningTotal(nodes, Left(order.nodes, i), before, nodes[id].role)
         == MostBefore(nodes, before, id)
  {
    var r := nodes[id].role;
    var first := RisesFirst(nodes, id, Measure({r}, Net), RiseIn(r));
    AroundVisits(first, id, nodes.Keys);
    i := |Listing(first)|;
    order := Order(Around(first, id, nodes.Keys),
                   map x | x in nodes :: if x == id then inside else Listing(nodes[x].delegators.Keys));
    forall x | x in nodes ensures Visits(order.delegators[x], nodes[x].delegators.Keys) {
      ListingVisits(nodes[x].delegators.Keys);
    }
    RunningTotalIsNet(nodes, Left(order.nodes, i), before, r);
  }

  lemma ListingVisits<K(!new)>(keys: set<K>)
    ensures Visits(Listing(keys), keys)
  {
    assert Listing(keys)[0..] == Listing(keys);
    LeftIs(Listing(keys), 0, Listing(keys), keys);
  }

  ghost predicate FitsInEveryOrder(nodes: map<string, NodeRecord>, before: map<nat, nat>)
    requires RolesIn(nodes, before)
  {
    forall order | OrderOf(order, nodes) :: TableFits(nodes, order, before)
  }

  /** If every order fits, a node fits after all the others that rise, in whatever order inside it. */
  lemma FitsBehindRises(nodes: map<string, NodeRecord>, before: map<nat, nat>, id: string, inside: seq<nat>)
    requires RolesIn(nodes, before) && FitsInEveryOrder(nodes, before)
    requires id in nodes && Visits(inside, nodes[id].delegators.Keys)
    ensures NodeFits(nodes[id], inside, MostBefore(nodes, before, id))
  {
    var order, i := OrderAround(nodes, before, id, inside);
    FitsAt(nodes, order, before, i);
    FitsThere(nodes, order, before, i, id);
  }

  lemma FitsThere(nodes: map<string, NodeRecord>, order: Order, before: map<nat, nat>, i: nat, id: string)
    requires OrderOf(order, nodes) && i < |order.nodes| && order.nodes[i] == id && id in nodes
    requires nodes[id].role in before && NodeFitsAt(nodes, order, before, i)
    requires RunningTotal(nodes, Left(order.nodes, i), before, nodes[id].role) == MostBefore(nodes, before, id)
    ensures NodeFits(nodes[id], order.delegators[id], MostBefore(nodes, before, id))
  {
  }

  lemma FitsAt(nodes: map<string, NodeRecord>, order: Order, before: map<nat, nat>, i: nat)
    requires RolesIn(nodes, before) && FitsInEveryOrder(nodes, before)
    requires OrderOf(order, nodes) && i < |order.nodes| && order.nodes[i] in nodes
    ensures NodeFitsAt(nodes, order, before, i)
  {
    assert TableFits(nodes, order, before);
  }

  lemma WorstDelegator(n: NodeRecord, total: int, d: nat, inside: seq<nat>, i: nat)
    requires d in n.delegators && Visits(inside, n.delegators.Keys) && NodeFits(n, inside, total)
    requires i < |inside| && inside[i] == d
    requires Sum(n.delegators, Left(inside, i), Net) == SumOver(n.delegators - {d}, Rise)
    ensures total + n.own.committed + SumOver(n.delegators - {d}, Rise) + n.delegators[d].committed <= MAX_UFIX64
  {
    DelegatorTotalIsNet(n.delegators, Left(inside, i), total + n.own.committed);
    assert DelegatorFits(n.delegators, inside, total + n.own.committed, i);
  }

  /** An order of delegators in which all others that rise come before d. */
  lemma OrderInside(dels: map<nat, Holder>, d: nat) returns (inside: seq<nat>, i: nat)
    requires d in dels
    ensures Visits(inside, dels.Keys) && i < |inside| && inside[i] == d
    ensures Sum(dels, Left(inside, i), Net) == SumOver(dels - {d}, Rise)
  {
    var first := RisesFirst(dels, d, Net, Rise);
    AroundVisits(first, d, dels.Keys);
    inside, i := Around(first, d, dels.Keys), |Listing(first)|;
  }

  lemma WorstOrder(nodes: map<string, NodeRecord>, before: map<nat, nat>, id: string, d: nat)
    requires RolesIn(nodes, before) && FitsInEveryOrder(nodes, before)
    requires id in nodes && d in nodes[id].delegators
    ensures var n := nodes[id];
            MostBefore(nodes, before, id) + n.own.committed
              + SumOver(n.delegators - {d}, Rise) + n.delegators[d].committed <= MAX_UFIX64
  {
    var inside, i := OrderInside(nodes[id].delegators, d);
    FitsBehindRises(nodes, before, id, inside);
    WorstDelegator(nodes[id], MostBefore(nodes, before, id), d, inside, i);
  }

  lemma EveryOrderFitsAlways(nodes: map<string, NodeRecord>, before: map<nat, nat>, id: string)
    requires RolesIn(nodes, before) && FitsInEveryOrder(nodes, before) && id in nodes
    ensures NodeAlwaysFits(nodes[id], MostBefore(nodes, before, id))
  {
    var n := nodes[id];
    var total := MostBefore(nodes, before, id);
    ListingVisits(n.delegators.Keys);
    FitsBehindRises(nodes, before, id, Listing(n.delegators.Keys));
    forall d | d in n.delegators
      ensures total + n.own.committed + SumOver(n.delegators - {d}, Rise) + n.delegators[d].committed <= MAX_UFIX64
    {
      WorstOrder(nodes, before, id, d);
    }
  }

  /** The additions fit in every order of nodes and delegators if and only if they fit in the worst one. */
  lemma EveryOrderExactly(nodes: map<string, NodeRecord>, before: map<nat, nat>)
    requires RolesIn(nodes, before)
    ensures FitsInEveryOrder(nodes, before) <==> AlwaysFits(nodes, before)
  {
    if FitsInEveryOrder(nodes, before) {
      forall id | id in nodes
        ensures NodeAlwaysFits(nodes[id], MostBefore(nodes, before, id))
      {
        EveryOrderFitsAlways(nodes, before, id);
      }
    } else {
      var order :| OrderOf(order, nodes) && !TableFits(nodes, order, before);
      if AlwaysFits(nodes, before) {
        TableFitsInAnyOrder(nodes, order, before);
      }
    }
  }

  lemma SomeOrder(nodes: map<string, NodeRecord>) returns (order: Order)
    ensures OrderOf(order, nodes)
  {
    order := Order(Listing(nodes.Keys), map id | id in nodes :: Listing(nodes[id].delegators.Keys));
    ListingVisits(nodes.Keys);
    forall id | id in nodes ensures Visits(order.delegators[id], nodes[id].delegators.Keys) {
      ListingVisits(nodes[id].delegators.Keys);
    }
  }

  ghost predicate MovesInEveryOrder(s: State) {
    forall order | OrderOf(order, s.nodes) :: Enabled(s, MoveTokens(order))
  }

  /** A move goes through whatever the order if and only if what will be staked fits, and the worst order does. */
  lemma MoveAlwaysFitsExactly(s: State)
    requires Inv(s) && !s.auction
    ensures RequestsCovered(s.nodes) && RolesIn(s.nodes, s.totals)
    ensures MovesInEveryOrder(s) <==> StakesFit(Moved(s.nodes), s) && AlwaysFits(s.nodes, s.totals)
  {
    MoveNeverUnderflows(s);
    RolesKnown(s.nodes);
    EveryOrderExactly(s.nodes, s.totals);
    forall order | OrderOf(order, s.nodes)
      ensures Enabled(s, MoveTokens(order)) <==>
                StakesFit(Moved(s.nodes), s) && TableFits(s.nodes, order, s.totals)
    {
      MoveFitsExactly(s, order);
    }
    var some := SomeOrder(s.nodes);
  }

  // ---------------------------------------------------------------- closing an epoch

  lemma ScreenedOrder(s: State, approved: set<string>, order: Order)
    requires AllMinimumsKnown(s)
    ensures OrderOf(order, Screen(s, approved)) <==> OrderOf(order, s.nodes)
  {
    ScreenAligned(s, approved);
  }

  /** What closing an epoch with this approved list comes down to. */
  lemma Closed(s: State, approved: set<string>)
    requires Inv(s) && AllMinimumsKnown(s)
    ensures Enabled(s, EndAuction(approved))
    ensures var closed := Apply(s, EndAuction(approved));
            && Inv(closed) && !closed.auction && closed.nodes == Screen(s, approved) && closed.totals == s.totals
            && RequestsCovered(closed.nodes)
            && RolesIn(closed.nodes, s.totals)
            && (StakesFit(Moved(closed.nodes), closed) <==> StakesFit(Moved(closed.nodes), s))
            && forall r <- ROLES :: Drift(closed, r) == Drift(s, r)
  {
    var closed := Apply(s, EndAuction(approved));
    InvariantKept(s, Step(EndAuction(approved), true, closed));
    MoveNeverUnderflows(closed);
    RolesKnown(closed.nodes);
    forall r | r in ROLES ensures Drift(closed, r) == Drift(s, r) {
      DriftOnlyByRemoval(s, EndAuction(approved), r);
    }
  }

  /** An epoch can be closed with this approved list and this order of nodes and delegators if and only if what
      the nodes that stay are committed to fits on top of what removals left in the totals, and so does every
      addition on the way. */
  lemma EpochCanClose(s: State, approved: set<string>, order: Order)
    requires Inv(s) && AllMinimumsKnown(s) && OrderOf(order, s.nodes)
    ensures Enabled(s, EndAuction(approved)) && RequestsCovered(Screen(s, approved))
    ensures OrderOf(order, Screen(s, approved))
    ensures RolesIn(Screen(s, approved), s.totals)
    ensures Enabled(Apply(s, EndAuction(approved)), MoveTokens(order)) <==>
              StakesFit(Moved(Screen(s, approved)), s) && TableFits(Screen(s, approved), order, s.totals)
  {
    Closed(s, approved);
    ScreenedOrder(s, approved, order);
    MoveFitsExactly(Apply(s, EndAuction(approved)), order);
  }

  /** It can be closed whatever the order if and only if it fits even in the worst order, and with exact totals
      it always does. */
  lemma EpochAlwaysCloses(s: State, approved: set<string>)
    requires Inv(s) && AllMinimumsKnown(s)
    ensures Enabled(s, EndAuction(approved)) && RequestsCovered(Screen(s, approved))
    ensures RolesIn(Screen(s, approved), s.totals)
    ensures MovesInEveryOrder(Apply(s, EndAuction(approved))) <==>
              StakesFit(Moved(Screen(s, approved)), s) && AlwaysFits(Screen(s, approved), s.totals)
    ensures (forall r <- ROLES :: Drift(s, r) == 0) ==> MovesInEveryOrder(Apply(s, EndAuction(approved)))
  {
    Closed(s, approved);
    MoveAlwaysFitsExactly(Apply(s, EndAuction(approved)));
    if forall r <- ROLES :: Drift(s, r) == 0 {
      ExactTotalsAlwaysMove(Apply(s, EndAuction(approved)));
    }
  }

  lemma ExactTotalsAlwaysMove(s: State)
    requires Inv(s) && !s.auction && forall r <- ROLES :: Drift(s, r) == 0
    ensures MovesInEveryOrder(s)
  {
    ExactTotalsLeaveRoom(s);
    forall order | OrderOf(order, s.nodes) ensures Enabled(s, MoveTokens(order)) {
      RoomForEveryOrder(s, order);
    }
  }
}
