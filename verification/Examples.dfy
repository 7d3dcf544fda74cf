/** Small tables that show where a total drifts, a move runs out of room, staking again restores nothing and a
    delegator outstays its operator; and the rewards that the repository's tests expect. */
module Examples {
  import opened Fixed
  import opened Sums
  import opened Ledger
  import opened Options
  import opened Orders
  import opened Steps
  import opened Invariants
  import opened Runs
  import opened Epochs
  import opened Moving

  // ---------------------------------------------------------------- tables with one collection node

  datatype Info = Info(id: string, address: string, networkingKey: string, stakingKey: string) {
    predicate Valid() { ValidInfo(id, 1, address, networkingKey, stakingKey) }

    function Enter(amount: nat): Op { Register(id, 1, address, networkingKey, stakingKey, amount) }
  }

  function SomeInfo(): (i: Info)
    ensures i.Valid()
  {
    Info(seq(64, _ => 'd'), "a", seq(128, _ => 'b'), seq(192, _ => 'c'))
  }

  /** A node's operator and perhaps a delegator. */
  datatype Small = Small(own: Holder, delegator: Option<Holder>, weight: nat) {
    function Delegators(): map<nat, Holder> { if delegator.Some? then map[1 := delegator.value] else map[] }

    function Record(i: Info): NodeRecord {
      NodeRecord(1, i.address, i.networkingKey, i.stakingKey, own, Delegators(), |Delegators()|, weight)
    }

    function Add(f: Holder -> int): int { f(own) + if delegator.Some? then f(delegator.value) else 0 }

    predicate Covered() {
      own.request <= own.staked && (delegator.Some? ==> delegator.value.request <= delegator.value.staked)
    }
  }

  /** The table of s without nodes, at this total of the role, and with this much outside. */
  function Empty(s: State, total: nat, outside: nat): State {
    s.(nodes := map[], totals := s.totals[1 := total], claims := Some(Claims({}, {}, {})), auction := true,
       outside := outside)
  }

  /** The table of s with this one node. */
  function Table(s: State, i: Info, n: Small, total: nat, auction: bool, outside: nat): State {
    s.(nodes := map[i.id := n.Record(i)], totals := s.totals[1 := total], auction := auction,
       claims := Some(Claims({i.address}, {i.networkingKey}, {i.stakingKey})), outside := outside)
  }

  lemma DelegatorSum(n: Small, f: Holder -> int)
    ensures SumOver(n.Delegators(), f) == if n.delegator.Some? then f(n.delegator.value) else 0
  {
    if n.delegator.Some? {
      OneEntry(1, n.delegator.value, f);
    } else {
      assert n.Delegators() == map[];
    }
  }

  lemma TableIsSum(i: Info, n: Small, roles: set<nat>, f: Holder -> int)
    ensures TableSum(map[i.id := n.Record(i)], roles, f) == if 1 in roles then n.Add(f) else 0
  {
    DelegatorSum(n, f);
    OneEntry(i.id, n.Record(i), Measure(roles, f));
  }

  function Staking(amount: nat): Holder { EMPTY_HOLDER.(staked := amount) }

  function Committing(amount: nat): Holder { EMPTY_HOLDER.(committed := amount) }

  // ---------------------------------------------------------------- steps between such tables

  /** Roles without stakes, and a minimum for the role. */
  predicate Fresh(s: State) {
    s.totals.Keys == ROLES && (forall r <- ROLES :: s.totals[r] == 0) && 1 in s.minimums
  }

  lemma StepEnter(s: State, i: Info, amount: nat, total: nat, outside: nat, tokens: nat)
    requires i.Valid() && tokens == amount + outside
    ensures Enabled(Empty(s, total, tokens), i.Enter(amount))
    ensures Apply(Empty(s, total, tokens), i.Enter(amount))
         == Table(s, i, Small(Committing(amount), None, 0), total, true, outside)
  {
  }

  lemma StepJoin(s: State, i: Info, h: Holder, total: nat, outside: nat)
    requires Fresh(s) && Commitment(h) >= s.minimums[1]
    ensures var before := Table(s, i, Small(h, None, 0), total, true, outside);
            && Enabled(before, RegisterDelegator(i.id))
            && Apply(before, RegisterDelegator(i.id))
               == Table(s, i, Small(h, Some(EMPTY_HOLDER), 0), total, true, outside)
  {
    assert WithDelegator(Small(h, None, 0).Record(i)) == Small(h, Some(EMPTY_HOLDER), 0).Record(i);
  }

  lemma StepBack(s: State, i: Info, h: Holder, amount: nat)
    ensures var before, op := Table(s, i, Small(h, Some(EMPTY_HOLDER), 0), 0, true, amount),
                              Use(Delegate(i.id, 1), StakeNew, amount);
            && Enabled(before, op)
            && Apply(before, op) == Table(s, i, Small(h, Some(Committing(amount)), 0), 0, true, 0)
  {
    PutBacked(i, h, amount);
    OnlyUsed(Table(s, i, Small(h, Some(EMPTY_HOLDER), 0), 0, true, amount), i, Delegate(i.id, 1), StakeNew, amount);
  }

  lemma PutBacked(i: Info, h: Holder, amount: nat)
    ensures Small(h, Some(EMPTY_HOLDER), 0).Delegators() == map[1 := EMPTY_HOLDER]
    ensures PutIn(Small(h, Some(EMPTY_HOLDER), 0).Record(i), Delegate(i.id, 1), Committing(amount))
         == Small(h, Some(Committing(amount)), 0).Record(i)
  {
  }

  /** An action on a table's only node replaces its record. */
  lemma OnlyUsed(s: State, i: Info, who: Who, action: Action, amount: nat)
    requires s.nodes.Keys == {i.id} && who.id == i.id && Enabled(s, Use(who, action, amount))
    ensures Apply(s, Use(who, action, amount))
         == s.(nodes := map[i.id := PutIn(s.nodes[i.id], who, Act(Get(s.nodes, who), action, amount))],
               outside := s.outside - In(action, amount) + Out(action, amount))
  {
  }

  /** The auction ends with the node on the list and above its minimum. */
  lemma StepClose(s: State, i: Info, n: Small, total: nat, outside: nat)
    requires Fresh(s) && Commitment(n.own) >= s.minimums[1]
    ensures var before := Table(s, i, n, total, true, outside);
            && Enabled(before, EndAuction({i.id}))
            && Apply(before, EndAuction({i.id})) == Table(s, i, n.(weight := 100), total, false, outside)
  {
    var before := Table(s, i, n, total, true, outside);
    assert Stays(before, {i.id}, i.id);
    assert Screen(before, {i.id}) == map[i.id := n.(weight := 100).Record(i)];
  }

  lemma TableMoves(s: State, i: Info, n: Small, total: nat, outside: nat, r: nat)
    requires Fresh(s) && r in ROLES
    ensures MovedTotal(Table(s, i, n, total, false, outside), r)
         == if r == 1 then total + n.Add(Committed) - n.Add(Requested) else 0
  {
    TableIsSum(i, n, {r}, Committed);
    TableIsSum(i, n, {r}, Requested);
  }

  lemma TotalsBecome(s: State, totals: map<nat, nat>)
    requires s.totals.Keys == totals.Keys == ROLES && RequestsCovered(s.nodes)
    requires forall r <- ROLES :: MovedTotal(s, r) == totals[r] <= MAX_UFIX64
    ensures TotalsFit(s) && MovedTotals(s) == totals
  {
  }

  /** The one order in which such a table can be visited. */
  function OnlyOrder(i: Info, n: Small): Order {
    Order([i.id], map[i.id := if n.delegator.Some? then [1] else []])
  }

  lemma OnlyOrderVisits(i: Info, n: Small)
    ensures OrderOf(OnlyOrder(i, n), map[i.id := n.Record(i)])
  {
    assert [i.id][0..] == [i.id];
    var inside: seq<nat> := if n.delegator.Some? then [1] else [];
    assert inside[0..] == inside;
    assert n.Delegators().Keys == set d | d in inside;
  }

  lemma OnlyNodeFits(i: Info, n: Small, before: map<nat, nat>)
    requires n.Covered() && 1 in before && n.Add(Staked) <= before[1] && before[1] + n.Add(Committed) <= MAX_UFIX64
    ensures OrderOf(OnlyOrder(i, n), map[i.id := n.Record(i)])
    ensures TableFits(map[i.id := n.Record(i)], OnlyOrder(i, n), before)
  {
    OnlyOrderVisits(i, n);
    TableIsSum(i, n, {1}, Staked);
    TableIsSum(i, n, {1}, Committed);
    RoomForNode(map[i.id := n.Record(i)], OnlyOrder(i, n), before, 0, i.id);
  }

  lemma MoveOnly(s: State, id: string, n: NodeRecord, totals: map<nat, nat>)
    requires s.nodes == map[id := n] && NodeRequestsCovered(n) && MoveEnds(s) && MovedTotals(s) == totals
    ensures AfterMoving(s) == s.(nodes := map[id := MoveNode(n)], totals := totals, auction := true)
  {
    assert Moved(s.nodes) == map[id := MoveNode(n)];
  }

  lemma TableCovered(i: Info, n: Small)
    requires n.Covered()
    ensures RequestsCovered(map[i.id := n.Record(i)])
  {
  }

  lemma TableTotal(s: State, i: Info, n: Small, total: nat, outside: nat, next: nat, r: nat)
    requires Fresh(s) && r in ROLES && next == total + n.Add(Committed) - n.Add(Requested) <= MAX_UFIX64
    ensures MovedTotal(Table(s, i, n, total, false, outside), r) == s.totals[1 := next][r] <= MAX_UFIX64
  {
    TableMoves(s, i, n, total, outside, r);
  }

  lemma TableTotals(s: State, i: Info, n: Small, total: nat, outside: nat, next: nat)
    requires Fresh(s) && n.Covered() && next == total + n.Add(Committed) - n.Add(Requested) <= MAX_UFIX64
    ensures var before := Table(s, i, n, total, false, outside);
            TotalsFit(before) && MovedTotals(before) == s.totals[1 := next]
  {
    var before, totals := Table(s, i, n, total, false, outside), s.totals[1 := next];
    forall r | r in ROLES ensures MovedTotal(before, r) == totals[r] <= MAX_UFIX64 {
      TableTotal(s, i, n, total, outside, next, r);
    }
    TableCovered(i, n);
    TotalsBecome(before, totals);
  }

  lemma TableEnds(s: State, i: Info, n: Small, total: nat, outside: nat, next: nat)
    requires Fresh(s) && n.Covered() && next == total + n.Add(Committed) - n.Add(Requested) <= MAX_UFIX64
    ensures var before := Table(s, i, n, total, false, outside);
            MoveEnds(before) && MovedTotals(before) == s.totals[1 := next]
  {
    TableTotals(s, i, n, total, outside, next);
  }

  /** A node and its delegator move if the total has room for what they committed. */
  lemma StepMove(s: State, i: Info, n: Small, total: nat, outside: nat, moved: Small, next: nat)
    requires Fresh(s) && n.Covered() && MoveNode(n.Record(i)) == moved.Record(i)
    requires n.Add(Staked) <= total && total + n.Add(Committed) <= MAX_UFIX64
    requires next == total + n.Add(Committed) - n.Add(Requested) <= MAX_UFIX64
    ensures var before, op := Table(s, i, n, total, false, outside), MoveTokens(OnlyOrder(i, n));
            Enabled(before, op) && Apply(before, op) == Table(s, i, moved, next, true, outside)
  {
    TableEnds(s, i, n, total, outside, next);
    TableCanMove(s, i, n, total, outside);
    MoveOnly(Table(s, i, n, total, false, outside), i.id, n.Record(i), s.totals[1 := next]);
  }

  lemma TableCanMove(s: State, i: Info, n: Small, total: nat, outside: nat)
    requires Fresh(s) && n.Covered() && n.Add(Staked) <= total && total + n.Add(Committed) <= MAX_UFIX64
    requires MoveEnds(Table(s, i, n, total, false, outside))
    ensures CanMove(Table(s, i, n, total, false, outside), OnlyOrder(i, n))
  {
    OnlyNodeFits(i, n, s.totals[1 := total]);
  }

  lemma RemoveOnly(s: State, i: Info, n: NodeRecord, rest: nat, tokens: nat)
    requires s.nodes == map[i.id := n] && s.claims == Some(Claims({i.address}, {i.networkingKey}, {i.stakingKey}))
    requires n.networkingAddress == i.address && n.networkingKey == i.networkingKey && n.stakingKey == i.stakingKey
    requires n.role == 1 && 1 in s.totals && s.totals[1] == n.own.staked + rest && NodeTokens(n) == tokens
    ensures Enabled(s, RemoveNode(i.id))
    ensures Apply(s, RemoveNode(i.id)) == Empty(s, rest, s.outside + tokens).(auction := s.auction)
  {
    assert s.nodes - {i.id} == map[];
    assert DropClaims(s.claims.value, n) == Claims({}, {}, {});
  }

  lemma StakedTokens(i: Info, a: nat, b: nat)
    ensures NodeTokens(Small(Staking(a), Some(Staking(b)), 100).Record(i)) == a + b
  {
    DelegatorSum(Small(Staking(a), Some(Staking(b)), 100), Tokens);
    assert Tokens(Staking(a)) == a && Tokens(Staking(b)) == b;
  }

  /** A table whose node and delegator have a and b staked. */
  function StakedTable(s: State, i: Info, a: nat, b: nat): State {
    Table(s, i, Small(Staking(a), Some(Staking(b)), 100), a + b, true, 0)
  }

  lemma EmptyOfTable(s: State, i: Info, n: Small, total: nat, rest: nat, outside: nat)
    ensures Empty(Table(s, i, n, total, true, 0), rest, outside) == Empty(s, rest, outside)
  {
    assert s.totals[1 := total][1 := rest] == s.totals[1 := rest];
  }

  /** The operator's stake leaves the total, the delegator's does not. */
  lemma StepRemove(s: State, i: Info, a: nat, b: nat, tokens: nat)
    requires tokens == a + b
    ensures Enabled(StakedTable(s, i, a, b), RemoveNode(i.id))
    ensures Apply(StakedTable(s, i, a, b), RemoveNode(i.id)) == Empty(s, b, tokens)
  {
    var n := Small(Staking(a), Some(Staking(b)), 100);
    StakedTokens(i, a, b);
    RemoveOnly(StakedTable(s, i, a, b), i, n.Record(i), b, tokens);
    EmptyOfTable(s, i, n, tokens, b, tokens);
  }

  // ---------------------------------------------------------------- a removal that leaves a total behind

  /** Tables are valid that hold the supply and whose total covers the stakes. */
  lemma TableInvariant(s: State, i: Info, n: Small, total: nat, outside: nat)
    requires Fresh(s) && i.Valid() && n.Covered() && n.Add(Staked) <= total <= MAX_UFIX64
    requires s.supply == n.Add(Tokens) + outside <= MAX_UFIX64
    requires s.allowance <= MAX_UFIX64 && s.payout <= MAX_UFIX64 && s.cut <= MAX_UFIX64
    ensures Inv(Table(s, i, n, total, true, outside))
  {
    TableIsSum(i, n, ROLES, Tokens);
    TableCovers(s, i, n, total, outside);
    RecordOk(i, n);
    TableClaims(s, i, n, total, outside);
  }

  lemma RecordOk(i: Info, n: Small)
    requires i.Valid() && n.Covered()
    ensures NodeOk(i.id, n.Record(i))
  {
  }

  lemma TableCovers(s: State, i: Info, n: Small, total: nat, outside: nat)
    requires Fresh(s) && n.Add(Staked) <= total <= MAX_UFIX64
    ensures InvTotals(Table(s, i, n, total, true, outside))
  {
    TableStakes(s, i, n, total, outside);
  }

  lemma TableStakes(s: State, i: Info, n: Small, total: nat, outside: nat)
    requires Fresh(s)
    ensures var t := Table(s, i, n, total, true, outside);
            && t.totals.Keys == ROLES
            && Drift(t, 1) == total - n.Add(Staked)
            && forall r <- ROLES | r != 1 :: Drift(t, r) == 0 == RoleStaked(t.nodes, r)
  {
    forall r | r in ROLES {
      TableIsSum(i, n, {r}, Staked);
    }
  }

  lemma TableClaims(s: State, i: Info, n: Small, total: nat, outside: nat)
    ensures InvClaims(Table(s, i, n, total, true, outside))
  {
    var t := Table(s, i, n, total, true, outside);
    assert i.id in t.nodes && t.nodes[i.id] == n.Record(i);
    assert LiveClaims(t.nodes) == t.claims.value;
  }

  /** A deployed table with this supply. */
  function Deployed(supply: UFix64): State { Initial(0, 0, supply, 0) }

  lemma StakedInvariant(s: State, i: Info, a: nat, b: nat)
    requires Fresh(s) && i.Valid() && s.supply == a + b <= MAX_UFIX64
    requires s.allowance <= MAX_UFIX64 && s.payout <= MAX_UFIX64 && s.cut <= MAX_UFIX64
    ensures Inv(StakedTable(s, i, a, b))
  {
    StakedSums(a, b);
    TableInvariant(s, i, Small(Staking(a), Some(Staking(b)), 100), a + b, 0);
  }

  lemma StakedDrift(s: State, i: Info, a: nat, b: nat)
    requires Fresh(s)
    ensures forall r <- ROLES :: r in StakedTable(s, i, a, b).totals && Drift(StakedTable(s, i, a, b), r) == 0
  {
    StakedSums(a, b);
    TableStakes(s, i, Small(Staking(a), Some(Staking(b)), 100), a + b, 0);
  }

  lemma StakedSums(a: nat, b: nat)
    ensures Small(Staking(a), Some(Staking(b)), 100).Add(Tokens) == a + b
    ensures Small(Staking(a), Some(Staking(b)), 100).Add(Staked) == a + b
  {
  }

  /** Of a table with one unit staked by a node and one by its delegator, removing the node leaves the role's
      total one unit above the stake of the table, which is empty. */
  lemma RemovalCanBreakTotals()
    ensures var s := StakedTable(Deployed(2), SomeInfo(), 1, 1);
            && Inv(s) && (forall r <- ROLES :: Drift(s, r) == 0)
            && Enabled(s, RemoveNode(SomeInfo().id))
            && Apply(s, RemoveNode(SomeInfo().id)) == Empty(Deployed(2), 1, 2)
            && Drift(Empty(Deployed(2), 1, 2), 1) == 1
  {
    DeployedIsFresh(2);
    StakedInvariant(Deployed(2), SomeInfo(), 1, 1);
    StakedDrift(Deployed(2), SomeInfo(), 1, 1);
    StepRemove(Deployed(2), SomeInfo(), 1, 1, 2);
  }

  // ---------------------------------------------------------------- staking again that restores nothing

  lemma CanAsk(s: State, i: Info, h: Holder, amount: nat)
    requires Fresh(s) && CanRequest(h, amount)
    ensures Enabled(Table(s, i, Small(h, None, 100), h.staked, true, 0), Use(Operator(i.id), RequestUnstaking, amount))
  {
    assert Small(h, None, 100).Record(i).delegators == map[];
  }

  /** With one unit committed and one requested, asking for one more takes the committed one, and staking one
      again cancels the request instead of committing it back. */
  lemma RestakingCanServeAnotherRequest()
    ensures var s, who := Table(Deployed(2), SomeInfo(), Small(Holder(1, 1, 0, 0, 0, 1), None, 100), 1, true, 0),
                          Operator(SomeInfo().id);
            var ask, restake := Use(who, RequestUnstaking, 1), Use(who, StakeUnstaked, 1);
            Inv(s) && Enabled(s, ask) && Enabled(Apply(s, ask), restake) && Apply(Apply(s, ask), restake) != s
  {
    var h := Holder(1, 1, 0, 0, 0, 1);
    var n := Small(h, None, 100);
    assert n.Add(Tokens) == 2 && n.Add(Staked) == 1;
    DeployedIsFresh(2);
    TableInvariant(Deployed(2), SomeInfo(), n, 1, 0);
    CanAsk(Deployed(2), SomeInfo(), h, 1);
    RequestThenRestake(Table(Deployed(2), SomeInfo(), n, 1, true, 0), Operator(SomeInfo().id), 1);
  }

  // ---------------------------------------------------------------- a move that runs out of room

  lemma NoRoomAgain(s: State, i: Info, c: nat, total: nat, outside: nat)
    requires Fresh(s) && MAX_UFIX64 < total + c
    ensures var t := Table(s, i, Small(Committing(c), None, 100), total, false, outside);
            AllMinimumsKnown(t) && MovedTotal(t, 1) == total + c && forall order :: !Enabled(t, MoveTokens(order))
  {
    var n := Small(Committing(c), None, 100);
    assert n.Add(Committed) == c && n.Add(Requested) == 0;
    TableMoves(s, i, n, total, outside, 1);
  }

  /** A run of n steps that all go through, from s to end. */
  ghost predicate Leads(s: State, run: seq<Step>, end: State, n: nat) {
    IsRun(s, run) && Final(s, run) == end && |run| == n && forall step <- run :: step.ok
  }

  /** A step that goes through, in front of such a run. */
  lemma Extend(s: State, op: Op, t: State, run: seq<Step>, end: State, n: nat) returns (longer: seq<Step>)
    requires Enabled(s, op) && Apply(s, op) == t && Leads(t, run, end, n)
    ensures Leads(s, longer, end, n + 1)
  {
    longer := [Step(op, true, t)] + run;
    assert longer[1..] == run;
  }

  /** A node enters an empty table with c of all tokens, and the auction ends. */
  lemma EnterAndClose(s: State, i: Info, c: nat, total: nat, outside: nat, tokens: nat, end: State)
    returns (run: seq<Step>)
    requires Fresh(s) && i.Valid() && s.minimums[1] <= c && tokens == c + outside
    requires end == EndTable(s, i, c, total, outside)
    ensures Leads(Empty(s, total, tokens), run, end, 2)
  {
    var n := Small(Committing(c), None, 0);
    StepClose(s, i, n, total, outside);
    run := Extend(Table(s, i, n, total, true, outside), EndAuction({i.id}), end, [], end, 0);
    run := EnterFirst(s, i, c, total, outside, tokens, run, end, 1);
  }

  /** A table in which the auction has ended and the node has committed c. */
  function EndTable(s: State, i: Info, c: nat, total: nat, outside: nat): State {
    Table(s, i, Small(Committing(c), None, 100), total, false, outside)
  }

  lemma EnterFirst(s: State, i: Info, c: nat, total: nat, outside: nat, tokens: nat, rest: seq<Step>, end: State,
                   k: nat)
    returns (run: seq<Step>)
    requires i.Valid() && tokens == c + outside
    requires Leads(Table(s, i, Small(Committing(c), None, 0), total, true, outside), rest, end, k)
    ensures Leads(Empty(s, total, tokens), run, end, k + 1)
  {
    StepEnter(s, i, c, total, outside, tokens);
    run := Extend(Empty(s, total, tokens), i.Enter(c),
                  Table(s, i, Small(Committing(c), None, 0), total, true, outside), rest, end, k);
  }

  /** The node with a stake of a and a delegator with b is removed. */
  lemma RemoveFirst(s: State, i: Info, a: nat, b: nat, tokens: nat, rest: seq<Step>, end: State, k: nat)
    returns (run: seq<Step>)
    requires tokens == a + b && Leads(Empty(s, b, tokens), rest, end, k)
    ensures Leads(StakedTable(s, i, a, b), run, end, k + 1)
  {
    StepRemove(s, i, a, b, tokens);
    run := Extend(StakedTable(s, i, a, b), RemoveNode(i.id), Empty(s, b, tokens), rest, end, k);
  }

  /** A table in which a node has committed a and its delegator b. */
  function BackedTable(s: State, i: Info, a: nat, b: nat): State {
    Table(s, i, Small(Committing(a), Some(Committing(b)), 0), 0, true, 0)
  }

  /** What they committed moves when the auction has ended. */
  lemma CloseAndMove(s: State, i: Info, a: nat, b: nat, rest: seq<Step>, end: State, k: nat) returns (run: seq<Step>)
    requires Fresh(s) && s.minimums[1] <= a && a + b <= MAX_UFIX64
    requires Leads(StakedTable(s, i, a, b), rest, end, k)
    ensures Leads(BackedTable(s, i, a, b), run, end, k + 2)
  {
    var n := Small(Committing(a), Some(Committing(b)), 100);
    BothCommitted(i, a, b);
    StepMove(s, i, n, 0, 0, Small(Staking(a), Some(Staking(b)), 100), a + b);
    run := Extend(Table(s, i, n, 0, false, 0), MoveTokens(OnlyOrder(i, n)), StakedTable(s, i, a, b), rest, end, k);
    StepClose(s, i, n.(weight := 0), 0, 0);
    run := Extend(BackedTable(s, i, a, b), EndAuction({i.id}), Table(s, i, n, 0, false, 0), run, end, k + 1);
  }

  lemma BothCommitted(i: Info, a: nat, b: nat)
    ensures var n := Small(Committing(a), Some(Committing(b)), 100);
            && n.Add(Committed) == a + b && n.Add(Requested) == 0 && n.Add(Staked) == 0 && n.Covered()
            && MoveNode(n.Record(i)) == Small(Staking(a), Some(Staking(b)), 100).Record(i)
  {
    assert Move(Committing(a)) == Staking(a) && Move(Committing(b)) == Staking(b);
  }

  /** A delegator registers and commits b. */
  lemma JoinAndBack(s: State, i: Info, a: nat, b: nat, rest: seq<Step>, end: State, k: nat) returns (run: seq<Step>)
    requires Fresh(s) && s.minimums[1] <= a
    requires Leads(BackedTable(s, i, a, b), rest, end, k)
    ensures Leads(Table(s, i, Small(Committing(a), None, 0), 0, true, b), run, end, k + 2)
  {
    var joined := Table(s, i, Small(Committing(a), Some(EMPTY_HOLDER), 0), 0, true, b);
    StepBack(s, i, Committing(a), b);
    run := Extend(joined, Use(Delegate(i.id, 1), StakeNew, b), BackedTable(s, i, a, b), rest, end, k);
    StepJoin(s, i, Committing(a), 0, b);
    run := Extend(Table(s, i, Small(Committing(a), None, 0), 0, true, b), RegisterDelegator(i.id), joined,
                  run, end, k + 1);
  }

  /** A delegator registers and commits b, both stakes are moved, and the node is removed. */
  lemma StakedAndRemoved(s: State, i: Info, a: nat, b: nat, tokens: nat, rest: seq<Step>, end: State, k: nat)
    returns (run: seq<Step>)
    requires Fresh(s) && s.minimums[1] <= a && a + b == tokens <= MAX_UFIX64
    requires Leads(Empty(s, b, tokens), rest, end, k)
    ensures Leads(Table(s, i, Small(Committing(a), None, 0), 0, true, b), run, end, k + 5)
  {
    run := RemoveFirst(s, i, a, b, tokens, rest, end, k);
    run := CloseAndMove(s, i, a, b, run, end, k + 1);
    run := JoinAndBack(s, i, a, b, run, end, k + 3);
  }

  /** Eight transactions after which the tokens cannot be moved: a delegator stakes b, its node is removed, and
      as soon as it commits c, the total of its role, which still counts the delegator's stake, has no room. */
  lemma RunsOutOfRoom(s: State, i: Info, a: nat, b: nat, c: nat, outside: nat, tokens: nat, end: State)
    returns (run: seq<Step>)
    requires Fresh(s) && i.Valid() && s.minimums[1] <= a && s.minimums[1] <= c
    requires tokens == a + b == c + outside && tokens <= MAX_UFIX64 < b + c
    requires end == EndTable(s, i, c, b, outside)
    ensures Leads(Empty(s, 0, tokens), run, end, 8)
  {
    run := EnterAndClose(s, i, c, b, outside, tokens, end);
    run := StakedAndRemoved(s, i, a, b, tokens, run, end, 2);
    run := EnterFirst(s, i, a, 0, b, tokens, run, end, 7);
  }

  lemma DeployedIsFresh(supply: UFix64)
    ensures Fresh(Deployed(supply)) && Deployed(supply).minimums[1] == 250_000 * ONE
    ensures Empty(Deployed(supply), 0, supply) == Deployed(supply)
  {
    assert Deployed(supply).totals[1 := 0] == Deployed(supply).totals;
  }

  /** And so a move can run out of room after eight transactions from deployment. */
  lemma MoveCanRunOutOfRoom() returns (run: seq<Step>, end: State)
    ensures Leads(Deployed(MAX_UFIX64), run, end, 8)
    ensures Inv(end) && !end.auction && AllMinimumsKnown(end) && forall order :: !Enabled(end, MoveTokens(order))
  {
    var min: nat := 250_000 * ONE;
    var rest: nat := MAX_UFIX64 - min;
    var s, i := Deployed(MAX_UFIX64), SomeInfo();
    DeployedIsFresh(MAX_UFIX64);
    end := EndTable(s, i, min + 1, rest, rest - 1);
    run := RunsOutOfRoom(s, i, min, rest, min + 1, rest - 1, MAX_UFIX64, end);
    NoRoomAgain(s, i, min + 1, rest, rest - 1);
    InitialInvariant(0, 0, MAX_UFIX64, 0);
    InvariantAlways(s, run);
  }

  // ---------------------------------------------------------------- a move that runs out of room on the way

  /** A node that has committed as much as it has staked and asked to unstake. */
  function Renewing(c: nat): Holder { Holder(c, c, 0, 0, 0, c) }

  lemma RenewingSums(c: nat)
    ensures var n := Small(Renewing(c), None, 100);
            n.Add(Committed) == c && n.Add(Requested) == c && n.Add(Staked) == c && n.Covered()
    ensures Commitment(Renewing(c)) == c
  {
  }

  /** What it commits is added to the total before its request is taken out. */
  lemma NoRoomOnTheWay(s: State, i: Info, c: nat, total: nat, outside: nat)
    requires Fresh(s) && total <= MAX_UFIX64 < total + c
    ensures var t := Table(s, i, Small(Renewing(c), None, 100), total, false, outside);
            AllMinimumsKnown(t) && MoveEnds(t) && forall order :: !Enabled(t, MoveTokens(order))
  {
    var n := Small(Renewing(c), None, 100);
    var t := Table(s, i, n, total, false, outside);
    RenewingSums(c);
    TableEnds(s, i, n, total, outside, total);
    forall order | OrderOf(order, t.nodes) ensures !TableFits(t.nodes, order, t.totals) {
      FirstNodeUnfit(i, n, order, t.totals);
    }
  }

  lemma FirstNodeUnfit(i: Info, n: Small, order: Order, before: map<nat, nat>)
    requires OrderOf(order, map[i.id := n.Record(i)]) && 1 in before && MAX_UFIX64 < before[1] + n.own.committed
    ensures !TableFits(map[i.id := n.Record(i)], order, before)
  {
    var nodes := map[i.id := n.Record(i)];
    NothingSummed(nodes, Measure({1}, Committed));
    NothingSummed(nodes, Measure({1}, Requested));
    assert Left(order.nodes, 0) == {i.id} && i.id in order.nodes[0..];
    LeftStep(order.nodes, 0, nodes.Keys);
    assert !NodeFitsAt(nodes, order, before, 0);
  }

  /** The operator of a table's only node, who has no delegators, asks to unstake or commits new tokens. */
  lemma StepUse(s: State, i: Info, h: Holder, action: Action, amount: nat, after: Holder, total: nat,
                outside: nat, rest: nat)
    requires action.RequestUnstaking? || action.StakeNew?
    requires CanAct(h, action, amount) && Act(h, action, amount) == after && outside == rest + In(action, amount)
    ensures var before, op := Table(s, i, Small(h, None, 100), total, true, outside),
                              Use(Operator(i.id), action, amount);
            Enabled(before, op) && Apply(before, op) == Table(s, i, Small(after, None, 100), total, true, rest)
  {
    var before := Table(s, i, Small(h, None, 100), total, true, outside);
    assert before.nodes[i.id].delegators == map[];
    OnlyUsed(before, i, Operator(i.id), action, amount);
    assert PutIn(before.nodes[i.id], Operator(i.id), after) == Small(after, None, 100).Record(i);
  }

  /** A node with c staked asks for all of it, commits as much anew, and the auction ends. */
  lemma RenewAndClose(s: State, i: Info, c: nat, total: nat, outside: nat, rest: nat, end: State)
    returns (run: seq<Step>)
    requires Fresh(s) && s.minimums[1] <= c && outside == rest + c
    requires end == Table(s, i, Small(Renewing(c), None, 100), total, false, rest)
    ensures Leads(Table(s, i, Small(Staking(c), None, 100), total, true, outside), run, end, 3)
  {
    var asked := Holder(0, c, 0, 0, 0, c);
    RenewingSums(c);
    StepClose(s, i, Small(Renewing(c), None, 100), total, rest);
    run := Extend(Table(s, i, Small(Renewing(c), None, 100), total, true, rest), EndAuction({i.id}), end, [], end, 0);
    StepUse(s, i, asked, StakeNew, c, Renewing(c), total, outside, rest);
    run := Extend(Table(s, i, Small(asked, None, 100), total, true, outside), Use(Operator(i.id), StakeNew, c),
                  Table(s, i, Small(Renewing(c), None, 100), total, true, rest), run, end, 1);
    StepUse(s, i, Staking(c), RequestUnstaking, c, asked, total, outside, outside);
    run := Extend(Table(s, i, Small(Staking(c), None, 100), total, true, outside),
                  Use(Operator(i.id), RequestUnstaking, c),
                  Table(s, i, Small(asked, None, 100), total, true, outside), run, end, 2);
  }

  lemma OneCommitted(i: Info, c: nat)
    ensures var n := Small(Committing(c), None, 100);
            && n.Add(Committed) == c && n.Add(Requested) == 0 && n.Add(Staked) == 0 && n.Covered()
            && MoveNode(n.Record(i)) == Small(Staking(c), None, 100).Record(i)
  {
    assert Move(Committing(c)) == Staking(c);
  }

  /** A node enters an empty table with c, which moves when the auction has ended. */
  lemma EnterAndMove(s: State, i: Info, c: nat, total: nat, outside: nat, tokens: nat, next: nat,
                     rest: seq<Step>, end: State, k: nat)
    returns (run: seq<Step>)
    requires Fresh(s) && i.Valid() && s.minimums[1] <= c && tokens == c + outside && next == total + c <= MAX_UFIX64
    requires Leads(Table(s, i, Small(Staking(c), None, 100), next, true, outside), rest, end, k)
    ensures Leads(Empty(s, total, tokens), run, end, k + 3)
  {
    var n := Small(Committing(c), None, 100);
    OneCommitted(i, c);
    StepMove(s, i, n, total, outside, Small(Staking(c), None, 100), next);
    run := Extend(Table(s, i, n, total, false, outside), MoveTokens(OnlyOrder(i, n)),
                  Table(s, i, Small(Staking(c), None, 100), next, true, outside), rest, end, k);
    StepClose(s, i, n.(weight := 0), total, outside);
    run := Extend(Table(s, i, n.(weight := 0), total, true, outside), EndAuction({i.id}),
                  Table(s, i, n, total, false, outside), run, end, k + 1);
    run := EnterFirst(s, i, c, total, outside, tokens, run, end, k + 2);
  }

  /** Twelve transactions: as before, but the node only commits what the total has room for, and then renews it. */
  lemma RunsOutOnTheWay(s: State, i: Info, a: nat, b: nat, rest: nat, tokens: nat, end: State)
    returns (run: seq<Step>)
    requires Fresh(s) && i.Valid() && s.minimums[1] <= a && b == rest + a && tokens == a + b <= MAX_UFIX64
    requires end == Table(s, i, Small(Renewing(a), None, 100), tokens, false, rest)
    ensures Leads(Empty(s, 0, tokens), run, end, 12)
  {
    run := RenewAndClose(s, i, a, tokens, b, rest, end);
    run := EnterAndMove(s, i, a, b, b, tokens, tokens, run, end, 3);
    run := StakedAndRemoved(s, i, a, b, tokens, run, end, 6);
    run := EnterFirst(s, i, a, 0, b, tokens, run, end, 11);
  }

  /** So a move can run out of room on the way although all stakes after it fit. */
  lemma MoveCanRunOutOnTheWay() returns (run: seq<Step>, end: State)
    ensures Leads(Deployed(MAX_UFIX64), run, end, 12)
    ensures Inv(end) && !end.auction && AllMinimumsKnown(end) && RequestsCovered(end.nodes)
    ensures StakesFit(Moved(end.nodes), end) && forall order :: !Enabled(end, MoveTokens(order))
  {
    var min: nat := 250_000 * ONE;
    var rest: nat := MAX_UFIX64 - min;
    var s, i := Deployed(MAX_UFIX64), SomeInfo();
    DeployedIsFresh(MAX_UFIX64);
    end := Table(s, i, Small(Renewing(min), None, 100), MAX_UFIX64, false, rest - min);
    run := RunsOutOnTheWay(s, i, min, rest, rest - min, MAX_UFIX64, end);
    NoRoomOnTheWay(s, i, min, MAX_UFIX64, rest - min);
    InitialInvariant(0, 0, MAX_UFIX64, 0);
    InvariantAlways(s, run);
    MoveEndsExactly(end);
  }

  // ---------------------------------------------------------------- a delegator that outstays its operator

  /** A deployed table after the minimums were set to nothing. */
  function WithoutMinimum(supply: UFix64): State {
    Deployed(supply).(minimums := map[1 := 0, 2 := 0, 3 := 0, 4 := 0, 5 := 0])
  }

  /** The operator unstakes everything and is approved all the same: its delegator stays. */
  lemma DelegatorCanStay()
    ensures var s, id := StakedTable(WithoutMinimum(2), SomeInfo(), 1, 1), SomeInfo().id;
            && Inv(s) && Enabled(s, Use(Operator(id), UnstakeAll, 0))
            && var after := Apply(s, Use(Operator(id), UnstakeAll, 0));
               && Enabled(after, EndAuction({id})) && id in Apply(after, EndAuction({id})).nodes
               && !Leaving(Apply(after, EndAuction({id})).nodes[id])
  {
    DeployedIsFresh(2);
    StakedInvariant(WithoutMinimum(2), SomeInfo(), 1, 1);
    UnstakeAllLeavesOther(WithoutMinimum(2), SomeInfo(), 1, 1);
  }

  lemma UnstakeAllLeavesOther(s: State, i: Info, a: nat, b: nat)
    requires Fresh(s) && s.minimums[1] == 0 && b > 0
    ensures var t := StakedTable(s, i, a, b);
            && Enabled(t, Use(Operator(i.id), UnstakeAll, 0))
            && var after := Apply(t, Use(Operator(i.id), UnstakeAll, 0));
               && Enabled(after, EndAuction({i.id})) && i.id in Apply(after, EndAuction({i.id})).nodes
               && !Leaving(Apply(after, EndAuction({i.id})).nodes[i.id])
  {
    var t := StakedTable(s, i, a, b);
    assert t.nodes[i.id].delegators == map[1 := Staking(b)] && !DelegatorsLeaving(t.nodes[i.id]);
    UnstakeAllThenClose(t, i.id, {i.id});
  }

  // ---------------------------------------------------------------- the amounts in the repository's tests

  function Published(staked: nat, rewarded: nat): Holder { EMPTY_HOLDER.(staked := staked, rewarded := rewarded) }

  /** An execution node with 1.4 million staked and two delegators with 100 000 and 200 000. */
  function PublishedNode(): NodeRecord {
    NodeRecord(3, "", "", "", Published(1_400_000 * ONE, 106_060_605_000_000),
               map[1 := Published(100_000 * ONE, 0), 2 := Published(200_000 * ONE, 0)], 2, 100)
  }

  lemma TwoDelegators(dels: map<nat, Holder>, f: Holder -> int)
    requires dels.Keys == {1, 2}
    ensures SumOver(dels, f) == f(dels[1]) + f(dels[2])
  {
    SumOverRemove(dels, 1, f);
    SumOverRemove(dels - {1}, 2, f);
    assert dels - {1} - {2} == map[];
  }

  /** With a payout of 1.25 million, a total stake of 1.65 million pays 1060606.05 for 1.4 million; the next
      epoch, at a total of 3.72 million and a cut of 8 %, brings that operator to 1539100.666 and its
      delegators to 30913.978 and 61827.956. */
  lemma PublishedRewards()
    ensures Reward(Published(1_400_000 * ONE, 0), Over(1_250_000 * ONE, 1_650_000 * ONE)) == 106_060_605_000_000
    ensures var scale, cut := Over(1_250_000 * ONE, 3_720_000 * ONE), 8_000_000;
            && CutFits(PublishedNode().delegators, scale, cut)
            && var paid := PayNode(PublishedNode(), scale, cut);
               && paid.own.rewarded == 153_910_066_600_000
               && paid.delegators[1].rewarded == 3_091_397_800_000
               && paid.delegators[2].rewarded == 6_182_795_600_000
  {
    var scale, cut: nat := Over(1_250_000 * ONE, 3_720_000 * ONE), 8_000_000;
    var a, b := Published(100_000 * ONE, 0), Published(200_000 * ONE, 0);
    assert scale == 33_602_150;
    assert Reward(a, scale) == 3_360_215_000_000 && Cut(a, scale, cut) == 268_817_200_000;
    assert Reward(b, scale) == 6_720_430_000_000 && Cut(b, scale, cut) == 537_634_400_000;
    assert Reward(PublishedNode().own, scale) == 47_043_010_000_000;
    TwoDelegators(PublishedNode().delegators, CutOf(scale, cut));
    assert CutOf(scale, cut)(a) == Cut(a, scale, cut) && CutOf(scale, cut)(b) == Cut(b, scale, cut);
  }
}
