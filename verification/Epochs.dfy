/** What an epoch means for a token holder: who is staked after the auction, how long unstaking
    takes, and what an operator with delegators always keeps committed. */
module Epochs {
  import opened Ledger
  import opened Orders
  import opened Steps
  import opened Invariants
  import opened Runs

  // ---------------------------------------------------------------- closing an epoch

  /** The auction has been decided for these approved nodes: every node is either in, or on its way out
      with everything it and its delegators have. */
  ghost predicate Settled(s: State, approved: set<string>) {
    && !s.auction
    && AllMinimumsKnown(s)
    && forall id <- s.nodes :: Stays(s, approved, id) || Leaving(s.nodes[id])
  }

  predicate Leaving(n: NodeRecord) {
    n.own.committed == 0 && n.own.request == n.own.staked && DelegatorsLeaving(n)
  }

  /** All that a node's delegators have committed or staked is on its way out. */
  predicate DelegatorsLeaving(n: NodeRecord) {
    forall d <- n.delegators :: n.delegators[d].committed == 0 && n.delegators[d].request == n.delegators[d].staked
  }

  /** Operations that do not reopen or redo the auction, and do not change its rules. */
  predicate BetweenAuctionAndMove(op: Op) {
    !op.StartAuction? && !op.EndAuction? && !op.RemoveUnapproved? && !op.MoveTokens? && !op.SetMinimums?
  }

  lemma EndAuctionSettles(s: State, approved: set<string>)
    requires Enabled(s, EndAuction(approved))
    ensures Settled(Apply(s, EndAuction(approved)), approved)
  {
    var after := Apply(s, EndAuction(approved));
    forall id | id in after.nodes
      ensures MinimumKnown(after, after.nodes[id].role)
      ensures Stays(after, approved, id) || Leaving(after.nodes[id])
    {
      assert MinimumKnown(s, s.nodes[id].role);
    }
  }

  lemma SettledStays(s: State, approved: set<string>, step: Step)
    requires Settled(s, approved) && Next(s, step) && BetweenAuctionAndMove(step.op)
    ensures Settled(step.after, approved)
  {
    if step.ok {
      match step.op {
        case Use(who, action, amount) =>
          assert !NeedsAuction(action);
          SettledUse(s, approved, who, action, amount);
        case PayRewards =>
          if NetworkTotal(s.totals) > 0 {
            PaidAligned(s.nodes, Scale(s), s.cut);
            SettledPay(s, approved);
          }
        case RemoveNode(id) => forall other | other in step.after.nodes
          ensures MinimumKnown(step.after, step.after.nodes[other].role)
          ensures Stays(step.after, approved, other) || Leaving(step.after.nodes[other])
        {
          assert MinimumKnown(s, s.nodes[other].role);
        }
        case _ =>
      }
    }
  }

  lemma SettledUse(s: State, approved: set<string>, who: Who, action: Action, amount: nat)
    requires Settled(s, approved) && Enabled(s, Use(who, action, amount))
    ensures Settled(Apply(s, Use(who, action, amount)), approved)
  {
    var after := Apply(s, Use(who, action, amount));
    forall id | id in after.nodes
      ensures MinimumKnown(after, after.nodes[id].role)
      ensures Stays(after, approved, id) || Leaving(after.nodes[id])
    {
      assert MinimumKnown(s, s.nodes[id].role);
      assert Stays(s, approved, id) || Leaving(s.nodes[id]);
    }
  }

  lemma SettledPay(s: State, approved: set<string>)
    requires Settled(s, approved) && Enabled(s, PayRewards)
    ensures Settled(Apply(s, PayRewards), approved)
  {
    if NetworkTotal(s.totals) > 0 {
      var after := Apply(s, PayRewards);
      forall id | id in after.nodes
        ensures MinimumKnown(after, after.nodes[id].role)
        ensures Stays(after, approved, id) || Leaving(after.nodes[id])
      {
        assert MinimumKnown(s, s.nodes[id].role);
        assert Stays(s, approved, id) || Leaving(s.nodes[id]);
        PayKeepsCommitments(s.nodes[id], Scale(s), s.cut);
      }
    }
  }

  lemma PayKeepsCommitments(n: NodeRecord, scale: nat, cut: nat)
    requires Paid(n, scale) ==> CutFits(n.delegators, scale, cut)
    ensures Commitment(PayNode(n, scale, cut).own) == Commitment(n.own)
    ensures Leaving(n) ==> Leaving(PayNode(n, scale, cut))
  {
  }

  lemma {:induction false} SettledAlways(s: State, approved: set<string>, run: seq<Step>)
    requires Settled(s, approved) && IsRun(s, run)
    requires forall i | 0 <= i < |run| :: BetweenAuctionAndMove(run[i].op)
    ensures Settled(Final(s, run), approved)
    decreases |run|
  {
    if run != [] {
      SettledStays(s, approved, run[0]);
      SettledAlways(run[0].after, approved, run[1..]);
    }
  }

  /** Everybody is staked with what they were committed to, and with nothing else pending. */
  ghost predicate CommitmentsRealized(before: State, after: State) {
    forall who :: Exists(before.nodes, who) ==>
      && Exists(after.nodes, who)
      && Get(after.nodes, who).staked == Commitment(Get(before.nodes, who))
      && Get(after.nodes, who).committed == 0 && Get(after.nodes, who).request == 0
  }

  /** Whoever has something staked does so on an approved node whose own stake meets its role's minimum. */
  ghost predicate OnlyApprovedStaked(s: State, approved: set<string>) {
    forall who :: Exists(s.nodes, who) && Get(s.nodes, who).staked > 0 ==>
      && who.id in approved
      && MinimumKnown(s, s.nodes[who.id].role)
      && MeetsMinimum(s.minimums, s.nodes[who.id].own.staked, s.nodes[who.id].role)
  }

  lemma MoveRealizes(before: State)
    requires NodesOk(before.nodes) && MoveEnds(before)
    ensures CommitmentsRealized(before, AfterMoving(before))
  {
    var after := AfterMoving(before);
    forall who | Exists(before.nodes, who)
      ensures Exists(after.nodes, who) && Get(after.nodes, who) == Move(Get(before.nodes, who))
      ensures Get(before.nodes, who).request <= Get(before.nodes, who).staked
    {
      AtMove(before, who);
    }
  }

  lemma SettledMove(before: State, approved: set<string>)
    requires NodesOk(before.nodes) && MoveEnds(before) && Settled(before, approved)
    ensures OnlyApprovedStaked(AfterMoving(before), approved)
  {
    var after := AfterMoving(before);
    MovedAligned(before.nodes);
    MoveRealizes(before);
    forall who | Exists(after.nodes, who) && Get(after.nodes, who).staked > 0
      ensures Stays(before, approved, who.id) && MinimumKnown(before, after.nodes[who.id].role)
      ensures after.nodes[who.id].own.staked == Commitment(before.nodes[who.id].own)
    {
      assert Exists(before.nodes, who) && Exists(before.nodes, Operator(who.id));
      assert Get(after.nodes, Operator(who.id)).staked == Commitment(Get(before.nodes, Operator(who.id)));
      assert MinimumKnown(before, before.nodes[who.id].role);
      assert Stays(before, approved, who.id) || Leaving(before.nodes[who.id]);
    }
  }

  /** After the auction ends with an approved list, and whatever happens before the tokens move:
      once they have moved, everybody's stake is what they were committed to, and a node has something
      staked, by itself or through a delegator, only if it is on the list and its own stake meets its
      role's minimum. */
  lemma EpochSettlement(s: State, approved: set<string>, run: seq<Step>, order: Order)
    requires Inv(s) && Enabled(s, EndAuction(approved))
    requires IsRun(Apply(s, EndAuction(approved)), run)
    requires forall i | 0 <= i < |run| :: BetweenAuctionAndMove(run[i].op)
    requires Enabled(Final(Apply(s, EndAuction(approved)), run), MoveTokens(order))
    ensures var before := Final(Apply(s, EndAuction(approved)), run);
            && CommitmentsRealized(before, Apply(before, MoveTokens(order)))
            && OnlyApprovedStaked(Apply(before, MoveTokens(order)), approved)
  {
    var closed := Apply(s, EndAuction(approved));
    EndAuctionSettles(s, approved);
    SettledAlways(closed, approved, run);
    InvariantKept(s, Step(EndAuction(approved), true, closed));
    InvariantAlways(closed, run);
    MoveRealizes(Final(closed, run));
    SettledMove(Final(closed, run), approved);
  }

  // ---------------------------------------------------------------- unstaking takes two moves

  /** No step of the run takes this node out of the table. */
  predicate NodeStaysIn(run: seq<Step>, id: string) {
    forall i | 0 <= i < |run| :: run[i].ok && run[i].op.RemoveNode? ==> run[i].op.id != id
  }

  /** How often tokens were moved. */
  function Moves(run: seq<Step>): nat {
    if run == [] then 0 else (if run[0].ok && run[0].op.MoveTokens? then 1 else 0) + Moves(run[1..])
  }

  /** What a holder commits in an operation from its own account or from its rewards. */
  function NewlyCommitted(op: Op, who: Who): nat {
    if op.Use? && op.who == who && (op.action.StakeNew? || op.action.StakeRewarded?) then op.amount else 0
  }

  /** What a holder takes out of its unstaked vault. */
  function TakenOut(op: Op, who: Who): nat {
    if op.Use? && op.who == who && op.action.WithdrawUnstaked? then op.amount else 0
  }

  function CommittedOver(run: seq<Step>, who: Who): nat {
    if run == [] then 0
    else (if run[0].ok then NewlyCommitted(run[0].op, who) else 0) + CommittedOver(run[1..], who)
  }

  function TakenOver(run: seq<Step>, who: Who): nat {
    if run == [] then 0
    else (if run[0].ok then TakenOut(run[0].op, who) else 0) + TakenOver(run[1..], who)
  }

  /** Between moves a holder's staked and unstaking vaults do not change, and unstaked gains
      only from committed. */
  lemma BetweenMoves(s: State, op: Op, who: Who)
    requires Enabled(s, op) && NodesOk(s.nodes) && Exists(s.nodes, who)
    requires !op.MoveTokens? && (op.RemoveNode? ==> op.id != who.id)
    ensures Exists(Apply(s, op).nodes, who)
    ensures var h, after := Get(s.nodes, who), Get(Apply(s, op).nodes, who);
            && after.staked == h.staked && after.unstaking == h.unstaking
            && after.unstaked + after.committed + TakenOut(op, who)
                 == h.unstaked + h.committed + NewlyCommitted(op, who)
  {
    if op.Use? {
      BetweenMovesUse(s, op, who);
    } else {
      BetweenMovesOther(s, op, who);
    }
  }

  lemma BetweenMovesOther(s: State, op: Op, who: Who)
    requires Enabled(s, op) && Exists(s.nodes, who)
    requires !op.Use? && !op.MoveTokens? && (op.RemoveNode? ==> op.id != who.id)
    ensures Exists(Apply(s, op).nodes, who)
    ensures var h, after := Get(s.nodes, who), Get(Apply(s, op).nodes, who);
            && after.staked == h.staked && after.unstaking == h.unstaking
            && after.unstaked + after.committed == h.unstaked + h.committed
  {
    match op {
      case EndAuction(approved) => BetweenMovesScreen(s, approved, who);
      case RemoveUnapproved(approved) => BetweenMovesScreen(s, approved, who);
      case PayRewards => BetweenMovesPay(s, who);
      case _ =>
    }
  }

  lemma BetweenMovesScreen(s: State, approved: set<string>, who: Who)
    requires AllMinimumsKnown(s) && Exists(s.nodes, who)
    ensures Exists(Screen(s, approved), who)
    ensures var h, after := Get(s.nodes, who), Get(Screen(s, approved), who);
            && after.staked == h.staked && after.unstaking == h.unstaking
            && after.unstaked + after.committed == h.unstaked + h.committed
  {
    ScreenAligned(s, approved);
  }

  lemma BetweenMovesPay(s: State, who: Who)
    requires CanPay(s) && Exists(s.nodes, who)
    ensures Exists(AfterPaying(s).nodes, who)
    ensures var h, after := Get(s.nodes, who), Get(AfterPaying(s).nodes, who);
            after.staked == h.staked && after.unstaking == h.unstaking
            && after.unstaked == h.unstaked && after.committed == h.committed
  {
    if NetworkTotal(s.totals) > 0 {
      PaidAligned(s.nodes, Scale(s), s.cut);
    }
  }

  lemma BetweenMovesUse(s: State, op: Op, who: Who)
    requires op.Use? && Enabled(s, op) && NodesOk(s.nodes) && Exists(s.nodes, who)
    ensures Exists(Apply(s, op).nodes, who)
    ensures var h, after := Get(s.nodes, who), Get(Apply(s, op).nodes, who);
            && after.staked == h.staked && after.unstaking == h.unstaking
            && after.unstaked + after.committed + TakenOut(op, who)
                 == h.unstaked + h.committed + NewlyCommitted(op, who)
  {
    var h := Get(s.nodes, op.who);
    GetPut(s.nodes, op.who, Act(h, op.action, op.amount), who);
    ActKeepsStaked(h, op.action, op.amount);
  }

  lemma ActKeepsStaked(h: Holder, action: Action, amount: nat)
    requires CanAct(h, action, amount)
    ensures var after := Act(h, action, amount);
            && after.staked == h.staked && after.unstaking == h.unstaking
            && after.unstaked + after.committed + (if action.WithdrawUnstaked? then amount else 0)
                 == h.unstaked + h.committed + (if action.StakeNew? || action.StakeRewarded? then amount else 0)
  {
  }

  /** Replacing one holder's vaults changes that holder and no other. */
  lemma GetPut(nodes: map<string, NodeRecord>, who: Who, h: Holder, other: Who)
    requires Exists(nodes, who)
    ensures Exists(Put(nodes, who, h), other) <==> Exists(nodes, other)
    ensures Exists(nodes, other) ==> (Get(Put(nodes, who, h), other) == if other == who then h else Get(nodes, other))
  {
  }

  lemma AtMove(s: State, who: Who)
    requires MoveEnds(s) && NodesOk(s.nodes) && Exists(s.nodes, who)
    ensures Exists(AfterMoving(s).nodes, who)
    ensures Get(s.nodes, who).request <= Get(s.nodes, who).staked
    ensures Get(AfterMoving(s).nodes, who) == Move(Get(s.nodes, who))
  {
    MovedAligned(s.nodes);
    assert NodeOk(who.id, s.nodes[who.id]);
  }

  /** What one attempted transaction other than its node's removal does to a holder's vaults. */
  lemma StepDelays(s: State, step: Step, who: Who)
    requires Next(s, step) && NodesOk(s.nodes) && Exists(s.nodes, who)
    requires step.ok && step.op.RemoveNode? ==> step.op.id != who.id
    ensures Exists(step.after.nodes, who)
    ensures var h, after := Get(s.nodes, who), Get(step.after.nodes, who);
            if step.ok && step.op.MoveTokens? then
              h.request <= h.staked && after == Move(h)
            else
              && after.staked == h.staked && after.unstaking == h.unstaking
              && after.unstaked + after.committed + (if step.ok then TakenOut(step.op, who) else 0)
                   == h.unstaked + h.committed + (if step.ok then NewlyCommitted(step.op, who) else 0)
  {
    if step.ok {
      if step.op.MoveTokens? {
        AtMove(s, who);
      } else {
        BetweenMoves(s, step.op, who);
      }
    }
  }

  /** Until the second move, whatever was staked is still staked or unstaking, and everything a holder
      has taken out of unstaked was committed, unstaking or unstaked, or came in later. */
  lemma {:induction false} UnstakingDelay(s: State, run: seq<Step>, who: Who)
    requires Inv(s) && IsRun(s, run) && Exists(s.nodes, who) && NodeStaysIn(run, who.id) && Moves(run) <= 1
    ensures Exists(Final(s, run).nodes, who)
    ensures var h, end := Get(s.nodes, who), Get(Final(s, run).nodes, who);
            && (Moves(run) == 0 ==> end.staked == h.staked && end.unstaking == h.unstaking)
            && h.staked <= end.staked + end.unstaking
            && end.unstaked + TakenOver(run, who)
                 <= h.unstaked + h.committed + CommittedOver(run, who) + (if Moves(run) == 0 then 0 else h.unstaking)
    decreases |run|
  {
    if run != [] {
      InvariantKept(s, run[0]);
      StepDelays(s, run[0], who);
      assert NodeStaysIn(run[1..], who.id);
      UnstakingDelay(run[0].after, run[1..], who);
    }
  }

  /** And two moves are enough: what is requested before the first is in unstaked after the second,
      unless it is taken out or staked again. */
  lemma TwoMovesRelease(s: State, order: Order, run: seq<Step>, next: Order, who: Who)
    requires Inv(s) && Enabled(s, MoveTokens(order)) && Exists(s.nodes, who)
    requires IsRun(Apply(s, MoveTokens(order)), run) && Moves(run) == 0 && NodeStaysIn(run, who.id)
    requires Enabled(Final(Apply(s, MoveTokens(order)), run), MoveTokens(next))
    ensures var middle := Final(Apply(s, MoveTokens(order)), run);
            && Exists(middle.nodes, who)
            && Exists(Apply(middle, MoveTokens(next)).nodes, who)
            && Get(Apply(middle, MoveTokens(next)).nodes, who).unstaked
                 == Get(middle.nodes, who).unstaked + Get(s.nodes, who).request
  {
    var first := Apply(s, MoveTokens(order));
    InvariantKept(s, Step(MoveTokens(order), true, first));
    AtMove(s, who);
    UnstakingDelay(first, run, who);
    InvariantAlways(first, run);
    AtMove(Final(first, run), who);
  }

  // ---------------------------------------------------------------- operators with delegators

  /** Operations after which the operator need not meet its minimum. */
  predicate RespectsFloor(op: Op, id: string) {
    match op
    case Use(who, action, _) => !(action.UnstakeAll? && who.id == id)
    case RemoveNode(other) => other != id
    case EndAuction(approved) => id in approved
    case RemoveUnapproved(approved) => id in approved
    case SetMinimums(_) => false
    case _ => true
  }

  /** An operator that somebody delegates to is itself committed to at least its role's minimum. */
  predicate HasFloor(s: State, id: string) {
    && id in s.nodes
    && MinimumKnown(s, s.nodes[id].role)
    && (s.nodes[id].delegators != map[] ==>
          MeetsMinimum(s.minimums, Commitment(s.nodes[id].own), s.nodes[id].role))
  }

  lemma FloorStays(s: State, op: Op, id: string)
    requires NodesOk(s.nodes) && Enabled(s, op) && RespectsFloor(op, id) && HasFloor(s, id)
    ensures HasFloor(Apply(s, op), id)
  {
    match op {
      case Use(_, _, _) => FloorUse(s, op, id);
      case PayRewards => FloorPay(s, id);
      case EndAuction(approved) => FloorScreen(s, approved, id);
      case RemoveUnapproved(approved) => FloorScreen(s, approved, id);
      case MoveTokens(_) => FloorMove(s, id);
      case RegisterDelegator(_) => FloorDelegator(s, op, id);
      case Register(_, _, _, _, _, _) => FloorOthers(s, op, id);
      case RemoveNode(_) => FloorOthers(s, op, id);
      case _ =>
    }
  }

  lemma FloorOthers(s: State, op: Op, id: string)
    requires (op.Register? || (op.RemoveNode? && op.id != id)) && Enabled(s, op) && HasFloor(s, id)
    ensures HasFloor(Apply(s, op), id)
  {
  }

  lemma FloorDelegator(s: State, op: Op, id: string)
    requires op.RegisterDelegator? && Enabled(s, op) && HasFloor(s, id)
    ensures HasFloor(Apply(s, op), id)
  {
  }

  lemma FloorPay(s: State, id: string)
    requires Enabled(s, PayRewards) && HasFloor(s, id)
    ensures HasFloor(Apply(s, PayRewards), id)
  {
    if NetworkTotal(s.totals) > 0 {
      PayKeepsCommitments(s.nodes[id], Scale(s), s.cut);
      assert PayNode(s.nodes[id], Scale(s), s.cut).delegators.Keys == s.nodes[id].delegators.Keys;
    }
  }

  lemma FloorMove(s: State, id: string)
    requires NodesOk(s.nodes) && MoveEnds(s) && HasFloor(s, id)
    ensures HasFloor(AfterMoving(s), id)
  {
    assert NodeOk(id, s.nodes[id]);
    assert Commitment(Move(s.nodes[id].own)) == Commitment(s.nodes[id].own);
    assert MoveNode(s.nodes[id]).delegators.Keys == s.nodes[id].delegators.Keys;
  }

  lemma FloorUse(s: State, op: Op, id: string)
    requires NodesOk(s.nodes) && op.Use? && Enabled(s, op) && RespectsFloor(op, id) && HasFloor(s, id)
    ensures HasFloor(Apply(s, op), id)
  {
    assert NodeOk(id, s.nodes[id]);
    if op.who.id == id && s.nodes[id].delegators != map[] {
      if op.who.Operator? {
        FloorAct(s, id, op.action, op.amount);
      }
    }
  }

  lemma FloorScreen(s: State, approved: set<string>, id: string)
    requires AllMinimumsKnown(s) && id in approved && HasFloor(s, id)
    ensures HasFloor(s.(nodes := Screen(s, approved)), id)
  {
    assert Stays(s, approved, id) ==> Screen(s, approved)[id] == s.nodes[id].(initialWeight := 100);
    assert !Stays(s, approved, id) ==> s.nodes[id].delegators == map[];
    if !Stays(s, approved, id) {
      assert Screen(s, approved)[id].delegators == map[];
    }
  }

  lemma FloorAct(s: State, id: string, action: Action, amount: nat)
    requires HasFloor(s, id) && CanUse(s, Operator(id), action, amount) && !action.UnstakeAll?
    requires s.nodes[id].own.request <= s.nodes[id].own.staked && s.nodes[id].delegators != map[]
    ensures MeetsMinimum(s.minimums, Commitment(Act(s.nodes[id].own, action, amount)), s.nodes[id].role)
  {
    var h := s.nodes[id].own;
    assert if action.RequestUnstaking? then Commitment(Act(h, action, amount)) == Commitment(h) - amount
           else Commitment(Act(h, action, amount)) >= Commitment(h);
  }

  /** Over a whole run in which it stays approved and in the table, does not unstake everything and the
      minimums stay, a node never drops below its role's minimum while it has delegators. */
  lemma {:induction false} FloorAlways(s: State, run: seq<Step>, id: string)
    requires Inv(s) && IsRun(s, run) && HasFloor(s, id)
    requires forall i | 0 <= i < |run| :: RespectsFloor(run[i].op, id)
    ensures HasFloor(Final(s, run), id)
    decreases |run|
  {
    if run != [] {
      InvariantKept(s, run[0]);
      if run[0].ok {
        FloorStays(s, run[0].op, id);
      }
      FloorAlways(run[0].after, run[1..], id);
    }
  }

  // ---------------------------------------------------------------- unstaking everything

  /** unstakeAll leaves the delegators as they were, so a node is on its way out after it exactly if its
      delegators already were. */
  lemma UnstakeAllSparesDelegators(s: State, id: string)
    requires Enabled(s, Use(Operator(id), UnstakeAll, 0))
    ensures var after := Apply(s, Use(Operator(id), UnstakeAll, 0));
            && after.nodes[id].delegators == s.nodes[id].delegators
            && (Leaving(after.nodes[id]) <==> DelegatorsLeaving(s.nodes[id]))
  {
  }

  /** If the auction is closed next, the delegators follow exactly if the node is not approved, or has a minimum
      that nothing does not meet, or if they were on their way out already. */
  lemma UnstakeAllThenClose(s: State, id: string, approved: set<string>)
    requires AllMinimumsKnown(s) && Enabled(s, Use(Operator(id), UnstakeAll, 0))
    ensures var after := Apply(s, Use(Operator(id), UnstakeAll, 0));
            && Enabled(after, EndAuction(approved))
            && (Leaving(Apply(after, EndAuction(approved)).nodes[id]) <==>
                  || id !in approved || s.nodes[id].role == ACCESS_ROLE || s.minimums[s.nodes[id].role] > 0
                  || DelegatorsLeaving(s.nodes[id]))
  {
    var after := Apply(s, Use(Operator(id), UnstakeAll, 0));
    assert MinimumKnown(s, s.nodes[id].role) && Commitment(after.nodes[id].own) == 0;
    forall other | other in after.nodes ensures MinimumKnown(after, after.nodes[other].role) {
      assert MinimumKnown(s, s.nodes[other].role);
    }
    assert Stays(after, approved, id) <==>
             id in approved && s.nodes[id].role != ACCESS_ROLE && s.minimums[s.nodes[id].role] == 0;
  }

  // ---------------------------------------------------------------- asking to unstake, and staking again

  /** An accepted request to unstake can always be taken back by staking the same amount from unstaked.
      That restores the holder's commitment, and it restores the whole state exactly when there was no
      request before, or nothing committed, or nothing asked for. */
  lemma RequestThenRestake(s: State, who: Who, amount: nat)
    requires Inv(s) && Enabled(s, Use(who, RequestUnstaking, amount))
    ensures var asked := Apply(s, Use(who, RequestUnstaking, amount));
            && Enabled(asked, Use(who, StakeUnstaked, amount))
            && var again := Apply(asked, Use(who, StakeUnstaked, amount));
               && Commitment(Get(again.nodes, who)) == Commitment(Get(s.nodes, who))
               && (again == s <==> Get(s.nodes, who).request == 0 || Get(s.nodes, who).committed == 0 || amount == 0)
  {
    var h := Get(s.nodes, who);
    var asked := Request(h, amount);
    HolderRequestThenRestake(h, amount);
    UseNoTokens(s, who, RequestUnstaking, amount);
    UseNoTokens(s.(nodes := Put(s.nodes, who, asked)), who, StakeUnstaked, amount);
    PutTwice(s.nodes, who, asked, Restake(asked, amount));
  }

  /** An action that neither brings tokens in nor takes them out only replaces the holder's vaults. */
  lemma UseNoTokens(s: State, who: Who, action: Action, amount: nat)
    requires action.RequestUnstaking? || action.StakeUnstaked?
    requires Exists(s.nodes, who) && CanAct(Get(s.nodes, who), action, amount)
    ensures Enabled(s, Use(who, action, amount)) <==>
              s.auction && (action.RequestUnstaking? ==> FloorKept(s, who, amount))
    ensures Enabled(s, Use(who, action, amount)) ==>
              Apply(s, Use(who, action, amount))
              == s.(nodes := Put(s.nodes, who, Act(Get(s.nodes, who), action, amount)))
  {
  }

  lemma HolderRequestThenRestake(h: Holder, amount: nat)
    requires CanRequest(h, amount)
    ensures CanRestake(Request(h, amount), amount)
    ensures Commitment(Restake(Request(h, amount), amount)) == Commitment(h)
    ensures Restake(Request(h, amount), amount) == h <==> h.request == 0 || h.committed == 0 || amount == 0
  {
  }

  /** Replacing twice leaves the second vaults; replacing by what was there changes nothing. */
  lemma PutTwice(nodes: map<string, NodeRecord>, who: Who, h: Holder, g: Holder)
    requires Exists(nodes, who)
    ensures Exists(Put(nodes, who, h), who) && Get(Put(nodes, who, h), who) == h
    ensures Exists(Put(Put(nodes, who, h), who, g), who) && Get(Put(Put(nodes, who, h), who, g), who) == g
    ensures Put(Put(nodes, who, h), who, g) == nodes <==> g == Get(nodes, who)
  {
    var n := nodes[who.id];
    if g == Get(nodes, who) {
      if who.Delegate? {
        assert n.delegators[who.delegator := h][who.delegator := g] == n.delegators;
      }
      assert PutIn(PutIn(n, who, h), who, g) == n;
      assert Put(Put(nodes, who, h), who, g) == nodes;
    }
  }

  // ---------------------------------------------------------------- metadata

  /** Removing a node frees its metadata: the same node can register again at once. */
  lemma RemovalFreesMetadata(s: State, id: string, amount: nat)
    requires Inv(s) && s.auction && Enabled(s, RemoveNode(id))
    requires amount <= Apply(s, RemoveNode(id)).outside
    ensures var n := s.nodes[id];
            Enabled(Apply(s, RemoveNode(id)),
                    Register(id, n.role, n.networkingAddress, n.networkingKey, n.stakingKey, amount))
  {
    assert NodeOk(id, s.nodes[id]);
  }

  /** While a node is in the table, nobody can register with its id or any of its metadata. */
  lemma MetadataIsTaken(s: State, id: string, op: Op)
    requires Inv(s) && id in s.nodes && op.Register?
    requires op.id == id || op.networkingAddress == s.nodes[id].networkingAddress
          || op.networkingKey == s.nodes[id].networkingKey || op.stakingKey == s.nodes[id].stakingKey
    ensures !Enabled(s, op)
  {
  }
}
