/** Whole runs of the table: any number of attempted transactions, in any order. */
module Runs {
  import opened Fixed
  import opened Sums
  import opened Ledger
  import opened Options
  import opened Steps
  import opened Invariants

  ghost predicate IsRun(s: State, run: seq<Step>)
    decreases |run|
  {
    run != [] ==> Next(s, run[0]) && IsRun(run[0].after, run[1..])
  }

  function Final(s: State, run: seq<Step>): State
    decreases |run|
  {
    if run == [] then s else Final(run[0].after, run[1..])
  }

  /** The table as the contract's initializer leaves it. */
  function Initial(payout: UFix64, cut: UFix64, supply: UFix64, allowance: UFix64): State {
    State(map[],
          map[1 := 250_000 * ONE, 2 := 500_000 * ONE, 3 := 1_250_000 * ONE, 4 := 135_000 * ONE, 5 := 0],
          map[1 := 0, 2 := 0, 3 := 0, 4 := 0, 5 := 0],
          payout, cut, true, Some(Claims({}, {}, {})), supply, allowance, supply)
  }

  lemma InitialInvariant(payout: UFix64, cut: UFix64, supply: UFix64, allowance: UFix64)
    ensures Inv(Initial(payout, cut, supply, allowance))
    ensures forall r <- ROLES :: Drift(Initial(payout, cut, supply, allowance), r) == 0
  {
    assert LiveClaims(map[]) == Claims({}, {}, {});
  }

  lemma {:induction false} InvariantAlways(s: State, run: seq<Step>)
    requires Inv(s) && IsRun(s, run)
    ensures Inv(Final(s, run))
    decreases |run|
  {
    if run != [] {
      InvariantKept(s, run[0]);
      InvariantAlways(run[0].after, run[1..]);
    }
  }

  // ---------------------------------------------------------------- conservation

  /** The balance of a run: deposits and minted rewards less withdrawals and refunds of removed nodes. */
  ghost function NetFlow(s: State, run: seq<Step>): int
    decreases |run|
  {
    if run == [] then 0
    else
      var op := run[0].op;
      (if run[0].ok then Deposited(op) + MintedIn(s, op) - Withdrawn(op) - Refunded(s, op) else 0)
      + NetFlow(run[0].after, run[1..])
  }

  ghost function MintedOver(s: State, run: seq<Step>): int
    decreases |run|
  {
    if run == [] then 0
    else (if run[0].ok then MintedIn(s, run[0].op) else 0) + MintedOver(run[0].after, run[1..])
  }

  /** Over any run the tokens in the table change by exactly the run's balance, and the supply of
      tokens by exactly the rewards it minted. */
  lemma {:induction false} RunConserves(s: State, run: seq<Step>)
    requires Inv(s) && IsRun(s, run)
    ensures TableTokens(Final(s, run).nodes) == TableTokens(s.nodes) + NetFlow(s, run)
    ensures Final(s, run).supply == s.supply + MintedOver(s, run)
    decreases |run|
  {
    if run != [] {
      InvariantKept(s, run[0]);
      if run[0].ok {
        Conserves(s, run[0].op);
        OutsideFollows(s, run[0].op);
      }
      RunConserves(run[0].after, run[1..]);
    }
  }

  // ---------------------------------------------------------------- totals

  /** The stake of removed nodes' delegators, over a run. */
  ghost function OrphanedOver(s: State, run: seq<Step>, role: nat): (r: int)
    ensures r >= 0
    decreases |run|
  {
    if run == [] then 0
    else (if run[0].ok then Orphaned(s, run[0].op, role) else 0) + OrphanedOver(run[0].after, run[1..], role)
  }

  /** Over any run a role's total drifts from what is really staked by exactly the stake of the
      delegators of the nodes the run removed: with no such stake the totals stay exact. */
  lemma {:induction false} DriftLaw(s: State, run: seq<Step>, role: nat)
    requires Inv(s) && IsRun(s, run) && role in ROLES
    ensures role in Final(s, run).totals
    ensures Drift(Final(s, run), role) == Drift(s, role) + OrphanedOver(s, run, role)
    decreases |run|
  {
    if run != [] {
      InvariantKept(s, run[0]);
      if run[0].ok {
        DriftOnlyByRemoval(s, run[0].op, role);
      }
      DriftLaw(run[0].after, run[1..], role);
    }
  }

  /** From deployment: every role's total, and the network's, is what is really staked, plus the
      orphaned stake of removed nodes' delegators. */
  lemma TotalsLaw(s: State, run: seq<Step>)
    requires Inv(s) && IsRun(s, run) && forall r <- ROLES :: Drift(s, r) == 0
    ensures var end := Final(s, run);
            && Inv(end)
            && (forall r <- ROLES :: end.totals[r] == RoleStaked(end.nodes, r) + OrphanedOver(s, run, r))
            && NetworkTotal(end.totals) == TableSum(end.nodes, PAID_ROLES, Staked)
                 + OrphanedOver(s, run, 1) + OrphanedOver(s, run, 2) + OrphanedOver(s, run, 3) + OrphanedOver(s, run, 4)
  {
    InvariantAlways(s, run);
    forall r | r in ROLES
      ensures Final(s, run).totals[r] == RoleStaked(Final(s, run).nodes, r) + OrphanedOver(s, run, r)
    {
      DriftLaw(s, run, r);
    }
    PaidRolesSplit(Final(s, run).nodes, Staked);
  }

  /** Removing a node keeps an exact total exact if and only if none of its delegators has a stake. */
  lemma RemovalKeepsTotals(s: State, id: string)
    requires Inv(s) && Enabled(s, RemoveNode(id))
    requires Drift(s, s.nodes[id].role) == 0
    ensures Drift(Apply(s, RemoveNode(id)), s.nodes[id].role) == 0
       <==> forall d <- s.nodes[id].delegators :: s.nodes[id].delegators[d].staked == 0
  {
    var dels := s.nodes[id].delegators;
    RemovalDrift(s, id, s.nodes[id].role);
    SumOverNonNegative(dels, Staked);
    if forall d <- dels :: dels[d].staked == 0 {
      SumOverSame(dels, Staked, dels, h => 0);
      SumOverAdd(dels, h => 0, dels, h => 0, dels, h => 0);
    }
  }
}
