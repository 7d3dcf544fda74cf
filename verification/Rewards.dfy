/** How much paying rewards mints, and when paying cannot abort. */
module Rewards {
  import opened Fixed
  import opened Sums
  import opened Ledger
  import opened Steps
  import opened Invariants

  function Holding(h: Holder): int { if h.staked > 0 then 1 else 0 }

  /** How many holders have a stake that counts towards the network's total. */
  ghost function Holders(nodes: map<string, NodeRecord>): int { TableSum(nodes, PAID_ROLES, Holding) }

  /** Sums whose parts are in proportion are in proportion. */
  lemma {:induction false} SumOverScaled<K(!new), V(!new)>(m: map<K, V>, a: int, f: V -> int, b: int, g: V -> int)
    requires forall k <- m :: a * f(m[k]) <= b * g(m[k])
    ensures a * SumOver(m, f) <= b * SumOver(m, g)
    decreases |m|
  {
    if m != map[] {
      var k :| k in m;
      SumOverRemove(m, k, f);
      SumOverRemove(m, k, g);
      SumOverScaled(m - {k}, a, f, b, g);
      assert a * (f(m[k]) + SumOver(m - {k}, f)) == a * f(m[k]) + a * SumOver(m - {k}, f);
      assert b * (g(m[k]) + SumOver(m - {k}, g)) == b * g(m[k]) + b * SumOver(m - {k}, g);
    }
  }

  /** A node's rewards are at most its stake's share at the given scale. */
  lemma MintedForAtMost(n: NodeRecord, scale: nat)
    requires n.role in ROLES
    ensures ONE * MintedFor(scale)(n) <= scale * Measure(PAID_ROLES, Staked)(n)
  {
    forall d | d in n.delegators
      ensures ONE * RewardOf(scale)(n.delegators[d]) <= scale * Staked(n.delegators[d])
    {
    }
    SumOverScaled(n.delegators, ONE, RewardOf(scale), scale, Staked);
    SumOverNonNegative(n.delegators, Staked);
    var own, theirs := Staked(n.own), SumOver(n.delegators, Staked);
    assert scale * (own + theirs) == scale * own + scale * theirs;
    assert ONE * Reward(n.own, scale) <= scale * own;
    assert scale * theirs >= 0;
  }

  lemma PaidStakeWithin(s: State)
    requires InvTotals(s)
    ensures 0 <= TableSum(s.nodes, PAID_ROLES, Staked) <= NetworkTotal(s.totals)
  {
    PaidRolesSplit(s.nodes, Staked);
    MeasureMono(s.nodes, PAID_ROLES, PAID_ROLES, Staked, Staked);
    assert forall r <- ROLES :: RoleStaked(s.nodes, r) <= s.totals[r];
  }

  /** However stakes are distributed and however the divisions truncate, paying rewards never mints
      more than the epoch's payout. */
  lemma MintsAtMostPayout(s: State)
    requires Inv(s) && NetworkTotal(s.totals) > 0
    ensures MintedBy(s) <= s.payout
  {
    var scale, total := Scale(s), NetworkTotal(s.totals);
    forall id | id in s.nodes
      ensures ONE * MintedFor(scale)(s.nodes[id]) <= scale * Measure(PAID_ROLES, Staked)(s.nodes[id])
    {
      assert NodeOk(id, s.nodes[id]);
      MintedForAtMost(s.nodes[id], scale);
    }
    SumOverScaled(s.nodes, ONE, MintedFor(scale), scale, Measure(PAID_ROLES, Staked));
    PaidStakeWithin(s);
    MulMono(scale, TableSum(s.nodes, PAID_ROLES, Staked), total);
    assert ONE * MintedBy(s) <= scale * total <= s.payout * ONE;
  }

  /** Nobody who counts is left out: the totals are exact, and no delegator's node goes unpaid. */
  ghost predicate NobodySkipped(s: State)
    requires s.totals.Keys == ROLES && NetworkTotal(s.totals) > 0
  {
    && NetworkTotal(s.totals) == TableSum(s.nodes, PAID_ROLES, Staked)
    && forall id <- s.nodes :: s.nodes[id].role in PAID_ROLES && !Paid(s.nodes[id], Scale(s)) ==>
         forall d <- s.nodes[id].delegators :: s.nodes[id].delegators[d].staked == 0
  }

  /** A truncated reward falls short of its share by less than one unit, and of nothing by nothing. */
  lemma RewardAlmostShare(h: Holder, scale: nat)
    ensures scale * Staked(h) <= ONE * (Reward(h, scale) + Holding(h))
  {
  }

  lemma DelegatorsAlmostShare(dels: map<nat, Holder>, scale: nat)
    ensures scale * SumOver(dels, Staked) <= ONE * (SumOver(dels, RewardOf(scale)) + SumOver(dels, Holding))
  {
    var due := (h: Holder) => Reward(h, scale) + Holding(h);
    forall d | d in dels ensures scale * Staked(dels[d]) <= ONE * due(dels[d]) {
      RewardAlmostShare(dels[d], scale);
    }
    SumOverScaled(dels, scale, Staked, ONE, due);
    SumOverAdd(dels, due, dels, RewardOf(scale), dels, Holding);
  }

  lemma NoStakeNoSum(dels: map<nat, Holder>)
    requires forall d <- dels :: dels[d].staked == 0
    ensures SumOver(dels, Staked) == 0 && SumOver(dels, Holding) == 0
  {
    SumOverSame(dels, Staked, dels, Holding);
    SumOverAdd(dels, Staked, dels, Staked, dels, Staked);
  }

  /** A node's rewards fall short of its stake's share by less than one unit for each holder. */
  lemma MintedForAtLeast(n: NodeRecord, scale: nat)
    requires n.role in ROLES
    requires n.role in PAID_ROLES && !Paid(n, scale) ==> forall d <- n.delegators :: n.delegators[d].staked == 0
    ensures scale * Measure(PAID_ROLES, Staked)(n) <= ONE * (MintedFor(scale)(n) + Measure(PAID_ROLES, Holding)(n))
  {
    RewardAlmostShare(n.own, scale);
    if n.role in PAID_ROLES {
      if Paid(n, scale) {
        DelegatorsAlmostShare(n.delegators, scale);
        Distribute(scale, Staked(n.own), SumOver(n.delegators, Staked));
      } else {
        NoStakeNoSum(n.delegators);
      }
    }
  }

  lemma Distribute(a: int, x: int, y: int)
    ensures a * (x + y) == a * x + a * y
  {
  }

  /** The table's rewards fall short of its stake's share by less than one unit for each holder. */
  lemma MintedAtLeast(nodes: map<string, NodeRecord>, scale: nat)
    requires NodesOk(nodes)
    requires forall id <- nodes :: nodes[id].role in PAID_ROLES && !Paid(nodes[id], scale) ==>
               forall d <- nodes[id].delegators :: nodes[id].delegators[d].staked == 0
    ensures scale * TableSum(nodes, PAID_ROLES, Staked) <= ONE * (Minted(nodes, scale) + Holders(nodes))
  {
    var due := (n: NodeRecord) => MintedFor(scale)(n) + Measure(PAID_ROLES, Holding)(n);
    forall id | id in nodes ensures scale * Measure(PAID_ROLES, Staked)(nodes[id]) <= ONE * due(nodes[id]) {
      assert NodeOk(id, nodes[id]);
      MintedForAtLeast(nodes[id], scale);
    }
    SumOverScaled(nodes, scale, Measure(PAID_ROLES, Staked), ONE, due);
    SumOverAdd(nodes, due, nodes, MintedFor(scale), nodes, Measure(PAID_ROLES, Holding));
  }

  /** When nobody who counts is left out, what is minted falls short of the payout by less than one unit
      per holder and the truncated scale's share of the total, S / 10^8 for a total of S. */
  lemma MintsAlmostPayout(s: State)
    requires Inv(s) && NetworkTotal(s.totals) > 0 && NobodySkipped(s)
    ensures (s.payout - MintedBy(s) - Holders(s.nodes)) * ONE < NetworkTotal(s.totals)
  {
    MintedAtLeast(s.nodes, Scale(s));
    Shortfall(s.payout, Scale(s), NetworkTotal(s.totals), MintedBy(s), Holders(s.nodes));
  }

  lemma Shortfall(payout: int, scale: int, total: int, minted: int, holders: int)
    requires payout * ONE < scale * total + total && scale * total <= ONE * (minted + holders)
    ensures (payout - minted - holders) * ONE < total
  {
  }

  // ---------------------------------------------------------------- aborting

  /** A cut of at most 1.0 never exceeds the reward it is taken from, whatever was minted. */
  lemma CutsAlwaysFit(nodes: map<string, NodeRecord>, scale: nat, cut: nat)
    requires cut <= ONE
    ensures CutsFit(nodes, scale, cut)
  {
    forall id, d | id in nodes && d in nodes[id].delegators
      ensures Cut(nodes[id].delegators[d], scale, cut) <= Reward(nodes[id].delegators[d], scale)
    {
      TimesAtMost(Reward(nodes[id].delegators[d], scale), cut);
    }
  }

  /** Paying aborts, for a cut of at most 1.0, only when the scale does not fit, the minter's allowance
      is below what is due, or the supply has no room for it; an allowance and room for the payout suffice. */
  lemma PayingCanProceed(s: State)
    requires Inv(s) && s.cut <= ONE && NetworkTotal(s.totals) <= MAX_UFIX64
    requires s.payout <= s.allowance && s.supply + s.payout <= MAX_UFIX64
    requires NetworkTotal(s.totals) > 0 ==> Scale(s) <= MAX_UFIX64
    ensures Enabled(s, PayRewards)
  {
    if NetworkTotal(s.totals) > 0 {
      CutsAlwaysFit(s.nodes, Scale(s), s.cut);
      MintsAtMostPayout(s);
    }
  }
}
