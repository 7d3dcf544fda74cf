/** What an operator's or a delegator's own transactions do to its five vaults, as the contract runs
    them. A result of false stands for an aborted transaction. Every `Plus` and `Minus` is a place where
    an amount that does not fit would abort. */
module Vaults {
  import opened Fixed
  import opened Sums
  import opened Ledger
  import opened Steps
  import opened Invariants

  /** No node holds more than the supply leaves it, and what is outside fits. */
  lemma NodeWithin(s: State, id: string)
    requires Inv(s) && id in s.nodes
    ensures NodeTokens(s.nodes[id]) + s.outside <= s.supply
  {
    NodeAtMostTable(s.nodes, id, ROLES, Tokens);
    assert NodeOk(id, s.nodes[id]);
  }

  lemma OutsideWithin(s: State)
    requires Inv(s)
    ensures s.outside <= s.supply
  {
    MeasureMono(s.nodes, ROLES, ROLES, Tokens, Tokens);
  }

  lemma HolderWithin(s: State, who: Who)
    requires Inv(s) && Exists(s.nodes, who)
    ensures Tokens(Get(s.nodes, who)) + s.outside <= s.supply
    ensures Get(s.nodes, who).request <= Get(s.nodes, who).staked
  {
    NodeWithin(s, who.id);
    assert NodeOk(who.id, s.nodes[who.id]);
    SumOverNonNegative(s.nodes[who.id].delegators, Tokens);
    if who.Delegate? {
      assert Tokens(s.nodes[who.id].delegators[who.delegator]) <= SumOver(s.nodes[who.id].delegators, Tokens);
    }
  }

  predicate Sound(h: Holder) { Tokens(h) <= MAX_UFIX64 && h.request <= h.staked }

  method Commit(h: Holder, tokens: UFix64) returns (out: Holder)
    requires Sound(h) && Tokens(h) + tokens <= MAX_UFIX64
    ensures out == Act(h, StakeNew, tokens)
  {
    out := h.(committed := Plus(h.committed, tokens));
  }

  /** Staking unstaked tokens cancels pending requests first. */
  method CommitUnstaked(h: Holder, amount: UFix64) returns (ok: bool, out: Holder)
    requires Sound(h)
    ensures ok <==> CanAct(h, StakeUnstaked, amount)
    ensures ok ==> out == Act(h, StakeUnstaked, amount)
  {
    var remaining, request := amount, h.request;
    if remaining <= request {
      request, remaining := Minus(request, remaining), 0;
    } else {
      remaining, request := Minus(remaining, request), 0;
    }
    if remaining > h.unstaked {
      return false, h;
    }
    ok := true;
    out := h.(request := request, unstaked := Minus(h.unstaked, remaining), committed := Plus(h.committed, remaining));
  }

  method CommitRewarded(h: Holder, amount: UFix64) returns (ok: bool, out: Holder)
    requires Sound(h)
    ensures ok <==> CanAct(h, StakeRewarded, amount)
    ensures ok ==> out == Act(h, StakeRewarded, amount)
  {
    if amount > h.rewarded {
      return false, h;
    }
    ok, out := true, h.(rewarded := Minus(h.rewarded, amount), committed := Plus(h.committed, amount));
  }

  /** Are there enough tokens for this request? A right-hand side beyond UFix64 aborts as well. */
  method EnoughToUnstake(h: Holder, amount: UFix64) returns (ok: bool)
    requires Sound(h)
    ensures ok <==> CanAct(h, RequestUnstaking, amount)
  {
    ok := Plus(h.staked, h.committed) >= amount + h.request;
  }

  method TakeRequest(h: Holder, amount: UFix64) returns (out: Holder)
    requires Sound(h) && CanAct(h, RequestUnstaking, amount)
    ensures out == Act(h, RequestUnstaking, amount)
  {
    if h.committed >= amount {
      out := h.(unstaked := Plus(h.unstaked, amount), committed := Minus(h.committed, amount));
    } else {
      var amountCommitted := h.committed;
      out := h.(unstaked := Plus(h.unstaked, amountCommitted), committed := 0);
      out := out.(request := Plus(out.request, Minus(amount, amountCommitted)));
    }
  }

  method TakeEverything(h: Holder) returns (out: Holder)
    requires Sound(h)
    ensures out == Act(h, UnstakeAll, 0)
  {
    out := h.(unstaked := Plus(h.unstaked, h.committed), committed := 0);
    out := out.(request := out.staked);
  }

  method ReleaseUnstaked(h: Holder, amount: UFix64) returns (ok: bool, out: Holder)
    requires Sound(h)
    ensures ok <==> CanAct(h, WithdrawUnstaked, amount)
    ensures ok ==> out == Act(h, WithdrawUnstaked, amount)
  {
    if amount > h.unstaked {
      return false, h;
    }
    ok, out := true, h.(unstaked := Minus(h.unstaked, amount));
  }

  method ReleaseRewarded(h: Holder, amount: UFix64) returns (ok: bool, out: Holder)
    requires Sound(h)
    ensures ok <==> CanAct(h, WithdrawRewarded, amount)
    ensures ok ==> out == Act(h, WithdrawRewarded, amount)
  {
    if amount > h.rewarded {
      return false, h;
    }
    ok, out := true, h.(rewarded := Minus(h.rewarded, amount));
  }
}
