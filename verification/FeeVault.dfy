/** The fee contract: a vault anybody can deposit to and the administrator can withdraw from, and the
    events it emits. */
module FeeVault {
  import opened Fixed

  datatype Event = TokensDeposited(amount: UFix64) | TokensWithdrawn(amount: UFix64)

  function Change(e: Event): int {
    match e
    case TokensDeposited(amount) => amount
    case TokensWithdrawn(amount) => 0 - (amount as int)
  }

  /** What the events say is left. */
  function Balance(events: seq<Event>): int {
    if events == [] then 0
    else Balance(events[..|events| - 1]) + Change(events[|events| - 1])
  }

  /** A log in which nothing is withdrawn that was not there, at any time. */
  predicate Covered(events: seq<Event>) {
    forall n | 0 <= n <= |events| :: 0 <= Balance(events[..n]) <= MAX_UFIX64
  }

  lemma BalanceAfter(events: seq<Event>, e: Event)
    ensures Balance(events + [e]) == Balance(events) + Change(e)
    ensures Covered(events + [e]) <==> Covered(events) && 0 <= Balance(events + [e]) <= MAX_UFIX64
  {
    assert (events + [e])[..|events|] == events;
    assert (events + [e])[..|events| + 1] == events + [e];
    forall n | 0 <= n <= |events| ensures (events + [e])[..n] == events[..n] {
    }
    if Covered(events + [e]) {
      assert 0 <= Balance((events + [e])[..|events| + 1]) <= MAX_UFIX64;
      forall n | 0 <= n <= |events| ensures 0 <= Balance(events[..n]) <= MAX_UFIX64 {
        assert 0 <= Balance((events + [e])[..n]) <= MAX_UFIX64;
      }
    }
  }

  /** All that was deposited, and all that was withdrawn. */
  function Deposited(events: seq<Event>): nat {
    if events == [] then 0
    else (if events[0].TokensDeposited? then events[0].amount else 0) + Deposited(events[1..])
  }

  function Withdrawn(events: seq<Event>): nat {
    if events == [] then 0
    else (if events[0].TokensWithdrawn? then events[0].amount else 0) + Withdrawn(events[1..])
  }

  lemma {:induction false} SumsAfter(events: seq<Event>, e: Event)
    ensures Deposited(events + [e]) == Deposited(events) + if e.TokensDeposited? then e.amount else 0
    ensures Withdrawn(events + [e]) == Withdrawn(events) + if e.TokensWithdrawn? then e.amount else 0
  {
    if events == [] {
      assert [e][1..] == [];
    } else {
      assert (events + [e])[1..] == events[1..] + [e];
      SumsAfter(events[1..], e);
    }
  }

  /** The balance of a log is what was deposited less what was withdrawn. */
  lemma {:induction false} BalanceIsDifference(events: seq<Event>)
    ensures Balance(events) == Deposited(events) - Withdrawn(events)
    decreases |events|
  {
    if events != [] {
      var before, e := events[..|events| - 1], events[|events| - 1];
      assert events == before + [e];
      BalanceIsDifference(before);
      SumsAfter(before, e);
    }
  }

  /** In a covered log no more is withdrawn than was deposited before, at any time. */
  lemma NeverOverdrawn(events: seq<Event>, n: nat)
    requires Covered(events) && n <= |events|
    ensures Withdrawn(events[..n]) <= Deposited(events[..n]) <= Withdrawn(events[..n]) + MAX_UFIX64
  {
    BalanceIsDifference(events[..n]);
  }

  class FlowFees {
    var vault: UFix64
    var events: seq<Event>

    /** The vault holds what the events say, and the log never went below zero. */
    ghost predicate Valid()
      reads this
    {
      vault == Balance(events) && Covered(events)
    }

    constructor ()
      ensures Valid() && vault == 0 && events == []
    {
      vault, events := 0, [];
    }

    /** Aborts if the vault cannot hold the amount. */
    method Deposit(amount: UFix64) returns (ok: bool)
      requires Valid()
      modifies this
      ensures Valid()
      ensures ok <==> old(vault) + amount <= MAX_UFIX64
      ensures vault == if ok then old(vault) + amount else old(vault)
      ensures ok <==> Covered(old(events) + [TokensDeposited(amount)])
      ensures events == if ok then old(events) + [TokensDeposited(amount)] else old(events)
    {
      BalanceAfter(events, TokensDeposited(amount));
      ok := vault + amount <= MAX_UFIX64;
      if ok {
        vault, events := Plus(vault, amount), events + [TokensDeposited(amount)];
      }
    }

    /** Aborts if the vault does not hold the amount. */
    method Withdraw(amount: UFix64) returns (ok: bool)
      requires Valid()
      modifies this
      ensures Valid()
      ensures ok <==> amount <= old(vault)
      ensures vault == if ok then old(vault) - amount else old(vault)
      ensures ok <==> Covered(old(events) + [TokensWithdrawn(amount)])
      ensures events == if ok then old(events) + [TokensWithdrawn(amount)] else old(events)
    {
      BalanceAfter(events, TokensWithdrawn(amount));
      ok := amount <= vault;
      if ok {
        vault, events := Minus(vault, amount), events + [TokensWithdrawn(amount)];
      }
    }
  }
}
