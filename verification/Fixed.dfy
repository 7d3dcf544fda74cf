/** Cadence's UFix64: an unsigned 64-bit integer that counts units of 10^-8.
    Addition, subtraction, multiplication and division abort the transaction when the
    result leaves the 64-bit range; multiplication and division truncate. */
module Fixed {
  const ONE: int := 100_000_000
  const MAX_UFIX64: int := 0xFFFF_FFFF_FFFF_FFFF
  const MAX_UINT32: int := 0xFFFF_FFFF

  type UFix64 = x: int | 0 <= x <= MAX_UFIX64

  /** Checked addition. The precondition is the condition under which it does not abort. */
  function Plus(a: UFix64, b: UFix64): UFix64
    requires a + b <= MAX_UFIX64
  {
    a + b
  }

  /** Checked subtraction. */
  function Minus(a: UFix64, b: UFix64): UFix64
    requires b <= a
  {
    a - b
  }

  /** The truncated product of two amounts, before the range check. */
  function Times(a: nat, b: nat): (r: nat)
    ensures r * ONE <= a * b < r * ONE + ONE
  {
    a * b / ONE
  }

  /** The truncated quotient of two amounts, before the range check. */
  function Over(a: nat, b: nat): (r: nat)
    requires b > 0
    ensures r * b <= a * ONE < r * b + b
  {
    QuotientBounds(a * ONE, b);
    a * ONE / b
  }

  lemma QuotientBounds(x: nat, b: nat)
    requires b > 0
    ensures x / b >= 0
    ensures (x / b) * b <= x < (x / b) * b + b
  {
    assert x == (x / b) * b + x % b;
  }

  /** A cut of at most 1.0 never takes more than the whole. */
  lemma TimesAtMost(a: nat, b: nat)
    requires b <= ONE
    ensures Times(a, b) <= a
  {
    assert a * b <= a * ONE by { MulMono(a, b, ONE); }
  }

  lemma MulMono(a: nat, b: int, c: int)
    requires b <= c
    ensures a * b <= a * c
  {
    assert a * (c - b) >= 0;
  }
}
