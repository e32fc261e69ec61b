/** Products and quotients of reals, kept apart so that proofs that only move them around stay linear. */
module Quotients {

  const NANOS: int := 1_000_000_000

  /** A time in nanoseconds, in seconds. */
  function Seconds(elapsed: int): real {
    elapsed as real / NANOS as real
  }

  function Times(a: real, b: real): real {
    a * b
  }

  lemma Distribute(a: real, b: real, c: real)
    ensures Times(a + b, c) == Times(a, c) + Times(b, c)
    ensures Times(c, a + b) == Times(c, a) + Times(c, b)
  {}

  lemma TimesMonotone(a: real, b: real, c: real)
    requires a <= b && c >= 0.0
    ensures a * c <= b * c
  {}

  lemma TimesZero(a: real)
    ensures Times(a, 0.0) == 0.0 && Times(0.0, a) == 0.0
  {}

  lemma DivideThenMultiply(x: real, d: real)
    requires d > 0.0
    ensures x / d * d == x
    ensures x >= 0.0 ==> x / d >= 0.0
  {}

  /** The same part of a larger whole is no larger a share. */
  lemma LargerWhole(x: real, y: real, part: nat, whole: nat, larger: nat)
    requires 0 < whole <= larger && x * whole as real == part as real && y * larger as real == part as real
    ensures y <= x
  {
    assert 0.0 * larger as real <= y * larger as real;
    Cancel(0.0, y, larger as real);
    TimesMonotone(whole as real, larger as real, y);
    Cancel(y, x, whole as real);
  }

  lemma Cancel(a: real, b: real, c: real)
    requires c > 0.0 && a * c <= b * c
    ensures a <= b
  {}

  /** A part over its whole lies between 0 and 1. */
  lemma Share(part: nat, whole: nat)
    requires part <= whole && whole > 0
    ensures 0.0 <= part as real / whole as real <= 1.0
    ensures part as real / whole as real * whole as real == part as real
  {}
}
