/** Wrap-around of 64-bit signed integers, the carrier of time.Duration. */
module FixedWidth {
  const TWO_63 := 0x8000_0000_0000_0000
  const TWO_64 := 0x1_0000_0000_0000_0000

  predicate InInt64(x: int) {
    -TWO_63 <= x < TWO_63
  }

  /** Two's complement wrap-around. */
  function Wrap64(x: int): int {
    (x + TWO_63) % TWO_64 - TWO_63
  }

  lemma WrapIdentityIff(x: int)
    ensures Wrap64(x) == x <==> InInt64(x)
  {
  }

  lemma WrapCongruent(x: int) returns (q: int)
    ensures x == Wrap64(x) + q * TWO_64
  {
    q := (x + TWO_63) / TWO_64;
  }

  lemma {:induction false} ModShift(a: int, q: int)
    ensures (a + q * TWO_64) % TWO_64 == a % TWO_64
    decreases if q < 0 then -q else q
  {
    if q == 0 {
    } else if q > 0 {
      ModShift(a, q - 1);
      assert (a + (q - 1) * TWO_64 + TWO_64) % TWO_64 == (a + (q - 1) * TWO_64) % TWO_64;
    } else {
      ModShift(a, q + 1);
      assert (a + (q + 1) * TWO_64 - TWO_64) % TWO_64 == (a + (q + 1) * TWO_64) % TWO_64;
    }
  }

  /** Wrapping before an addition or a doubling does not show after wrapping again. */
  lemma WrapAbsorbs(x: int, m: int, c: int)
    requires m == 1 || m == 2
    ensures Wrap64(Wrap64(x) * m + c) == Wrap64(x * m + c)
  {
    var q := WrapCongruent(x);
    ModShift(Wrap64(x) * m + c + TWO_63, q * m);
  }
}
