/**
 NTP timestamps and the offset and round-trip formulas of the NTP check (sections 6 and 8 of
 RFC 5905). Local instants are Unix nanoseconds; a server timestamp is 32 bits of seconds since
 1900 and 32 bits of fraction.
 */
module Ntp {
  import opened Check
  import opened FixedWidth

  const NTP_EPOCH_OFFSET := 2208988800
  const TWO_32 := 0x1_0000_0000
  const NANOS := 1_000_000_000

  type Word32 = x: int | 0 <= x < TWO_32

  /** (int64(frac) * 1e9) >> 32. */
  function FracNanos(frac: Word32): int {
    frac * NANOS / TWO_32
  }

  /** ntpTimeToTime, as Unix nanoseconds. */
  function ToTime(sec: Word32, frac: Word32): int {
    (sec - NTP_EPOCH_OFFSET) * NANOS + FracNanos(frac)
  }

  /** The two epochs, 1900 and 1970, are 70 years apart, 17 of them leap years. */
  lemma EpochsAreSeventyYearsApart()
    ensures NTP_EPOCH_OFFSET == (70 * 365 + 17) * 24 * 3600
    ensures ToTime((70 * 365 + 17) * 24 * 3600, 0) == 0
  {
  }

  /** What the timestamp denotes, without rounding. */
  function Exact(sec: int, frac: Word32): real {
    ((sec - NTP_EPOCH_OFFSET) * NANOS) as real + (frac * NANOS) as real / TWO_32 as real
  }

  /** The product fits in int64, the nanoseconds lie in [0, 1e9), and rounding loses less than 1 ns. */
  lemma ConversionIsSound(sec: Word32, frac: Word32)
    ensures InInt64(frac * NANOS)
    ensures 0 <= FracNanos(frac) < NANOS
    ensures ToTime(sec, frac) as real <= Exact(sec, frac) < ToTime(sec, frac) as real + 1.0
  {
    var q, p := FracNanos(frac), frac * NANOS;
    assert q * TWO_32 <= p < (q + 1) * TWO_32;
    assert (q * TWO_32) as real <= p as real < ((q + 1) * TWO_32) as real;
    DivideBounds(q, p);
  }

  lemma DivideBounds(q: int, p: int)
    requires q * TWO_32 <= p < (q + 1) * TWO_32
    ensures q as real <= p as real / TWO_32 as real < q as real + 1.0
  {
    var x := p as real / TWO_32 as real;
    assert x * TWO_32 as real == p as real;
    assert (q as real) * TWO_32 as real == (q * TWO_32) as real;
    assert (q as real + 1.0) * TWO_32 as real == ((q + 1) * TWO_32) as real;
  }

  /** Later timestamps never convert to earlier instants. */
  lemma ConversionIsMonotone(s1: Word32, f1: Word32, s2: Word32, f2: Word32)
    requires s1 < s2 || (s1 == s2 && f1 <= f2)
    ensures ToTime(s1, f1) <= ToTime(s2, f2)
  {
    ConversionIsSound(s1, f1);
    ConversionIsSound(s2, f2);
    if s1 < s2 {
      assert (s1 + 1) * NANOS <= s2 * NANOS;
    } else {
      assert f1 * NANOS <= f2 * NANOS;
      QuotientMonotone(f1 * NANOS, f2 * NANOS);
    }
  }

  lemma QuotientMonotone(a: int, b: int)
    requires a <= b
    ensures a / TWO_32 <= b / TWO_32
  {
  }

  /**
   A server sends its seconds modulo 2^32 and the conversion knows only the era that began in 1900,
   so it is right exactly for instants of that era; afterwards it is off by whole eras.
   */
  lemma ConversionIsRightIff(trueSec: nat, frac: Word32)
    ensures
      ToTime(trueSec % TWO_32, frac) == (trueSec - NTP_EPOCH_OFFSET) * NANOS + FracNanos(frac) <==>
      trueSec < TWO_32
  {
    assert trueSec == trueSec / TWO_32 * TWO_32 + trueSec % TWO_32;
  }

  // ----- Offset and round trip -----

  /** time.Time.Sub saturates. */
  function Sub(a: int, b: int): int {
    if a - b >= TWO_63 then TWO_63 - 1 else if a - b < -TWO_63 then -TWO_63 else a - b
  }

  /** The difference if it is representable, otherwise the nearest duration there is. */
  lemma SubSaturates(a: int, b: int)
    ensures InInt64(Sub(a, b)) && (InInt64(a - b) ==> Sub(a, b) == a - b)
    ensures forall d :: InInt64(d) ==> d <= Sub(a, b) <= a - b || a - b <= Sub(a, b) <= d
  {
  }

  function Offset(t1: int, t2: int, t3: int, t4: int): int {
    TruncDiv(Wrap64(Sub(t2, t1) + Sub(t3, t4)), 2)
  }

  function RoundTrip(t1: int, t2: int, t3: int, t4: int): int {
    Wrap64(Sub(t4, t1) - Sub(t3, t2))
  }

  /** A local instant in the era that began in 1900 (it ends in February 2036). */
  predicate InEra(t: int) {
    -NTP_EPOCH_OFFSET * NANOS <= t < (TWO_32 - NTP_EPOCH_OFFSET) * NANOS
  }

  lemma ConvertedInEra(sec: Word32, frac: Word32)
    ensures InEra(ToTime(sec, frac))
  {
    ConversionIsSound(sec, frac);
    assert (sec + 1) * NANOS <= TWO_32 * NANOS;
  }

  /** All differences and sums in the two formulas are durations that int64 nanoseconds can hold. */
  predicate Representable(t1: int, t2: int, t3: int, t4: int) {
    && InInt64(t2 - t1) && InInt64(t3 - t4) && InInt64((t2 - t1) + (t3 - t4))
    && InInt64(t4 - t1) && InInt64(t3 - t2) && InInt64((t4 - t1) - (t3 - t2))
  }

  /** Then nothing saturates or wraps. */
  lemma NoOverflow(t1: int, t2: int, t3: int, t4: int)
    requires Representable(t1, t2, t3, t4)
    ensures Offset(t1, t2, t3, t4) == TruncDiv((t2 - t1) + (t3 - t4), 2)
    ensures RoundTrip(t1, t2, t3, t4) == (t4 - t1) - (t3 - t2)
  {
    WrapIdentityIff((t2 - t1) + (t3 - t4));
    WrapIdentityIff((t4 - t1) - (t3 - t2));
  }

  /** Ten years, in nanoseconds. */
  const MARGIN := 10 * 365 * 24 * 3600 * NANOS

  /** A local instant at most ten years before or after the era, so until 2046. */
  predicate NearEra(t: int) {
    InEra(t - MARGIN) || InEra(t) || InEra(t + MARGIN)
  }

  /** Whatever timestamps the server sends, nothing overflows while the local clock is in that range. */
  lemma NearEraIsRepresentable(t1: int, rxSec: Word32, rxFrac: Word32, txSec: Word32, txFrac: Word32, t4: int)
    requires NearEra(t1) && NearEra(t4)
    ensures Representable(t1, ToTime(rxSec, rxFrac), ToTime(txSec, txFrac), t4)
  {
    ConvertedInEra(rxSec, rxFrac);
    ConvertedInEra(txSec, txFrac);
    assert 2 * (TWO_32 * NANOS + MARGIN) < TWO_63;
  }

  lemma TruncHalf(x: int)
    ensures x - 1 <= 2 * TruncDiv(x, 2) <= x + 1
  {
  }

  /**
   Let theta be the true offset (server clock minus local clock). If neither path delay is negative,
   the computed offset differs from theta by at most half the computed round trip, up to the
   nanosecond rounding of the two server timestamps and of the division.
   */
  lemma OffsetWithinHalfRoundTrip(
    t1: int, rxSec: Word32, rxFrac: Word32, txSec: Word32, txFrac: Word32, t4: int, theta: real)
    requires Representable(t1, ToTime(rxSec, rxFrac), ToTime(txSec, txFrac), t4)
    requires Exact(rxSec, rxFrac) - theta >= t1 as real
    requires t4 as real >= Exact(txSec, txFrac) - theta
    ensures
      var t2, t3 := ToTime(rxSec, rxFrac), ToTime(txSec, txFrac);
      var offset, rtt := Offset(t1, t2, t3, t4), RoundTrip(t1, t2, t3, t4);
      -(rtt as real) - 3.0 < 2.0 * (offset as real - theta) <= rtt as real + 1.0
  {
    var t2, t3 := ToTime(rxSec, rxFrac), ToTime(txSec, txFrac);
    ConversionIsSound(rxSec, rxFrac);
    ConversionIsSound(txSec, txFrac);
    NoOverflow(t1, t2, t3, t4);
    TruncHalf((t2 - t1) + (t3 - t4));
    var offset := Offset(t1, t2, t3, t4);
    assert (2 * offset) as real == 2.0 * offset as real;
  }

  /**
   With equal path delays the computed offset is theta up to rounding. Positive means the server is
   ahead of the local clock.
   */
  lemma SymmetricPathIsExact(
    t1: int, rxSec: Word32, rxFrac: Word32, txSec: Word32, txFrac: Word32, t4: int, theta: real)
    requires Representable(t1, ToTime(rxSec, rxFrac), ToTime(txSec, txFrac), t4)
    requires Exact(rxSec, rxFrac) - theta - t1 as real == t4 as real - (Exact(txSec, txFrac) - theta)
    ensures
      var offset := Offset(t1, ToTime(rxSec, rxFrac), ToTime(txSec, txFrac), t4);
      -1.5 < offset as real - theta <= 0.5
  {
    var t2, t3 := ToTime(rxSec, rxFrac), ToTime(txSec, txFrac);
    ConversionIsSound(rxSec, rxFrac);
    ConversionIsSound(txSec, txFrac);
    NoOverflow(t1, t2, t3, t4);
    TruncHalf((t2 - t1) + (t3 - t4));
    var offset := Offset(t1, t2, t3, t4);
    assert (2 * offset) as real == 2.0 * offset as real;
  }
}
