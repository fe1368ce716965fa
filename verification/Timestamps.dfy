/** Timestamp literals: an instant as milliseconds and nanoseconds within the
    millisecond, computed with C's truncating division on 64-bit integers. */
module Timestamps {

  const INT64_MIN: int := -0x8000_0000_0000_0000
  const INT64_MAX: int := 0x7FFF_FFFF_FFFF_FFFF

  predicate IsInt64(x: int) {
    INT64_MIN <= x <= INT64_MAX
  }

  /** C's `/` and `%` for a positive divisor: truncation toward zero. */
  function Quot(a: int, b: int): int
    requires b > 0
  {
    if a >= 0 then a / b else -(-a / b)
  }

  function Rem(a: int, b: int): int
    requires b > 0
  {
    a - Quot(a, b) * b
  }

  datatype Instant = Instant(millis: int, nanoOfMillis: int)

  /** The split used for both units: `per` ticks make a millisecond. */
  function Millis(ticks: int, per: int): int
    requires per > 0
  {
    Quot(ticks, per) - (if Rem(ticks, per) < 0 then 1 else 0)
  }

  function FromMicros(micros: int): Instant {
    Instant(Millis(micros, 1000), (micros - Millis(micros, 1000) * 1000) * 1000)
  }

  function FromNanos(nanos: int): Instant {
    Instant(Millis(nanos, 1_000_000), nanos - Millis(nanos, 1_000_000) * 1_000_000)
  }

  function FromSeconds(seconds: int): Instant {
    Instant(seconds * 1000, 0)
  }

  predicate Canonical(t: Instant) {
    0 <= t.nanoOfMillis < 1_000_000
  }

  function ToNanos(t: Instant): int {
    t.millis * 1_000_000 + t.nanoOfMillis
  }

  /** Lexicographic order, as Paimon compares timestamps. */
  predicate Before(a: Instant, b: Instant) {
    a.millis < b.millis || (a.millis == b.millis && a.nanoOfMillis < b.nanoOfMillis)
  }

  /** `Quot` and `Rem` as C defines them: the remainder has the sign of the dividend. */
  lemma TruncatedParts(a: int, b: int)
    requires b > 0
    ensures a == Quot(a, b) * b + Rem(a, b)
    ensures if a >= 0 then 0 <= Rem(a, b) < b else -b < Rem(a, b) <= 0
  {
    if a < 0 {
      Negated(-a / b, b);
    }
  }

  lemma Negated(n: int, b: int)
    ensures (-n) * b == -(n * b)
  {
  }

  lemma OneLess(n: int, b: int)
    ensures (n - 1) * b == n * b - b
  {
  }

  /** Correcting a truncated quotient with a negative remainder is rounding down. */
  lemma MillisFloors(ticks: int, per: int)
    requires per > 0
    ensures Millis(ticks, per) == ticks / per
    ensures 0 <= ticks - Millis(ticks, per) * per < per
  {
    TruncatedParts(ticks, per);
    OneLess(Quot(ticks, per), per);
    hide Quot, Rem;
    var m := Millis(ticks, per);
    assert 0 <= ticks - m * per < per;
    QuotientUnique(ticks, per, m);
  }

  lemma QuotientUnique(a: int, b: int, q: int)
    requires b > 0 && 0 <= a - q * b < b
    ensures a / b == q
  {
    var p := a / b;
    assert 0 <= a - p * b < b;
    if p > q {
      Monotone(q + 1, p, b);
      OneLess(q + 1, b);
    } else if p < q {
      Monotone(p + 1, q, b);
      OneLess(p + 1, b);
    }
  }

  lemma Monotone(m: int, n: int, b: int)
    requires m <= n && b > 0
    ensures m * b <= n * b
  {
  }

  /** Micros and nanos reconstruct exactly, with a canonical remainder. */
  lemma ExactReconstruction(x: int)
    ensures Canonical(FromMicros(x)) && ToNanos(FromMicros(x)) == x * 1000
    ensures Canonical(FromNanos(x)) && ToNanos(FromNanos(x)) == x
    ensures Canonical(FromSeconds(x)) && ToNanos(FromSeconds(x)) == x * 1_000_000_000
  {
    hide Millis;
    MillisFloors(x, 1000);
    MillisFloors(x, 1_000_000);
  }

  lemma OrderOfCanonical(a: Instant, b: Instant)
    requires Canonical(a) && Canonical(b)
    ensures Before(a, b) <==> ToNanos(a) < ToNanos(b)
  {
  }

  /** The literal order is the order of the original values, in both units. */
  lemma OrderPreserved(x: int, y: int)
    ensures Before(FromMicros(x), FromMicros(y)) <==> x < y
    ensures Before(FromNanos(x), FromNanos(y)) <==> x < y
    ensures FromMicros(x) == FromMicros(y) <==> x == y
    ensures FromNanos(x) == FromNanos(y) <==> x == y
  {
    ExactReconstruction(x);
    ExactReconstruction(y);
    OrderOfCanonical(FromMicros(x), FromMicros(y));
    OrderOfCanonical(FromNanos(x), FromNanos(y));
  }

  /** Every 64-bit intermediate of the conversion is representable. */
  predicate FitsMicros(micros: int) {
    var m := Millis(micros, 1000);
    IsInt64(m) && IsInt64(m * 1000) && IsInt64(micros - m * 1000) && IsInt64((micros - m * 1000) * 1000)
  }

  predicate FitsNanos(nanos: int) {
    var m := Millis(nanos, 1_000_000);
    IsInt64(m) && IsInt64(m * 1_000_000) && IsInt64(nanos - m * 1_000_000)
  }

  /** The product of a multiple that rounds down below the minimum is the only way
      to overflow: exactly the lowest values of each unit. */
  lemma FitsExactly(x: int)
    requires IsInt64(x)
    ensures FitsMicros(x) <==> x >= -9223372036854775000
    ensures FitsNanos(x) <==> x >= -9223372036854000000
    ensures IsInt64(FromSeconds(x).millis) <==> -9223372036854775 <= x <= 9223372036854775
  {
    hide Millis;
    MillisFloors(x, 1000);
    MillisFloors(x, 1_000_000);
  }
}
