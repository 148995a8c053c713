/** Time conversions and the overlap metric. Instants are integer
    nanoseconds since the epoch; those built from the archiver's pairs are
    whole microseconds, as the calendar type holds them. */
module TimeUtil {

  const NANOS_PER_SECOND: int := 1_000_000_000
  const NANOS_PER_MICROSECOND: int := 1000

  /** The instant a calendar value holds for the archiver's pair
      (seconds, nanoseconds): the exact instant `seconds + nanoseconds / 10^9`
      rounded to the nearest whole microsecond (halves upward), the only
      precision the calendar type has. */
  function Timestamp(seconds: int, nanoseconds: int): (t: int)
    ensures t % NANOS_PER_MICROSECOND == 0
    ensures seconds * NANOS_PER_SECOND + nanoseconds - NANOS_PER_MICROSECOND / 2 < t
    ensures t <= seconds * NANOS_PER_SECOND + nanoseconds + NANOS_PER_MICROSECOND / 2
  {
    (seconds * NANOS_PER_SECOND + nanoseconds + NANOS_PER_MICROSECOND / 2)
      / NANOS_PER_MICROSECOND * NANOS_PER_MICROSECOND
  }

  /** The (seconds, nanoseconds) pair sent to the archiver for an instant:
      whole seconds, and the sub-second part cut down to whole microseconds
      (the calendar type only keeps microseconds). */
  function SecondsAndNanos(t: int): (r: (int, int))
    ensures 0 <= r.1 < NANOS_PER_SECOND && r.1 % NANOS_PER_MICROSECOND == 0
  {
    (t / NANOS_PER_SECOND, (t % NANOS_PER_SECOND) / NANOS_PER_MICROSECOND * NANOS_PER_MICROSECOND)
  }

  /** A pair whose nanoseconds are a whole number of microseconds survives
      the round trip exactly. */
  lemma RoundTripAtMicroseconds(seconds: int, nanoseconds: int)
    requires 0 <= nanoseconds < NANOS_PER_SECOND
    requires nanoseconds % NANOS_PER_MICROSECOND == 0
    ensures SecondsAndNanos(Timestamp(seconds, nanoseconds)) == (seconds, nanoseconds)
  {
    var t := Timestamp(seconds, nanoseconds);
    assert t / NANOS_PER_SECOND == seconds;
    assert t % NANOS_PER_SECOND == nanoseconds;
  }

  /** Converting an instant to a pair loses less than one microsecond and
      never moves it later. */
  lemma ConversionLossBounded(t: int)
    ensures var (s, n) := SecondsAndNanos(t);
      s * NANOS_PER_SECOND + n <= t < s * NANOS_PER_SECOND + n + NANOS_PER_MICROSECOND
  {
    var r := t % NANOS_PER_SECOND;
    assert t == (t / NANOS_PER_SECOND) * NANOS_PER_SECOND + r;
    assert r == (r / NANOS_PER_MICROSECOND) * NANOS_PER_MICROSECOND + r % NANOS_PER_MICROSECOND;
  }

  /** An instant of whole microseconds, which is every instant a calendar
      value holds, survives conversion to a pair and back unchanged. */
  lemma InstantRoundTrip(t: int)
    requires t % NANOS_PER_MICROSECOND == 0
    ensures Timestamp(SecondsAndNanos(t).0, SecondsAndNanos(t).1) == t
  {
    var q := t / NANOS_PER_MICROSECOND;
    var s := t / NANOS_PER_SECOND;
    var r := t % NANOS_PER_SECOND;
    assert t == q * NANOS_PER_MICROSECOND;
    assert t == s * NANOS_PER_SECOND + r;
    assert r == (q - s * 1_000_000) * NANOS_PER_MICROSECOND;
    assert r / NANOS_PER_MICROSECOND * NANOS_PER_MICROSECOND == r;
    assert (t + NANOS_PER_MICROSECOND / 2) / NANOS_PER_MICROSECOND == q;
  }

  function Max(a: int, b: int): int { if a >= b then a else b }
  function Min(a: int, b: int): int { if a <= b then a else b }

  /** Length of the intersection of [firstStart, firstEnd] and
      [secondStart, secondEnd], clamped at zero. */
  function Overlap(firstStart: int, firstEnd: int, secondStart: int, secondEnd: int): (r: int)
    ensures r >= 0
    ensures r > 0 <==> firstStart < secondEnd && secondStart < firstEnd
                       && firstStart < firstEnd && secondStart < secondEnd
    ensures r <= Max(firstEnd - firstStart, 0) && r <= Max(secondEnd - secondStart, 0)
  {
    Max(Min(firstEnd, secondEnd) - Max(firstStart, secondStart), 0)
  }

  /** Swapping the two ranges does not change the overlap. */
  lemma OverlapSymmetric(firstStart: int, firstEnd: int, secondStart: int, secondEnd: int)
    ensures Overlap(firstStart, firstEnd, secondStart, secondEnd)
         == Overlap(secondStart, secondEnd, firstStart, firstEnd)
  {
  }

  /** Ranges that do not meet overlap by zero. */
  lemma OverlapOfDisjoint(firstStart: int, firstEnd: int, secondStart: int, secondEnd: int)
    requires firstEnd <= secondStart || secondEnd <= firstStart
    ensures Overlap(firstStart, firstEnd, secondStart, secondEnd) == 0
  {
  }

  /** When one range contains the other, the overlap is the inner range's length. */
  lemma OverlapOfContained(outerStart: int, outerEnd: int, innerStart: int, innerEnd: int)
    requires outerStart <= innerStart <= innerEnd <= outerEnd
    ensures Overlap(outerStart, outerEnd, innerStart, innerEnd) == innerEnd - innerStart
  {
  }
}
