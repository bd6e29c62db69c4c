/** The offset of local time from GMT, computed from calendar fields, against counting Gregorian years. */
module GmtOffset {

  /** The calendar fields used: years since 1900, day of the year from 0, and the time of day. */
  datatype Civil = Civil(year: int, yday: int, hour: int, min: int, sec: int)

  // ---------------------------------------------------------------- the definition by counting

  predicate Leap(y: int) {
    y % 4 == 0 && (y % 100 != 0 || y % 400 == 0)
  }

  function YearLength(y: int): nat {
    if Leap(y) then 366 else 365
  }

  /** Days in the years a, a+1, .., b-1. */
  function DaysBetween(a: int, b: int): nat
    requires a <= b
    decreases b - a
  {
    if a == b then 0 else DaysBetween(a, b - 1) + YearLength(b - 1)
  }

  /** Days from the start of year a to the start of year b, either way round. */
  function SignedDays(a: int, b: int): int {
    if a <= b then DaysBetween(a, b) else -(DaysBetween(b, a) as int)
  }

  /** Seconds from gmt to local, by counting days. */
  function SecondsBetween(gmt: Civil, local: Civil): int {
    var days := SignedDays(gmt.year + 1900, local.year + 1900) + local.yday - gmt.yday;
    ((24 * days + local.hour - gmt.hour) * 60 + local.min - gmt.min) * 60 + local.sec - gmt.sec
  }

  // ---------------------------------------------------------------- the code

  /** Integer division rounding toward zero; a right shift by two rounds down. */
  function TruncDiv100(n: int): int {
    if n >= 0 then n / 100 else -((-n) / 100)
  }

  function ShiftRight2(n: int): int {
    n / 4
  }

  function CalculateGmtOffset(local: Civil, gmt: Civil): int {
    var localYear := local.year + (1900 - 1);
    var gmtYear := gmt.year + (1900 - 1);
    var days :=
      local.yday - gmt.yday
      + (ShiftRight2(localYear) - ShiftRight2(gmtYear)) - (TruncDiv100(localYear) - TruncDiv100(gmtYear))
      + (ShiftRight2(TruncDiv100(localYear)) - ShiftRight2(TruncDiv100(gmtYear)))
      + (localYear - gmtYear) * 365;
    var hours := 24 * days + (local.hour - gmt.hour);
    var mins := 60 * hours + (local.min - gmt.min);
    60 * mins + (local.sec - gmt.sec)
  }

  // ---------------------------------------------------------------- why they agree

  /** Leap years up to and including n, counted from year 0 (negative before it). */
  function LeapCount(n: int): int {
    n / 4 - n / 100 + n / 400
  }

  lemma QuotientStep(n: int, m: nat)
    requires m == 4 || m == 100 || m == 400
    ensures n / m - (n - 1) / m == if n % m == 0 then 1 else 0
  {
  }

  lemma LeapCountStep(n: int)
    ensures LeapCount(n) - LeapCount(n - 1) == if Leap(n) then 1 else 0
  {
    QuotientStep(n, 4);
    QuotientStep(n, 100);
    QuotientStep(n, 400);
    if n % 400 == 0 {
      assert n == 4 * (100 * (n / 400)) && n == 100 * (4 * (n / 400));
    }
    if n % 100 == 0 {
      assert n == 4 * (25 * (n / 100));
    }
  }

  lemma {:induction false} DaysClosedForm(a: int, b: int)
    requires a <= b
    ensures DaysBetween(a, b) == 365 * (b - a) + LeapCount(b - 1) - LeapCount(a - 1)
    decreases b - a
  {
    if a < b {
      DaysClosedForm(a, b - 1);
      LeapCountStep(b - 1);
    }
  }

  lemma SignedDaysClosedForm(a: int, b: int)
    ensures SignedDays(a, b) == 365 * (b - a) + LeapCount(b - 1) - LeapCount(a - 1)
  {
    if a <= b {
      DaysClosedForm(a, b);
    } else {
      DaysClosedForm(b, a);
    }
  }

  /** The leap years the code counts. */
  function CodeLeapCount(n: int): int {
    ShiftRight2(n) - TruncDiv100(n) + ShiftRight2(TruncDiv100(n))
  }

  /** Whether rounding toward zero makes the code miss one leap year before year n + 1. */
  predicate Misses(n: int) {
    n < 0 && (-n) % 100 != 0 && ((-n) / 100) % 4 != 0
  }

  lemma CenturiesOf(n: int)
    ensures n / 400 == (n / 100) / 4
  {
    var q, r := n / 100, n % 100;
    var s, t := q / 4, q % 4;
    assert n == 400 * s + (100 * t + r);
  }

  lemma CodeLeapCountIsExactUnlessMissed(n: int)
    ensures LeapCount(n) == CodeLeapCount(n) + if Misses(n) then 1 else 0
  {
    CenturiesOf(n);
    if n < 0 {
      var m := -n;
      var q, r := m / 100, m % 100;
      assert n == 100 * (-q) - r;
      assert n / 100 == if r == 0 then -q else -q - 1;
      assert TruncDiv100(n) == -q;
      var s, t := q / 4, q % 4;
      assert (-q) / 4 == if t == 0 then -s else -s - 1;
      assert (-q - 1) / 4 == -s - 1;
    }
  }

  /** For all civil dates, the offset is the difference of second counts exactly when both years are on the same side
      of the rounding error. */
  lemma OffsetExactly(local: Civil, gmt: Civil)
    ensures CalculateGmtOffset(local, gmt) == SecondsBetween(gmt, local)
            <==> Misses(local.year + 1899) == Misses(gmt.year + 1899)
  {
    SignedDaysClosedForm(gmt.year + 1900, local.year + 1900);
    LeapDaysOfCode(local.year + 1899, gmt.year + 1899);
  }

  /** The leap days the code counts between two years are those of the calendar exactly then. */
  lemma LeapDaysOfCode(a: int, b: int)
    ensures CodeLeapCount(a) - CodeLeapCount(b) == LeapCount(a) - LeapCount(b) <==> Misses(a) == Misses(b)
  {
    CodeLeapCountIsExactUnlessMissed(a);
    CodeLeapCountIsExactUnlessMissed(b);
  }

  /** In particular for all dates from year 1 on (in fact from 99 years before it). */
  lemma OffsetIsExactFromYearOne(local: Civil, gmt: Civil)
    requires local.year + 1900 >= -99 && gmt.year + 1900 >= -99
    ensures CalculateGmtOffset(local, gmt) == SecondsBetween(gmt, local)
  {
    OffsetExactly(local, gmt);
  }

  /** One day off across the first new year the rounding gets wrong. */
  lemma OffsetIsWrongLongAgo()
    ensures CalculateGmtOffset(Civil(-99 - 1900, 0, 0, 0, 0), Civil(-100 - 1900, 365, 23, 59, 59))
            != SecondsBetween(Civil(-100 - 1900, 365, 23, 59, 59), Civil(-99 - 1900, 0, 0, 0, 0))
  {
    OffsetExactly(Civil(-99 - 1900, 0, 0, 0, 0), Civil(-100 - 1900, 365, 23, 59, 59));
  }
}
