/** Log messages, calendar time, and the text each pattern flag writes for them. */
module LogFields {
  import opened Decimal

  datatype Level = Trace | Debug | Info | Warn | Err | Critical | Off

  /** A source location; line 0 stands for "none". */
  datatype Source = Source(filename: string, line: nat, funcname: string)

  /** `time` is in nanoseconds since the epoch. */
  datatype Msg = Msg(loggerName: string, level: Level, time: int, threadId: nat, source: Source, payload: string)

  datatype TmFields = Tm(sec: int, min: int, hour: int, mday: int, mon: int, year: int, wday: int, gmtoff: int)

  /** Calendar fields in the ranges the C library guarantees (the all-zero value is the blank initial one). */
  type Tm = t: TmFields |
    0 <= t.sec <= 60 && 0 <= t.min < 60 && 0 <= t.hour < 24 && 0 <= t.mday <= 31 && 0 <= t.mon < 12 && 0 <= t.wday < 7
    witness BLANK_TM

  const BLANK_TM: TmFields := TmFields.Tm(0, 0, 0, 0, 0, 0, 0, 0)

  // ---------------------------------------------------------------- numbers and time

  /** Division and remainder rounding toward zero. */
  function TruncDiv(a: int, b: int): int
    requires b > 0
  {
    if a >= 0 then a / b else -((-a) / b)
  }

  function TruncMod(a: int, b: int): int
    requires b > 0
  {
    a - b * TruncDiv(a, b)
  }

  /** duration_cast to seconds. */
  function Secs(time: int): int {
    TruncDiv(time, 1_000_000_000)
  }

  /** The part of a second, in units of `unit` nanoseconds (negative before the epoch). */
  function Fraction(time: int, unit: int): int
    requires unit > 0
  {
    TruncDiv(time, unit) - TruncDiv(Secs(time) * 1_000_000_000, unit)
  }

  /** Conversion to an unsigned type of the given modulus. */
  function Unsigned(n: int, modulus: nat): nat
    requires modulus > 0
  {
    n % modulus
  }

  /** Two digits for 0..99; any other number is left to the formatting library's {:02}. */
  function Pad2(n: int): (s: string)
    ensures |s| >= 2
    ensures 0 <= n < 100 ==> |s| == 2
  {
    if 0 <= n < 100 then [Digit(n / 10), Digit(n % 10)]
    else if n < 0 then "-" + ToDecimal(-n)
    else Pad2Digits(n); ToDecimal(n)
  }

  lemma Pad2Digits(n: nat)
    requires n >= 10
    ensures |ToDecimal(n)| >= 2
  {
  }

  function PadUint(n: nat, width: nat): (s: string)
    ensures |s| >= width
  {
    var digits := ToDecimal(n);
    Spread('0', if width > |digits| then width - |digits| else 0) + digits
  }

  function Pad3(n: nat): (s: string)
    ensures |s| >= 3
  {
    if n < 1000 then [Digit(n / 100), Digit(n % 100 / 10), Digit(n % 10)]
    else LengthOfToDecimal(n, 2); assert Power10(2) == 10 * Power10(1) == 10 * (10 * Power10(0)); ToDecimal(n)
  }

  function Spread(c: char, n: nat): (s: string)
    ensures |s| == n
    ensures forall i :: 0 <= i < n ==> s[i] == c
  {
    seq(n, _ => c)
  }

  // ---------------------------------------------------------------- names

  function LevelName(l: Level): string {
    match l
    case Trace => "trace"
    case Debug => "debug"
    case Info => "info"
    case Warn => "warning"
    case Err => "error"
    case Critical => "critical"
    case Off => "off"
  }

  /** The number of a level, from the least to the most severe. */
  function LevelIndex(l: Level): (i: nat)
    ensures i < 7
  {
    match l
    case Trace => 0
    case Debug => 1
    case Info => 2
    case Warn => 3
    case Err => 4
    case Critical => 5
    case Off => 6
  }

  function ShortLevelName(l: Level): string {
    match l
    case Trace => "T"
    case Debug => "D"
    case Info => "I"
    case Warn => "W"
    case Err => "E"
    case Critical => "C"
    case Off => "O"
  }

  const DAYS: seq<string> := ["Sun", "Mon", "Tue", "Wed", "Thu", "Fri", "Sat"]
  const FULL_DAYS: seq<string> := ["Sunday", "Monday", "Tuesday", "Wednesday", "Thursday", "Friday", "Saturday"]
  const MONTHS: seq<string> :=
    ["Jan", "Feb", "Mar", "Apr", "May", "Jun", "Jul", "Aug", "Sept", "Oct", "Nov", "Dec"]
  const FULL_MONTHS: seq<string> :=
    ["January", "February", "March", "April", "May", "June", "July", "August", "September", "October", "November",
     "December"]

  function AmPm(t: Tm): string {
    if t.hour >= 12 then "PM" else "AM"
  }

  function To12h(t: Tm): int {
    if t.hour > 12 then t.hour - 12 else t.hour
  }

  /** The path component after the last '/'. */
  function Basename(path: string): string {
    if exists i :: 0 <= i < |path| && path[i] == '/' then Basename(path[1..]) else path
  }

  // ---------------------------------------------------------------- field texts

  /** Flags whose text is made from the calendar time (%z and %+ are handled apart). */
  predicate IsCalendarFlag(flag: char) {
    flag in {'a', 'A', 'b', 'h', 'B', 'c', 'C', 'Y', 'D', 'x', 'm', 'd', 'H', 'I', 'M', 'S', 'p', 'r', 'R', 'T', 'X'}
  }

  /** Flags whose text is made from the message alone. */
  predicate IsMessageFlag(flag: char) {
    flag in {'n', 'l', 'L', 't', 'v', 'e', 'f', 'F', 'E', 'P', '@', 's', 'g', '#', '!'}
  }

  /** Flags that show the time since the previous message. */
  predicate IsElapsedFlag(flag: char) {
    flag in {'u', 'i', 'o', 'O'}
  }

  function ClockText(t: Tm): (s: string)
    ensures |s| == 8
  {
    Pad2(t.hour) + ":" + Pad2(t.min) + ":" + Pad2(t.sec)
  }

  function CalendarText(flag: char, t: Tm): string
    requires IsCalendarFlag(flag)
  {
    match flag
    case 'a' => DAYS[t.wday]
    case 'A' => FULL_DAYS[t.wday]
    case 'b' => MONTHS[t.mon]
    case 'h' => MONTHS[t.mon]
    case 'B' => FULL_MONTHS[t.mon]
    case 'c' =>
      DAYS[t.wday] + " " + MONTHS[t.mon] + " " + IntToDecimal(t.mday) + " " + ClockText(t) + " "
      + IntToDecimal(t.year + 1900)
    case 'C' => Pad2(TruncMod(t.year, 100))
    case 'Y' => IntToDecimal(t.year + 1900)
    case 'D' => Pad2(t.mon + 1) + "/" + Pad2(t.mday) + "/" + Pad2(TruncMod(t.year, 100))
    case 'x' => Pad2(t.mon + 1) + "/" + Pad2(t.mday) + "/" + Pad2(TruncMod(t.year, 100))
    case 'm' => Pad2(t.mon + 1)
    case 'd' => Pad2(t.mday)
    case 'H' => Pad2(t.hour)
    case 'I' => Pad2(To12h(t))
    case 'M' => Pad2(t.min)
    case 'S' => Pad2(t.sec)
    case 'p' => AmPm(t)
    case 'r' => Pad2(To12h(t)) + ":" + Pad2(t.min) + ":" + Pad2(t.sec) + " " + AmPm(t)
    case 'R' => Pad2(t.hour) + ":" + Pad2(t.min)
    case _ => ClockText(t)
  }

  function MessageText(flag: char, msg: Msg, pid: nat): string
    requires IsMessageFlag(flag)
  {
    match flag
    case 'n' => msg.loggerName
    case 'l' => LevelName(msg.level)
    case 'L' => ShortLevelName(msg.level)
    case 't' => ToDecimal(msg.threadId)
    case 'v' => msg.payload
    case 'e' => Pad3(Unsigned(Fraction(msg.time, 1_000_000), MODULUS_32))
    case 'f' => PadUint(Unsigned(Fraction(msg.time, 1_000), MODULUS_64), 6)
    case 'F' => PadUint(Unsigned(Fraction(msg.time, 1), MODULUS_64), 9)
    case 'E' => IntToDecimal(Secs(msg.time))
    case 'P' => ToDecimal(pid)
    case '@' => if msg.source.line == 0 then "" else msg.source.filename + ":" + ToDecimal(msg.source.line)
    case 's' => if msg.source.line == 0 then "" else Basename(msg.source.filename)
    case 'g' => if msg.source.line == 0 then "" else msg.source.filename
    case '#' => if msg.source.line == 0 then "" else ToDecimal(msg.source.line)
    case _ => if msg.source.line == 0 then "" else msg.source.funcname
  }

  function ElapsedUnit(flag: char): (u: nat)
    ensures u > 0
  {
    match flag
    case 'u' => 1
    case 'i' => 1_000
    case 'o' => 1_000_000
    case _ => 1_000_000_000
  }

  function ElapsedText(flag: char, last: int, time: int): string {
    ToDecimal((if time > last then time - last else 0) / ElapsedUnit(flag))
  }

  /** ±HH:MM for an offset in minutes. */
  function OffsetText(minutes: int): (s: string)
    ensures |s| >= 6
  {
    var m := if minutes < 0 then -minutes else minutes;
    (if minutes < 0 then "-" else "+") + Pad2(m / 60) + ":" + Pad2(m % 60)
  }

  /** The size a formatter announces to its padder before it writes its text. */
  function DeclaredSize(flag: char, text: string): nat {
    match flag
    case 'c' => 24
    case 'C' => 2
    case 'D' => 10
    case 'x' => 10
    case 'Y' => 4
    case 'm' => 2
    case 'd' => 2
    case 'H' => 2
    case 'I' => 2
    case 'M' => 2
    case 'S' => 2
    case 'e' => 3
    case 'f' => 6
    case 'F' => 9
    case 'E' => 10
    case 'p' => 2
    case 'r' => 11
    case 'R' => 5
    case 'T' => 8
    case 'X' => 8
    case 'z' => 6
    case _ => |text|
  }

  /** Flags that may write less than they announce. */
  predicate MayWriteLess(flag: char) {
    flag in {'D', 'x', 'c', 'E', 'Y'}
  }

  /** The least these flags write, over all calendar times and messages. */
  function ShortestText(flag: char): nat
    requires MayWriteLess(flag)
  {
    if flag == 'c' then 20 else if flag == 'D' || flag == 'x' then 8 else 1
  }

  lemma ShortCalendarText(flag: char, t: Tm)
    requires IsCalendarFlag(flag) && MayWriteLess(flag)
    ensures |CalendarText(flag, t)| >= ShortestText(flag)
  {
  }

  const SHORT_YEAR: Tm := TmFields.Tm(0, 0, 0, 1, 0, -1900, 0, 0)

  /** The shortest texts are reached: %c and %Y in the year 0, %D on any day of the year 2000, %E in second 0. */
  lemma ShortestCalendarText(flag: char)
    requires IsCalendarFlag(flag) && MayWriteLess(flag)
    ensures exists t: Tm :: |CalendarText(flag, t)| == ShortestText(flag)
  {
    if flag == 'D' || flag == 'x' {
      ShortDateWritesLess(EARLY);
      assert CalendarText(flag, EARLY) == CalendarText('D', EARLY);
      assert |CalendarText(flag, EARLY)| == ShortestText(flag);
    } else {
      assert IntToDecimal(SHORT_YEAR.year + 1900) == "0" && IntToDecimal(SHORT_YEAR.mday) == "1";
      assert |CalendarText(flag, SHORT_YEAR)| == ShortestText(flag);
    }
  }

  lemma ShortEpochText(time: int)
    requires time == 0
    ensures |IntToDecimal(Secs(time))| == 1
  {
  }

  lemma CalendarWritesDeclared(flag: char, t: Tm)
    requires IsCalendarFlag(flag)
    ensures !MayWriteLess(flag) ==> DeclaredSize(flag, CalendarText(flag, t)) <= |CalendarText(flag, t)|
  {
  }

  lemma MessageWritesDeclared(flag: char, msg: Msg, pid: nat)
    requires IsMessageFlag(flag)
    ensures !MayWriteLess(flag) ==> DeclaredSize(flag, MessageText(flag, msg, pid)) <= |MessageText(flag, msg, pid)|
  {
  }

  /** The short date is two characters shorter than announced in every year from 1900 on. */
  lemma ShortDateWritesLess(t: Tm)
    requires t.year >= 0
    ensures |CalendarText('D', t)| == 8 && DeclaredSize('D', CalendarText('D', t)) == 10
  {
    assert 0 <= TruncMod(t.year, 100) < 100;
    assert Pad2(t.mon + 1) != [] && |Pad2(t.mon + 1)| == 2;
  }

  lemma Pad2Differs(a: nat, b: nat)
    requires a < b < 100
    ensures Pad2(a) != Pad2(b)
  {
    if a / 10 == b / 10 {
      assert Pad2(a)[1] != Pad2(b)[1];
    } else {
      assert Pad2(a)[0] != Pad2(b)[0];
    }
  }

  const EARLY: Tm := TmFields.Tm(0, 0, 0, 1, 0, 0, 0, 0)
  const LATE: Tm := TmFields.Tm(1, 1, 13, 2, 1, 1, 1, 0)

  lemma NamesDiffer(flag: char)
    requires flag in {'a', 'A', 'b', 'h', 'B', 'p'}
    ensures CalendarText(flag, EARLY) != CalendarText(flag, LATE)
  {
    assert CalendarText(flag, EARLY)[0] != CalendarText(flag, LATE)[0];
  }

  lemma LongDatesDiffer()
    ensures CalendarText('c', EARLY) != CalendarText('c', LATE)
  {
    assert CalendarText('c', EARLY)[0] == 'S';
    assert CalendarText('c', LATE)[0] == 'M';
  }

  lemma DecimalsDiffer(a: nat, b: nat)
    requires a != b
    ensures IntToDecimal(a) != IntToDecimal(b)
  {
    if ToDecimal(a) == ToDecimal(b) {
      ToDecimalInjective(a, b);
    }
  }

  lemma YearsDiffer(t: Tm, u: Tm)
    requires t.year == 0 && u.year == 1
    ensures CalendarText('Y', t) != CalendarText('Y', u)
  {
    var a, b := t.year + 1900, u.year + 1900;
    assert CalendarText('Y', t) == IntToDecimal(a) && CalendarText('Y', u) == IntToDecimal(b);
    DecimalsDiffer(a, b);
  }

  lemma ShortYearsDiffer(t: Tm, u: Tm)
    requires t.year == 0 && u.year == 1
    ensures CalendarText('C', t) != CalendarText('C', u)
  {
    Pad2Differs(t.year, u.year);
  }

  lemma DatesDiffer(flag: char, t: Tm, u: Tm)
    requires flag in {'D', 'x', 'm', 'd'}
    requires t.mon == 0 && u.mon == 1 && t.mday == 1 && u.mday == 2
    ensures CalendarText(flag, t) != CalendarText(flag, u)
  {
    Pad2Differs(1, 2);
    if flag == 'm' || flag == 'd' {
      assert CalendarText(flag, t) == Pad2(1) && CalendarText(flag, u) == Pad2(2);
    } else {
      assert CalendarText(flag, t)[..2] == Pad2(1);
      assert CalendarText(flag, u)[..2] == Pad2(2);
    }
  }

  lemma MinutesDiffer(flag: char)
    requires flag in {'M', 'S', 'I', 'r'}
    ensures CalendarText(flag, EARLY) != CalendarText(flag, LATE)
  {
    assert CalendarText(flag, EARLY)[1] == '0';
    assert CalendarText(flag, LATE)[1] == '1';
  }

  lemma HoursDiffer(flag: char)
    requires flag in {'H', 'R', 'T', 'X'}
    ensures CalendarText(flag, EARLY) != CalendarText(flag, LATE)
  {
    assert CalendarText(flag, EARLY)[1] == '0';
    assert CalendarText(flag, LATE)[1] == '3';
  }

  /** A calendar flag does depend on the calendar time. */
  lemma CalendarFlagReadsTime(flag: char)
    requires IsCalendarFlag(flag)
    ensures exists t: Tm, u: Tm :: CalendarText(flag, t) != CalendarText(flag, u)
  {
    if flag == 'c' {
      LongDatesDiffer();
    } else if flag == 'Y' {
      YearsDiffer(EARLY, LATE);
    } else if flag == 'C' {
      ShortYearsDiffer(EARLY, LATE);
    } else if flag in {'a', 'A', 'b', 'h', 'B', 'p'} {
      NamesDiffer(flag);
    } else if flag in {'D', 'x', 'm', 'd'} {
      DatesDiffer(flag, EARLY, LATE);
    } else if flag in {'M', 'S', 'I', 'r'} {
      MinutesDiffer(flag);
    } else {
      HoursDiffer(flag);
    }
  }

  // ---------------------------------------------------------------- reading %z back

  /** Reads a sign, two digits of hours, a colon and two digits of minutes. */
  function ReadOffset(s: string): int
    requires |s| == 6 && IsDigit(s[1]) && IsDigit(s[2]) && IsDigit(s[4]) && IsDigit(s[5])
  {
    var m := 60 * (10 * DigitValue(s[1]) + DigitValue(s[2])) + 10 * DigitValue(s[4]) + DigitValue(s[5]);
    if s[0] == '-' then -m else m
  }

  /** The text of an offset has its fixed six-character form exactly below 100 hours, and then reads back. */
  lemma OffsetReadsBack(minutes: int)
    ensures |OffsetText(minutes)| == 6 <==> -6000 < minutes < 6000
    ensures -6000 < minutes < 6000 ==>
              var s := OffsetText(minutes);
              && IsDigit(s[1]) && IsDigit(s[2]) && s[3] == ':' && IsDigit(s[4]) && IsDigit(s[5])
              && ReadOffset(s) == minutes
  {
    var m := if minutes < 0 then -minutes else minutes;
    if m >= 6000 {
      LengthOfToDecimal(m / 60, 2);
      assert Power10(2) == 10 * Power10(1) == 10 * (10 * Power10(0));
      assert m / 60 >= 100;
    } else {
      assert m / 60 < 100;
    }
  }

  /** At 100 hours the text of the offset is one character longer. */
  lemma LongOffset()
    ensures OffsetText(6000) == "+100:00"
  {
    assert ToDecimal(100) == "100" by {
      assert ToDecimal(10) == "10";
    }
    assert Pad2(0) == "00";
  }
}
