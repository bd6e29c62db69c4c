/** What the fields of a formatted line say: the texts of the flags, read back. */
module LogMeanings {
  import opened Decimal
  import opened LogFields
  import opened PatternRender

  // ---------------------------------------------------------------- padded numbers

  lemma Pad2Value(n: nat)
    requires n < 100
    ensures |Pad2(n)| == 2 && AllDigits(Pad2(n)) && Value(Pad2(n)) == n
  {
    var s := Pad2(n);
    assert s[..1] == [Digit(n / 10)] && [Digit(n / 10)][..0] == [];
    assert Value([Digit(n / 10)]) == n / 10;
  }

  lemma {:induction false} ZerosAreNothing(k: nat, s: string)
    requires AllDigits(s)
    ensures AllDigits(Spread('0', k) + s) && Value(Spread('0', k) + s) == Value(s)
    decreases |s|
  {
    var t := Spread('0', k) + s;
    if s == "" {
      assert t == Spread('0', k);
      ZerosAreZero(k);
    } else {
      var front := s[..|s| - 1];
      ZerosAreNothing(k, front);
      assert t[..|t| - 1] == Spread('0', k) + front;
    }
  }

  lemma {:induction false} ZerosAreZero(k: nat)
    ensures AllDigits(Spread('0', k)) && Value(Spread('0', k)) == 0
  {
    if k > 0 {
      ZerosAreZero(k - 1);
      assert Spread('0', k)[..k - 1] == Spread('0', k - 1);
    }
  }

  lemma PadUintValue(n: nat, width: nat)
    ensures AllDigits(PadUint(n, width)) && Value(PadUint(n, width)) == n
  {
    var digits := ToDecimal(n);
    ZerosAreNothing(if width > |digits| then width - |digits| else 0, digits);
    ValueOfToDecimal(n);
  }

  lemma Pad3Value(n: nat)
    requires n < 1000
    ensures |Pad3(n)| == 3 && AllDigits(Pad3(n)) && Value(Pad3(n)) == n
  {
    var s := Pad3(n);
    assert s == [Digit(n / 100), Digit(n % 100 / 10), Digit(n % 10)];
    assert s[..2] == [Digit(n / 100), Digit(n % 100 / 10)] && s[..2][..1] == [Digit(n / 100)];
    assert Value(s[..2][..1]) == n / 100;
    assert Value(s[..2]) == 10 * (n / 100) + n % 100 / 10;
  }

  // ---------------------------------------------------------------- the time of day and the date

  /** The slice of two digits at a position is the number. */
  predicate Shows2(s: string, at: nat, n: int) {
    at + 2 <= |s| && AllDigits(s[at..at + 2]) && Value(s[at..at + 2]) == n
  }

  /** HH:MM:SS reads back as hour, minute and second. */
  lemma ClockReadsBack(t: Tm)
    ensures var s := ClockText(t);
            && |s| == 8 && s[2] == ':' && s[5] == ':'
            && Shows2(s, 0, t.hour) && Shows2(s, 3, t.min) && Shows2(s, 6, t.sec)
  {
    var s := ClockText(t);
    Pad2Value(t.hour);
    Pad2Value(t.min);
    Pad2Value(t.sec);
    assert s[0..2] == Pad2(t.hour) && s[3..5] == Pad2(t.min) && s[6..8] == Pad2(t.sec);
  }

  /** The date of %+ reads back: [year-month-day hour:minute:second. from the year 0 on. */
  lemma DateReadsBack(t: Tm)
    requires t.year + 1900 >= 0
    ensures var s := DateText(t);
            var n := |s|;
            && n >= 18 && s[0] == '[' && s[n - 1] == '.'
            && AllDigits(s[1..n - 16]) && Value(s[1..n - 16]) == t.year + 1900
            && s[n - 16] == '-' && s[n - 13] == '-' && s[n - 10] == ' ' && s[n - 7] == ':' && s[n - 4] == ':'
            && Shows2(s, n - 15, t.mon + 1) && Shows2(s, n - 12, t.mday) && Shows2(s, n - 9, t.hour)
            && Shows2(s, n - 6, t.min) && Shows2(s, n - 3, t.sec)
  {
    ValueOfToDecimal(t.year + 1900);
    PairsReadBack(t);
    DateShows(t, DateText(t), ToDecimal(t.year + 1900), Pad2(t.mon + 1), Pad2(t.mday),
              Pad2(t.hour), Pad2(t.min), Pad2(t.sec));
  }

  /** The pair of digits that stands for n. */
  predicate Pair(s: string, n: nat) {
    |s| == 2 && AllDigits(s) && Value(s) == n
  }

  lemma PairsReadBack(t: Tm)
    ensures Pair(Pad2(t.mon + 1), t.mon + 1) && Pair(Pad2(t.mday), t.mday)
    ensures Pair(Pad2(t.hour), t.hour) && Pair(Pad2(t.min), t.min) && Pair(Pad2(t.sec), t.sec)
  {
    Pad2Value(t.mon + 1);
    Pad2Value(t.mday);
    Pad2Value(t.hour);
    Pad2Value(t.min);
    Pad2Value(t.sec);
  }

  lemma DateSlices(s: string, y: string, mon: string, day: string, hour: string, min: string, sec: string)
    requires |mon| == |day| == |hour| == |min| == |sec| == 2 && |y| >= 1
    requires s == "[" + y + "-" + mon + "-" + day + " " + hour + ":" + min + ":" + sec + "."
    ensures var n := |s|;
            && n == |y| + 17 && s[0] == '[' && s[n - 1] == '.' && s[1..n - 16] == y
            && s[n - 16] == '-' && s[n - 13] == '-' && s[n - 10] == ' ' && s[n - 7] == ':' && s[n - 4] == ':'
            && s[n - 15..n - 13] == mon && s[n - 12..n - 10] == day && s[n - 9..n - 7] == hour
            && s[n - 6..n - 4] == min && s[n - 3..n - 1] == sec
  {
  }

  lemma DateShows(t: Tm, s: string, y: string, mon: string, day: string, hour: string, min: string, sec: string)
    requires |y| >= 1 && AllDigits(y) && Value(y) == t.year + 1900
    requires Pair(mon, t.mon + 1) && Pair(day, t.mday) && Pair(hour, t.hour) && Pair(min, t.min) && Pair(sec, t.sec)
    requires s == "[" + y + "-" + mon + "-" + day + " " + hour + ":" + min + ":" + sec + "."
    ensures var n := |s|;
            && n >= 18 && s[0] == '[' && s[n - 1] == '.'
            && AllDigits(s[1..n - 16]) && Value(s[1..n - 16]) == t.year + 1900
            && s[n - 16] == '-' && s[n - 13] == '-' && s[n - 10] == ' ' && s[n - 7] == ':' && s[n - 4] == ':'
            && Shows2(s, n - 15, t.mon + 1) && Shows2(s, n - 12, t.mday) && Shows2(s, n - 9, t.hour)
            && Shows2(s, n - 6, t.min) && Shows2(s, n - 3, t.sec)
  {
    DateSlices(s, y, mon, day, hour, min, sec);
  }

  /** The calendar flags of one number read back: the time of day ... */
  lemma TimeNumbers(t: Tm)
    ensures Shows2(CalendarText('H', t), 0, t.hour) && Shows2(CalendarText('M', t), 0, t.min)
    ensures Shows2(CalendarText('S', t), 0, t.sec)
  {
    Whole2(t.hour);
    Whole2(t.min);
    Whole2(t.sec);
  }

  /** ... month and day ... */
  lemma DayNumbers(t: Tm)
    ensures Shows2(CalendarText('m', t), 0, t.mon + 1) && Shows2(CalendarText('d', t), 0, t.mday)
  {
    Whole2(t.mon + 1);
    Whole2(t.mday);
  }

  /** ... the year in the century, from 1900 on ... */
  lemma ShortYearNumber(t: Tm)
    requires t.year >= 0
    ensures Shows2(CalendarText('C', t), 0, t.year % 100)
  {
    Whole2(t.year % 100);
  }

  /** ... and the year, from 0 on. */
  lemma YearNumber(t: Tm)
    requires t.year + 1900 >= 0
    ensures AllDigits(CalendarText('Y', t)) && Value(CalendarText('Y', t)) == t.year + 1900
  {
    ValueOfToDecimal(t.year + 1900);
  }

  lemma Whole2(n: nat)
    requires n < 100
    ensures Shows2(Pad2(n), 0, n)
  {
    Pad2Value(n);
    assert Pad2(n)[0..2] == Pad2(n);
  }

  /** The calendar flags of several numbers are put together from those of one: times ... */
  lemma TimeCompounds(t: Tm)
    ensures CalendarText('R', t) == CalendarText('H', t) + ":" + CalendarText('M', t)
    ensures CalendarText('T', t) == CalendarText('X', t)
            == CalendarText('H', t) + ":" + CalendarText('M', t) + ":" + CalendarText('S', t)
  {
  }

  lemma TwelveHourCompound(t: Tm)
    ensures CalendarText('r', t) ==
              CalendarText('I', t) + ":" + CalendarText('M', t) + ":" + CalendarText('S', t) + " " + CalendarText('p', t)
  {
  }

  /** ... and dates. */
  lemma DateCompounds(t: Tm)
    ensures CalendarText('D', t) == CalendarText('x', t)
            == CalendarText('m', t) + "/" + CalendarText('d', t) + "/" + CalendarText('C', t)
  {
  }

  lemma LongDateCompound(t: Tm)
    ensures CalendarText('c', t) ==
              CalendarText('a', t) + " " + CalendarText('b', t) + " " + IntToDecimal(t.mday) + " "
              + CalendarText('T', t) + " " + CalendarText('Y', t)
  {
    LongDateParts(t);
  }

  lemma LongDateParts(t: Tm)
    ensures CalendarText('a', t) == DAYS[t.wday] && CalendarText('b', t) == MONTHS[t.mon]
    ensures CalendarText('T', t) == ClockText(t) && CalendarText('Y', t) == IntToDecimal(t.year + 1900)
  {
  }

  /** The twelve-hour clock and its half of the day give the hour back; midnight shows as 00. */
  lemma TwelveHours(t: Tm)
    ensures CalendarText('p', t) == (if t.hour < 12 then "AM" else "PM")
    ensures exists h: nat :: h <= 12 && Shows2(CalendarText('I', t), 0, h)
                             && t.hour == if CalendarText('p', t) == "PM" && h != 12 then h + 12 else h
  {
    var h: nat := if t.hour > 12 then t.hour - 12 else t.hour;
    Whole2(h);
    assert CalendarText('I', t) == Pad2(h);
  }

  // ---------------------------------------------------------------- names

  /** The full names of days and months, by their numbers. */
  lemma FullNames(t: Tm)
    ensures CalendarText('A', t) ==
              ["Sunday", "Monday", "Tuesday", "Wednesday", "Thursday", "Friday", "Saturday"][t.wday]
    ensures CalendarText('B', t) ==
              ["January", "February", "March", "April", "May", "June", "July", "August", "September", "October",
               "November", "December"][t.mon]
  {
  }

  /** The short ones are their beginnings: three letters, four for September. */
  lemma ShortNames(t: Tm)
    ensures CalendarText('a', t) == CalendarText('A', t)[..3]
    ensures |CalendarText('b', t)| == if t.mon == 8 then 4 else 3
    ensures CalendarText('h', t) == CalendarText('b', t) == CalendarText('B', t)[..|CalendarText('b', t)|]
  {
    DayBeginnings(t.wday);
    MonthBeginnings(t.mon);
  }

  lemma DayBeginnings(d: nat)
    requires d < 7
    ensures |FULL_DAYS[d]| >= 3 && DAYS[d] == FULL_DAYS[d][..3]
  {
  }

  lemma MonthBeginnings(m: nat)
    requires m < 12
    ensures |MONTHS[m]| == (if m == 8 then 4 else 3) <= |FULL_MONTHS[m]|
    ensures MONTHS[m] == FULL_MONTHS[m][..|MONTHS[m]|]
  {
  }

  /** The level names, from the least to the most severe. */
  lemma LevelNames(l: Level)
    ensures LevelName(l) ==
              ["trace", "debug", "info", "warning", "error", "critical", "off"][LevelIndex(l)]
    ensures LevelIndex(Trace) == 0 && LevelIndex(Debug) == 1 && LevelIndex(Info) == 2 && LevelIndex(Warn) == 3
    ensures LevelIndex(Err) == 4 && LevelIndex(Critical) == 5 && LevelIndex(Off) == 6
  {
  }

  /** The short level name is the first letter of the long one, as a capital. */
  lemma ShortLevelNames(l: Level)
    ensures |LevelName(l)| > 0 && |ShortLevelName(l)| == 1
    ensures 'a' <= LevelName(l)[0] <= 'z'
    ensures ShortLevelName(l)[0] as int - 'A' as int == LevelName(l)[0] as int - 'a' as int
  {
  }

  // ---------------------------------------------------------------- message fields

  /** Logger name, payload, level, and the parts of a source location. */
  lemma MessageTexts(msg: Msg, pid: nat)
    ensures MessageText('n', msg, pid) == msg.loggerName && MessageText('v', msg, pid) == msg.payload
    ensures MessageText('l', msg, pid) == LevelName(msg.level)
    ensures MessageText('L', msg, pid) == ShortLevelName(msg.level)
    ensures msg.source.line != 0 ==>
              && MessageText('g', msg, pid) == msg.source.filename && MessageText('!', msg, pid) == msg.source.funcname
              && MessageText('@', msg, pid) == MessageText('g', msg, pid) + ":" + MessageText('#', msg, pid)
              && AllDigits(MessageText('#', msg, pid)) && Value(MessageText('#', msg, pid)) == msg.source.line
              && MessageText('s', msg, pid) == Basename(msg.source.filename)
    ensures msg.source.line == 0 ==> forall flag :: flag in {'@', 's', 'g', '#', '!'} ==> MessageText(flag, msg, pid) == ""
  {
    ValueOfToDecimal(msg.source.line);
  }

  /** The short file name is what follows the last separator of folders. */
  lemma {:induction false} BasenameMeans(path: string)
    ensures var b := Basename(path);
            && '/' !in b && |b| <= |path| && path[|path| - |b|..] == b
            && (|b| < |path| ==> path[|path| - |b| - 1] == '/')
  {
    if exists i :: 0 <= i < |path| && path[i] == '/' {
      BasenameMeans(path[1..]);
      var i :| 0 <= i < |path| && path[i] == '/';
      if i > 0 {
        assert path[1..][i - 1] == '/';
      }
    }
  }

  /** Thread, process and epoch second read back ... */
  lemma MessageNumbers(msg: Msg, pid: nat)
    requires msg.time >= 0
    ensures AllDigits(MessageText('t', msg, pid)) && Value(MessageText('t', msg, pid)) == msg.threadId
    ensures AllDigits(MessageText('P', msg, pid)) && Value(MessageText('P', msg, pid)) == pid
    ensures AllDigits(MessageText('E', msg, pid)) && Value(MessageText('E', msg, pid)) == msg.time / 1_000_000_000
  {
    ValueOfToDecimal(msg.threadId);
    ValueOfToDecimal(pid);
    ValueOfToDecimal(msg.time / 1_000_000_000);
  }

  /** ... and the part of a second, in milli-, micro- and nanoseconds. */
  lemma FractionNumbers(msg: Msg, pid: nat)
    requires msg.time >= 0
    ensures AllDigits(MessageText('e', msg, pid)) && Value(MessageText('e', msg, pid)) == msg.time / 1_000_000 % 1_000
    ensures AllDigits(MessageText('f', msg, pid)) && Value(MessageText('f', msg, pid)) == msg.time / 1_000 % 1_000_000
    ensures AllDigits(MessageText('F', msg, pid)) && Value(MessageText('F', msg, pid)) == msg.time % 1_000_000_000
  {
    FractionTexts(msg, pid);
    MillisecondText(msg.time);
    MicrosecondText(msg.time);
    NanosecondText(msg.time);
  }

  lemma FractionTexts(msg: Msg, pid: nat)
    ensures MessageText('e', msg, pid) == Pad3(Unsigned(Fraction(msg.time, 1_000_000), MODULUS_32))
    ensures MessageText('f', msg, pid) == PadUint(Unsigned(Fraction(msg.time, 1_000), MODULUS_64), 6)
    ensures MessageText('F', msg, pid) == PadUint(Unsigned(Fraction(msg.time, 1), MODULUS_64), 9)
  {
  }

  lemma MillisecondText(time: nat)
    ensures var s := Pad3(Unsigned(Fraction(time, 1_000_000), MODULUS_32));
            AllDigits(s) && Value(s) == time / 1_000_000 % 1_000
  {
    Milliseconds(time);
    Pad3Value(time / 1_000_000 % 1_000);
  }

  lemma MicrosecondText(time: nat)
    ensures var s := PadUint(Unsigned(Fraction(time, 1_000), MODULUS_64), 6);
            AllDigits(s) && Value(s) == time / 1_000 % 1_000_000
  {
    Microseconds(time);
    PadUintValue(time / 1_000 % 1_000_000, 6);
  }

  lemma NanosecondText(time: nat)
    ensures var s := PadUint(Unsigned(Fraction(time, 1), MODULUS_64), 9);
            AllDigits(s) && Value(s) == time % 1_000_000_000
  {
    Nanoseconds(time);
    PadUintValue(time % 1_000_000_000, 9);
  }

  lemma Milliseconds(time: nat)
    ensures Unsigned(Fraction(time, 1_000_000), MODULUS_32) == time / 1_000_000 % 1_000
  {
    assert time / 1_000_000_000 * 1_000_000_000 / 1_000_000 == time / 1_000_000_000 * 1_000;
    assert time / 1_000_000 / 1_000 == time / 1_000_000_000;
  }

  lemma Microseconds(time: nat)
    ensures Unsigned(Fraction(time, 1_000), MODULUS_64) == time / 1_000 % 1_000_000
  {
    assert time / 1_000_000_000 * 1_000_000_000 / 1_000 == time / 1_000_000_000 * 1_000_000;
    assert time / 1_000 / 1_000_000 == time / 1_000_000_000;
  }

  lemma Nanoseconds(time: nat)
    ensures Unsigned(Fraction(time, 1), MODULUS_64) == time % 1_000_000_000
  {
  }

  // ---------------------------------------------------------------- elapsed time

  /** What an elapsed-time flag remembers after a series of messages. */
  function SinceAfter(start: int, msgs: seq<Msg>, t: Tm): (st: FlagState)
    ensures st.Since?
  {
    if msgs == [] then Since(start) else NextState(SinceAfter(start, msgs[..|msgs| - 1], t), msgs[|msgs| - 1], t)
  }

  /** The time of the message before, or of the compilation of the pattern. */
  function Before(start: int, msgs: seq<Msg>): int {
    if msgs == [] then start else msgs[|msgs| - 1].time
  }

  function UnitOf(flag: char): int {
    if flag == 'u' then 1 else if flag == 'i' then 1_000 else if flag == 'o' then 1_000_000 else 1_000_000_000
  }

  /** For each message, %u, %i, %o and %O show the nano-, micro-, milli- and seconds since the one before, and 0 when the
      clock went back. */
  lemma ElapsedIsSinceTheMessageBefore(flag: char, start: int, msgs: seq<Msg>, msg: Msg, t: Tm, env: Env)
    requires IsElapsedFlag(flag)
    ensures var s := FieldText(flag, SinceAfter(start, msgs, t), msg, t, env);
            var elapsed := msg.time - Before(start, msgs);
            AllDigits(s) && Value(s) == if elapsed > 0 then elapsed / UnitOf(flag) else 0
  {
    SinceTheMessageBefore(start, msgs, t);
    ElapsedField(flag, Before(start, msgs), msg, t, env);
    ElapsedValue(flag, Before(start, msgs), msg.time);
  }

  lemma SinceTheMessageBefore(start: int, msgs: seq<Msg>, t: Tm)
    ensures SinceAfter(start, msgs, t) == Since(Before(start, msgs))
  {
  }

  lemma ElapsedField(flag: char, last: int, msg: Msg, t: Tm, env: Env)
    requires IsElapsedFlag(flag)
    ensures FieldText(flag, Since(last), msg, t, env) == ElapsedText(flag, last, msg.time)
  {
  }

  lemma ElapsedValue(flag: char, last: int, time: int)
    requires IsElapsedFlag(flag)
    ensures var s := ElapsedText(flag, last, time);
            AllDigits(s) && Value(s) == if time > last then (time - last) / UnitOf(flag) else 0
  {
    if time > last {
      ValueOfToDecimal((time - last) / ElapsedUnit(flag));
    } else {
      NoTime(ElapsedUnit(flag));
      ValueOfToDecimal(0);
    }
  }

  lemma NoTime(unit: nat)
    requires unit > 0
    ensures 0 / unit == 0
  {
  }
}
