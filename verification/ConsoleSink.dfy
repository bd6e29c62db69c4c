/** Colour marks: where a formatted line records its coloured range, and when that range is sound. */
module ColorMarks {
  import opened LogFields
  import opened PatternCompiler
  import opened PatternRender

  /** Both marks lie inside the text. */
  predicate MarksInside(line: Line) {
    !line.failed && line.start <= |line.text| && line.end <= |line.text|
  }

  /** A field is never cut by more than it writes: there is no truncation mark, or its flag writes at least what it
      announces, or the cut is within the shortest text the flag can write. */
  predicate SafeField(flag: char, pad: Padding) {
    !pad.enabled || !pad.truncate || !MayWriteLess(flag) || DeclaredSize(flag, "") <= pad.width + ShortestText(flag)
  }

  predicate SoundPattern(fs: seq<Formatter>) {
    forall i :: 0 <= i < |fs| && fs[i].Field? ==> SafeField(fs[i].flag, fs[i].pad)
  }

  lemma DeclaredOfShort(flag: char, text: string)
    requires MayWriteLess(flag)
    ensures DeclaredSize(flag, text) == DeclaredSize(flag, "")
  {
  }

  lemma SafeFieldIsNotOvercut(flag: char, pad: Padding, st: FlagState, msg: Msg, t: Tm, env: Env)
    requires IsFieldFlag(flag) && SafeField(flag, pad)
    ensures var field := FieldText(flag, st, msg, t, env); Cut(pad, DeclaredSize(flag, field)) <= |field|
  {
    var field := FieldText(flag, st, msg, t, env);
    if MayWriteLess(flag) {
      DeclaredOfShort(flag, field);
      if IsCalendarFlag(flag) {
        ShortCalendarText(flag, t);
      }
    } else if IsCalendarFlag(flag) {
      CalendarWritesDeclared(flag, t);
    } else if IsMessageFlag(flag) {
      MessageWritesDeclared(flag, msg, env.pid);
    }
  }

  /** A text of the flag that is as short as possible. */
  lemma ShortestField(flag: char) returns (msg: Msg, t: Tm, env: Env)
    requires IsFieldFlag(flag) && MayWriteLess(flag)
    ensures |FieldText(flag, Plain, msg, t, env)| == ShortestText(flag)
  {
    msg := Msg("", Info, 0, 0, Source("", 0, ""), "");
    t := EARLY;
    env := Env(0, (_, _, _, _) => "");
    if IsCalendarFlag(flag) {
      ShortestCalendarText(flag);
      t :| |CalendarText(flag, t)| == ShortestText(flag);
    } else {
      ShortEpochText(0);
    }
  }

  /** The formatter extends every text, and leaves both marks inside it, whatever it is given to format. */
  ghost predicate KeepsMarks(f: Formatter)
    requires f.Field? ==> IsFieldFlag(f.flag)
  {
    forall st, msg, t: Tm, env, cached, line :: MarksInside(line) ==>
      Extends(RunFlag(f, st, msg, t, env, cached, line), line)
  }

  predicate Extends(r: Line, line: Line) {
    MarksInside(r) && |line.text| <= |r.text| && r.text[..|line.text|] == line.text
  }

  /** No formatter of a sound pattern shrinks the text below where it started. */
  lemma FlagGrows(f: Formatter, st: FlagState, msg: Msg, t: Tm, env: Env, cached: bool, line: Line)
    requires MarksInside(line) && (f.Field? ==> IsFieldFlag(f.flag) && SafeField(f.flag, f.pad))
    ensures Extends(RunFlag(f, st, msg, t, env, cached, line), line)
  {
    if f.Field? {
      var field := FieldText(f.flag, st, msg, t, env);
      SafeFieldIsNotOvercut(f.flag, f.pad, st, msg, t, env);
      FieldKeepsEarlierText(line, f.pad, DeclaredSize(f.flag, field), field);
    } else if f.Full? {
      FullLineGrows(line, if cached && st.DateCache? then NextState(st, msg, t).text else DateText(t), msg);
    }
  }

  /** A field keeps the text before it and both marks, for everything it may be given, exactly when it is safe. */
  lemma FieldKeepsMarksExactly(flag: char, pad: Padding)
    requires IsFieldFlag(flag)
    ensures KeepsMarks(Field(flag, pad)) <==> SafeField(flag, pad)
  {
    if SafeField(flag, pad) {
      forall st, msg, t: Tm, env, cached, line | MarksInside(line)
        ensures Extends(RunFlag(Field(flag, pad), st, msg, t, env, cached, line), line)
      {
        FlagGrows(Field(flag, pad), st, msg, t, env, cached, line);
      }
    } else {
      UnsafeFieldLosesMark(flag, pad);
    }
  }

  /** An unsafe field with its shortest text cuts off the last character before it, and a mark behind that character
      is left outside. */
  lemma UnsafeFieldLosesMark(flag: char, pad: Padding)
    requires IsFieldFlag(flag) && !SafeField(flag, pad)
    ensures !KeepsMarks(Field(flag, pad))
  {
    var msg, t, env := ShortestField(flag);
    var field := FieldText(flag, Plain, msg, t, env);
    var line := Line("a", 1, 0, false);
    DeclaredOfShort(flag, field);
    FieldKeepsEarlierText(line, pad, DeclaredSize(flag, field), field);
    assert !Extends(RunFlag(Field(flag, pad), Plain, msg, t, env, true, line), line);
  }

  /** A pattern is sound exactly when each of its formatters keeps the marks. */
  lemma SoundPatternExactly(fs: seq<Formatter>)
    requires WellFormed(fs)
    ensures SoundPattern(fs) <==> forall i :: 0 <= i < |fs| ==> KeepsMarks(fs[i])
  {
    forall i | 0 <= i < |fs|
      ensures KeepsMarks(fs[i]) <==> fs[i].Field? ==> SafeField(fs[i].flag, fs[i].pad)
    {
      if fs[i].Field? {
        FieldKeepsMarksExactly(fs[i].flag, fs[i].pad);
      } else {
        OthersKeepMarks(fs[i]);
      }
    }
  }

  lemma OthersKeepMarks(f: Formatter)
    requires !f.Field?
    ensures KeepsMarks(f)
  {
    forall st, msg, t: Tm, env, cached, line | MarksInside(line)
      ensures Extends(RunFlag(f, st, msg, t, env, cached, line), line)
    {
      FlagGrows(f, st, msg, t, env, cached, line);
    }
  }

  lemma FullLineGrows(line: Line, date: string, msg: Msg)
    requires !line.failed
    ensures var r := FullLine(line, date, msg);
            MarksInside(r) && |line.text| <= |r.text| && r.text[..|line.text|] == line.text && r.start <= r.end
  {
  }

  /** For every sound pattern both marks lie inside the final text, which extends the text it started from. */
  lemma {:induction false} MarksAreSound(
      fs: seq<Formatter>, sts: seq<FlagState>, msg: Msg, t: Tm, env: Env, cached: bool, line: Line)
    requires |sts| == |fs| && WellFormed(fs) && SoundPattern(fs) && MarksInside(line)
    ensures Extends(RunAll(fs, sts, msg, t, env, cached, line), line)
    decreases |fs|
  {
    if fs != [] {
      FlagGrows(fs[0], sts[0], msg, t, env, cached, line);
      MarksAreSound(fs[1..], sts[1..], msg, t, env, cached, RunFlag(fs[0], sts[0], msg, t, env, cached, line));
    }
  }

  /** Without the condition the marks can be wrong: a short date cut to one character removes what stood before it. */
  lemma OvercutMovesTextBehindMark(msg: Msg, t: Tm, env: Env)
    requires t.year >= 0
    ensures var fs := [Aggregate("abcd"), ColorStart, Field('D', Padding(1, Left, true, true)), ColorStop];
            var r := RunAll(fs, [Plain, Plain, Plain, Plain], msg, t, env, true, Line("", 0, 0, false));
            r.text == "abc" && r.start == 4 && !MarksInside(r)
  {
    var pad := Padding(1, Left, true, true);
    var fs := [Aggregate("abcd"), ColorStart, Field('D', pad), ColorStop];
    var sts := [Plain, Plain, Plain, Plain];
    var l1 := Line("abcd", 0, 0, false);
    var l2 := Line("abcd", 4, 0, false);
    assert RunFlag(fs[0], Plain, msg, t, env, true, Line("", 0, 0, false)) == l1 by {
      assert "" + "abcd" == "abcd";
    }
    ShortDateWritesLess(t);
    var date := CalendarText('D', t);
    var body := "abcd" + Spread(' ', 0) + date + Spread(' ', 0);
    assert body[..|body| - 9] == "abc";
    assert RunFlag(fs[2], Plain, msg, t, env, true, l2) == Line("abc", 4, 0, false);
    RunFour(fs, sts, msg, t, env, Line("", 0, 0, false));
  }

  lemma RunFour(fs: seq<Formatter>, sts: seq<FlagState>, msg: Msg, t: Tm, env: Env, line: Line)
    requires |fs| == |sts| == 4 && WellFormed(fs)
    ensures var l1 := RunFlag(fs[0], sts[0], msg, t, env, true, line);
            var l2 := RunFlag(fs[1], sts[1], msg, t, env, true, l1);
            var l3 := RunFlag(fs[2], sts[2], msg, t, env, true, l2);
            RunAll(fs, sts, msg, t, env, true, line) == RunFlag(fs[3], sts[3], msg, t, env, true, l3)
  {
    var l1 := RunFlag(fs[0], sts[0], msg, t, env, true, line);
    var l2 := RunFlag(fs[1], sts[1], msg, t, env, true, l1);
    var l3 := RunFlag(fs[2], sts[2], msg, t, env, true, l2);
    var a, b, c := fs[1..], fs[1..][1..], fs[1..][1..][1..];
    assert RunAll(fs, sts, msg, t, env, true, line) == RunAll(a, sts[1..], msg, t, env, true, l1);
    assert RunAll(a, sts[1..], msg, t, env, true, l1) == RunAll(b, sts[1..][1..], msg, t, env, true, l2);
    assert RunAll(b, sts[1..][1..], msg, t, env, true, l2) == RunAll(c, sts[1..][1..][1..], msg, t, env, true, l3);
  }

  // ---------------------------------------------------------------- the console

  const RESET: string := "\U{1b}[m"

  /** What the console sink writes for a line: the coloured range between two colour codes. */
  function ConsoleText(line: Line, code: string, colors: bool): string
    requires MarksInside(line)
  {
    if colors && line.end > line.start then
      line.text[..line.start] + code + line.text[line.start..line.end] + RESET + line.text[line.end..]
    else line.text
  }

  /** Removes n characters at position i. */
  function Without(s: string, i: nat, n: nat): string
    requires i + n <= |s|
  {
    s[..i] + s[i + n..]
  }

  /** Printing the parts one after the other. */
  lemma ColouredText(line: Line, code: string, before: string)
    requires MarksInside(line) && line.end > line.start
    ensures before + line.text[0..line.start] + code + line.text[line.start..line.end] + RESET
            + line.text[line.end..|line.text|]
            == before + ConsoleText(line, code, true)
  {
    assert line.text[0..line.start] == line.text[..line.start];
    assert line.text[line.end..|line.text|] == line.text[line.end..];
  }

  /** Without colours, or without a coloured range, the line is written as it is. */
  lemma PlainConsoleText(line: Line, code: string, colors: bool)
    requires MarksInside(line) && (!colors || line.end <= line.start)
    ensures ConsoleText(line, code, colors) == line.text
  {
  }

  /** Taking the two colour codes out of the console text gives back exactly the formatted text. */
  lemma ConsoleTextWithoutCodes(line: Line, code: string)
    requires MarksInside(line) && line.end > line.start
    ensures var out := ConsoleText(line, code, true);
            && |out| == |line.text| + |code| + |RESET|
            && out[line.start..line.start + |code|] == code
            && out[line.end + |code|..line.end + |code| + |RESET|] == RESET
            && Without(Without(out, line.end + |code|, |RESET|), line.start, |code|) == line.text
  {
    var out := ConsoleText(line, code, true);
    var a, b, c := line.text[..line.start], line.text[line.start..line.end], line.text[line.end..];
    assert out == a + code + b + RESET + c;
    assert Without(out, line.end + |code|, |RESET|) == a + code + b + c;
    assert Without(a + code + b + c, line.start, |code|) == a + b + c;
    assert a + b + c == line.text;
  }
}

/** The formatter and console sink objects. */
module ConsoleSink {
  import opened LogFields
  import opened PatternCompiler
  import opened PatternRender
  import opened PatternFormatter
  import opened ColorMarks

  /** The mutable colour range of a message. */
  class ColorRange {
    var start: nat
    var end: nat

    constructor ()
      ensures start == 0 && end == 0
    {
      start, end := 0, 0;
    }
  }

  class FormatterObject {
    const config: Config
    const compiler: Compiler
    var states: seq<FlagState>
    var cachedTm: Tm
    var lastLogSecs: int

    ghost predicate Valid()
      reads this, compiler
    {
      compiler.custom == config.custom && ValidState(Abs())
    }

    ghost function Abs(): State
      reads this, compiler
    {
      State(compiler.formatters, states, compiler.needLocaltime, cachedTm, lastLogSecs)
    }

    constructor (pattern: string, now: int, config: Config)
      ensures Valid() && this.config == config && fresh(compiler)
      ensures Abs() == NewFormatter(pattern, now, config)
    {
      this.config := config;
      var c := new Compiler(config.custom);
      compiler := c;
      states := [];
      cachedTm, lastLogSecs := BLANK_TM, 0;
      new;
      compiler.CompilePattern(pattern);
      states := FreshStates(compiler.formatters, now);
      CompileWellFormed(pattern, "", config.custom);
    }

    method SetPattern(pattern: string, now: int)
      requires Valid()
      modifies this`states, compiler
      ensures Valid() && Abs() == Next(old(Abs()), Event.SetPattern(pattern, now), config)
    {
      compiler.needLocaltime := false;
      compiler.CompilePattern(pattern);
      states := FreshStates(compiler.formatters, now);
      CompileWellFormed(pattern, "", config.custom);
    }

    /** One flag formatter writes to the buffer, may set a colour mark, and updates what it remembers. */
    method FormatFlag(i: nat, msg: Msg, dest: MemoryBuf, range: ColorRange) returns (failed: bool)
      requires Valid() && i < |states|
      modifies this`states, dest, range
      ensures Valid() && states == old(states)[i := NextState(old(states[i]), msg, cachedTm)]
      ensures Line(dest.data, range.start, range.end, failed)
              == RunFlag(compiler.formatters[i], old(states[i]), msg, cachedTm, config.env, true,
                         Line(old(dest.data), old(range.start), old(range.end), false))
    {
      failed := false;
      var st := states[i];
      var next := NextState(st, msg, cachedTm);
      match compiler.formatters[i]
      case Full =>
        var line := FullLine(Line(dest.data, range.start, range.end, false),
                             if st.DateCache? then next.text else DateText(cachedTm), msg);
        dest.data := line.text;
        range.start, range.end := line.start, line.end;
        states := states[i := next];
      case Field(flag, pad) =>
        var field := FieldText(flag, st, msg, cachedTm, config.env);
        failed := FormatField(dest, pad, DeclaredSize(flag, field), field);
        states := states[i := next];
      case ColorStart =>
        range.start := |dest.data|;
        states := states[i := next];
      case ColorStop =>
        range.end := |dest.data|;
        states := states[i := next];
      case Percent =>
        dest.PushBack('%');
        states := states[i := next];
      case Aggregate(text) =>
        dest.Append(text);
        states := states[i := next];
      case Custom(flag, pad) =>
        dest.Append(config.env.customText(flag, pad, msg, cachedTm));
        states := states[i := next];
    }

    /** The loop over the formatters. A padder that fails ends the program, and so the loop. */
    method RunFlags(msg: Msg, dest: MemoryBuf, range: ColorRange) returns (failed: bool)
      requires Valid()
      modifies this`states, dest, range
      ensures Valid() && (!failed ==> states == NextStates(old(states), msg, cachedTm))
      ensures Line(dest.data, range.start, range.end, failed)
              == RunAll(compiler.formatters, old(states), msg, cachedTm, config.env, true,
                        Line(old(dest.data), old(range.start), old(range.end), false))
    {
      ghost var fs, sts, env := compiler.formatters, states, config.env;
      ghost var line := Line(dest.data, range.start, range.end, false);
      var i := 0;
      failed := false;
      assert fs[0..] == fs && sts[0..] == sts;
      while i < |compiler.formatters|
        invariant i <= |fs| && Valid() && |states| == |sts| && !failed
        invariant forall k :: 0 <= k < |sts| ==> states[k] == if k < i then NextState(sts[k], msg, cachedTm) else sts[k]
        invariant RunAll(fs[i..], sts[i..], msg, cachedTm, env, true, Line(dest.data, range.start, range.end, false))
                  == RunAll(fs, sts, msg, cachedTm, env, true, line)
      {
        assert fs[i..][1..] == fs[i + 1..] && sts[i..][1..] == sts[i + 1..];
        failed := FormatFlag(i, msg, dest, range);
        if failed {
          FailedLineStays(fs[i + 1..], sts[i + 1..], msg, cachedTm, env, true,
                          Line(dest.data, range.start, range.end, true));
          return;
        }
        i := i + 1;
      }
      assert states == NextStates(sts, msg, cachedTm);
    }

    /** Formats a message behind whatever the buffer holds, refreshing the calendar cache when its second has changed.
        A sound pattern never fails. */
    method Format(msg: Msg, dest: MemoryBuf, range: ColorRange) returns (failed: bool)
      requires Valid()
      modifies this, dest, range
      ensures Valid() && (!failed ==> Abs() == Next(old(Abs()), FormatMsg(msg), config))
      ensures Line(dest.data, range.start, range.end, failed)
              == OutputOn(old(Abs()), msg, config, Line(old(dest.data), old(range.start), old(range.end), false))
    {
      if compiler.needLocaltime {
        var secs := Secs(msg.time);
        if secs != lastLogSecs {
          cachedTm := config.clock(secs);
          lastLogSecs := secs;
        }
      }
      assert Abs() == Refreshed(old(Abs()), msg, config);
      failed := RunFlags(msg, dest, range);
      if !failed {
        dest.Append(config.eol);
      }
    }
  }

  lemma {:induction false} FailedLineStays(
      fs: seq<Formatter>, sts: seq<FlagState>, msg: Msg, t: Tm, env: Env, cached: bool, line: Line)
    requires |sts| == |fs| && WellFormed(fs) && line.failed
    ensures RunAll(fs, sts, msg, t, env, cached, line) == line
    decreases |fs|
  {
    if fs != [] {
      FailedLineStays(fs[1..], sts[1..], msg, t, env, cached, line);
    }
  }

  /** Whatever was formatted before, a sound pattern extends the line and leaves its marks sound. */
  lemma OutputMarksInside(s: State, msg: Msg, c: Config, line: Line)
    requires ValidState(s) && SoundPattern(s.formatters) && MarksInside(line)
    ensures Extends(OutputOn(s, msg, c, line), line)
  {
    MarksAreSound(s.formatters, s.states, msg, Refreshed(s, msg, c).cachedTm, c.env, true, line);
  }

  const WHITE: string := "\U{1b}[37m"
  const CYAN: string := "\U{1b}[36m"
  const GREEN: string := "\U{1b}[32m"
  const YELLOW_BOLD: string := "\U{1b}[33m\U{1b}[1m"
  const RED_BOLD: string := "\U{1b}[31m\U{1b}[1m"
  const BOLD_ON_RED: string := "\U{1b}[1m\U{1b}[41m"

  class AnsicolorSink {
    const formatter: FormatterObject
    var shouldDoColors: bool
    var colors: seq<string>
    var target: string            // everything written to the console

    ghost predicate Valid()
      reads this, formatter, formatter.compiler
    {
      formatter.Valid() && SoundPattern(formatter.compiler.formatters) && |colors| == 7
    }

    constructor (formatter: FormatterObject, shouldDoColors: bool)
      requires formatter.Valid() && SoundPattern(formatter.compiler.formatters)
      ensures Valid() && this.formatter == formatter && this.shouldDoColors == shouldDoColors && target == ""
      ensures colors[LevelIndex(Trace)] == WHITE && colors[LevelIndex(Debug)] == CYAN
      ensures colors[LevelIndex(Info)] == GREEN && colors[LevelIndex(Warn)] == YELLOW_BOLD
      ensures colors[LevelIndex(Err)] == RED_BOLD && colors[LevelIndex(Critical)] == BOLD_ON_RED
      ensures colors[LevelIndex(Off)] == RESET
    {
      this.formatter := formatter;
      this.shouldDoColors := shouldDoColors;
      target := "";
      colors := [WHITE, CYAN, GREEN, YELLOW_BOLD, RED_BOLD, BOLD_ON_RED, RESET];
    }

    method PrintRange(formatted: MemoryBuf, start: nat, end: nat)
      requires start <= end <= |formatted.data|
      modifies this`target
      ensures target == old(target) + formatted.data[start..end]
    {
      target := target + formatted.data[start..end];
    }

    method PrintCode(code: string)
      modifies this`target
      ensures target == old(target) + code
    {
      target := target + code;
    }

    /** Prints a formatted line, with its coloured range, if any, between two colour codes. */
    method PrintLine(formatted: MemoryBuf, range: ColorRange, code: string)
      requires MarksInside(Line(formatted.data, range.start, range.end, false))
      modifies this`target
      ensures target == old(target)
                        + ConsoleText(Line(formatted.data, range.start, range.end, false), code, shouldDoColors)
    {
      if shouldDoColors && range.end > range.start {
        PrintRange(formatted, 0, range.start);
        PrintCode(code);
        PrintRange(formatted, range.start, range.end);
        PrintCode(RESET);
        PrintRange(formatted, range.end, |formatted.data|);
        ColouredText(Line(formatted.data, range.start, range.end, false), code, old(target));
      } else {
        PrintRange(formatted, 0, |formatted.data|);
        assert formatted.data[0..|formatted.data|] == formatted.data;
      }
    }

    /** Writes the formatted line to the console. */
    method Log(msg: Msg)
      requires Valid()
      modifies this`target, formatter
      ensures Valid() && formatter.Abs() == Next(old(formatter.Abs()), FormatMsg(msg), formatter.config)
      ensures var line := Output(old(formatter.Abs()), msg, formatter.config);
              && MarksInside(line)
              && target == old(target) + ConsoleText(line, colors[LevelIndex(msg.level)], shouldDoColors)
    {
      OutputMarksInside(formatter.Abs(), msg, formatter.config, NO_LINE);
      var range := new ColorRange();
      var formatted := new MemoryBuf();
      var _ := formatter.Format(msg, formatted, range);
      PrintLine(formatted, range, colors[LevelIndex(msg.level)]);
    }
  }
}
