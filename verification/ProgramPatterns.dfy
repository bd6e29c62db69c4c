/** The lines of the two patterns the program sets, of the default pattern, and of patterns with unknown flags. */
module ProgramPatterns {
  import opened Decimal
  import opened LogFields
  import opened PatternCompiler
  import opened PatternRender
  import opened PatternFormatter
  import opened ColorMarks
  import opened LogMeanings

  // ---------------------------------------------------------------- compiling

  /** A flag that is not taken for padding. */
  predicate PlainFlag(flag: char) {
    !IsDigit(flag) && flag != '-' && flag != '='
  }

  lemma {:induction false} CompileText(text: string, rest: string, pending: string, custom: set<char>)
    requires '%' !in text
    ensures Compile(text + rest, pending, custom) == Compile(rest, pending + text, custom)
    decreases |text|
  {
    if text == "" {
      assert text + rest == rest && pending + text == pending;
    } else {
      CompileLiteral(text[0], text[1..] + rest, pending, custom);
      assert text + rest == [text[0]] + (text[1..] + rest);
      CompileText(text[1..], rest, pending + [text[0]], custom);
      assert (pending + [text[0]]) + text[1..] == pending + text;
    }
  }

  lemma PadspecOfPlain(flag: char, rest: string)
    requires PlainFlag(flag)
    ensures HandlePadspec([flag] + rest) == PadSpec(NO_PADDING, [flag] + rest)
  {
  }

  lemma CompileFlagAlone(flag: char, rest: string, pending: string, custom: set<char>)
    requires PlainFlag(flag)
    ensures Compile(['%', flag] + rest, pending, custom)
            == Flush(pending) + HandleFlag(flag, NO_PADDING, custom) + Compile(rest, "", custom)
  {
    var p := ['%', flag] + rest;
    assert p[1..] == [flag] + rest;
    PadspecOfPlain(flag, rest);
    CompileAtPercent([], p, pending, custom);
    assert ([flag] + rest)[1..] == rest;
    assert [] + Compile(p, pending, custom) == Compile(p, pending, custom);
    assert [] + Flush(pending) == Flush(pending);
  }

  /** Some text, a flag, and the rest of the pattern. */
  lemma CompilePiece(text: string, flag: char, rest: string, custom: set<char>)
    requires '%' !in text && PlainFlag(flag)
    ensures Compile(text + (['%', flag] + rest), "", custom)
            == Flush(text) + HandleFlag(flag, NO_PADDING, custom) + Compile(rest, "", custom)
  {
    CompileText(text, ['%', flag] + rest, "", custom);
    assert "" + text == text;
    CompileFlagAlone(flag, rest, text, custom);
  }

  lemma CompileEnd(custom: set<char>)
    ensures Compile("", "", custom) == []
  {
  }

  // ---------------------------------------------------------------- running

  lemma RunFirst(
      f: Formatter, fs: seq<Formatter>, sts: seq<FlagState>, msg: Msg, t: Tm, env: Env, cached: bool, line: Line)
    requires |sts| == |fs| + 1 && WellFormed([f] + fs)
    ensures WellFormed(fs)
    ensures RunAll([f] + fs, sts, msg, t, env, cached, line)
            == RunAll(fs, sts[1..], msg, t, env, cached, RunFlag(f, sts[0], msg, t, env, cached, line))
  {
    assert ([f] + fs)[1..] == fs && ([f] + fs)[0] == f;
    forall i | 0 <= i < |fs| && fs[i].Field?
      ensures IsFieldFlag(fs[i].flag) && fs[i].pad.width <= MAX_WIDTH
    {
      assert ([f] + fs)[i + 1] == fs[i];
    }
  }

  /** A text, or a field without padding, is appended. */
  predicate Appends(f: Formatter, text: string, msg: Msg, t: Tm, env: Env) {
    || f == Aggregate(text)
    || (f.Field? && f.pad == NO_PADDING && IsFieldFlag(f.flag) && !IsElapsedFlag(f.flag) && f.flag != 'z'
        && FieldText(f.flag, Plain, msg, t, env) == text)
  }

  lemma RunAppends(
      f: Formatter, text: string, fs: seq<Formatter>, sts: seq<FlagState>, msg: Msg, t: Tm, env: Env, cached: bool,
      line: Line)
    requires |sts| == |fs| + 1 && WellFormed([f] + fs) && Appends(f, text, msg, t, env) && !line.failed
    ensures WellFormed(fs)
    ensures RunAll([f] + fs, sts, msg, t, env, cached, line)
            == RunAll(fs, sts[1..], msg, t, env, cached, line.(text := line.text + text))
  {
    RunFirst(f, fs, sts, msg, t, env, cached, line);
    if f.Field? {
      StateDoesNotMatter(f.flag, sts[0], msg, t, env);
      UnpaddedField(line, DeclaredSize(f.flag, text), text);
    }
  }

  lemma StateDoesNotMatter(flag: char, st: FlagState, msg: Msg, t: Tm, env: Env)
    requires IsFieldFlag(flag) && !IsElapsedFlag(flag) && flag != 'z'
    ensures FieldText(flag, st, msg, t, env) == FieldText(flag, Plain, msg, t, env)
  {
  }

  lemma UnpaddedField(line: Line, size: nat, field: string)
    ensures WriteField(line, NO_PADDING, size, field) == line.(text := line.text + field)
  {
    assert Spread(' ', 0) == "";
    assert line.text + Spread(' ', 0) + field + Spread(' ', 0) == line.text + field;
  }

  /** A series of formatters that append, one after the other. */
  ghost predicate AppendAll(fs: seq<Formatter>, texts: seq<string>, msg: Msg, t: Tm, env: Env) {
    |fs| == |texts| && forall i :: 0 <= i < |fs| ==> Appends(fs[i], texts[i], msg, t, env)
  }

  function Together(texts: seq<string>): string {
    if texts == [] then "" else texts[0] + Together(texts[1..])
  }

  lemma {:induction false} RunAppendAll(
      fs: seq<Formatter>, texts: seq<string>, sts: seq<FlagState>, msg: Msg, t: Tm, env: Env, cached: bool, line: Line)
    requires |sts| == |fs| && WellFormed(fs) && AppendAll(fs, texts, msg, t, env) && !line.failed
    ensures RunAll(fs, sts, msg, t, env, cached, line) == line.(text := line.text + Together(texts))
    decreases |fs|
  {
    if fs == [] {
      assert line.text + "" == line.text;
    } else {
      assert fs == [fs[0]] + fs[1..];
      AppendTail(fs, texts, msg, t, env);
      RunAppends(fs[0], texts[0], fs[1..], sts, msg, t, env, cached, line);
      RunAppendAll(fs[1..], texts[1..], sts[1..], msg, t, env, cached, line.(text := line.text + texts[0]));
      AppendTogether(line.text, texts);
    }
  }

  lemma AppendTail(fs: seq<Formatter>, texts: seq<string>, msg: Msg, t: Tm, env: Env)
    requires fs != [] && AppendAll(fs, texts, msg, t, env)
    ensures Appends(fs[0], texts[0], msg, t, env) && AppendAll(fs[1..], texts[1..], msg, t, env)
  {
  }

  lemma AppendTogether(before: string, texts: seq<string>)
    requires texts != []
    ensures (before + texts[0]) + Together(texts[1..]) == before + Together(texts)
  {
  }

  // ---------------------------------------------------------------- formatters in use

  /** A formatter of the given pattern after any messages. */
  lemma {:induction false} UsedFormatter(s: State, earlier: seq<Msg>, c: Config)
    requires ValidState(s) && CacheInv(s, c)
    ensures var r := After(s, Formats(earlier), c);
            r.formatters == s.formatters && r.needTime == s.needTime && CacheInv(r, c)
    decreases |earlier|
  {
    if earlier != [] {
      assert Formats(earlier)[0] == FormatMsg(earlier[0]) && Formats(earlier)[1..] == Formats(earlier[1..]);
      UsedFormatter(Next(s, FormatMsg(earlier[0]), c), earlier[1..], c);
    }
  }

  function Formats(msgs: seq<Msg>): (r: seq<Event>)
    ensures |r| == |msgs|
  {
    seq(|msgs|, i requires 0 <= i < |msgs| => FormatMsg(msgs[i]))
  }

  /** What a new formatter of a pattern writes for a message, after any other messages. */
  function LineOf(pattern: string, now: int, earlier: seq<Msg>, msg: Msg, c: Config): Line {
    Output(After(NewFormatter(pattern, now, c), Formats(earlier), c), msg, c)
  }

  /** For a pattern of appending formatters that needs the time, and a message outside second 0. */
  lemma LineOfAppends(
      pattern: string, fs: seq<Formatter>, texts: seq<string>, now: int, earlier: seq<Msg>, msg: Msg, c: Config)
    requires Compile(pattern, "", c.custom) == fs && AnyNeedsTime(fs) && Secs(msg.time) != 0
    requires AppendAll(fs, texts, msg, c.clock(Secs(msg.time)), c.env)
    ensures LineOf(pattern, now, earlier, msg, c) == Line(Together(texts) + c.eol, 0, 0, false)
  {
    var s := After(NewFormatter(pattern, now, c), Formats(earlier), c);
    UsedFormatter(NewFormatter(pattern, now, c), earlier, c);
    assert Refreshed(s, msg, c).cachedTm == c.clock(Secs(msg.time));
    RunAppendAll(fs, texts, s.states, msg, c.clock(Secs(msg.time)), c.env, true, NO_LINE);
    assert "" + Together(texts) == Together(texts);
  }

  // ---------------------------------------------------------------- the pattern of the log file

  lemma BuiltInFlag(flag: char, custom: set<char>)
    requires flag !in custom && IsFieldFlag(flag)
    ensures HandleFlag(flag, NO_PADDING, custom) == [Field(flag, NO_PADDING)]
  {
  }

  /** The custom flags leave the given ones alone. */
  predicate BuiltIn(flags: string, custom: set<char>) {
    forall i :: 0 <= i < |flags| ==> flags[i] !in custom
  }

  lemma LastPiece(text: string, flag: char, custom: set<char>)
    requires '%' !in text && text != "" && PlainFlag(flag) && IsFieldFlag(flag) && flag !in custom
    ensures Compile(text + ['%', flag], "", custom) == [Aggregate(text), Field(flag, NO_PADDING)]
  {
    CompilePiece(text, flag, "", custom);
    CompileEnd(custom);
    BuiltInFlag(flag, custom);
    assert ['%', flag] + "" == ['%', flag];
  }

  lemma NextPiece(text: string, flag: char, rest: string, custom: set<char>)
    requires '%' !in text && text != "" && PlainFlag(flag) && IsFieldFlag(flag) && flag !in custom
    ensures Compile(text + (['%', flag] + rest), "", custom)
            == [Aggregate(text), Field(flag, NO_PADDING)] + Compile(rest, "", custom)
  {
    CompilePiece(text, flag, rest, custom);
    BuiltInFlag(flag, custom);
  }

  /** "[%T] [%l] %n: %v", as its pieces. */
  lemma FilePatternText(pattern: string) returns (r1: string, r2: string, r3: string)
    requires pattern == "[%T] [%l] %n: %v"
    ensures pattern == "[" + (['%', 'T'] + r1) && r1 == "] [" + (['%', 'l'] + r2)
    ensures r2 == "] " + (['%', 'n'] + r3) && r3 == ": " + ['%', 'v']
  {
    r3 := ": %v";
    r2 := "] %n: %v";
    r1 := "] [%l] %n: %v";
  }

  /** Its formatters. */
  function FileFormatters(): seq<Formatter> {
    [Aggregate("["), Field('T', NO_PADDING), Aggregate("] ["), Field('l', NO_PADDING),
     Aggregate("] "), Field('n', NO_PADDING), Aggregate(": "), Field('v', NO_PADDING)]
  }

  lemma FromPieces(a: seq<Formatter>, b: seq<Formatter>, c: seq<Formatter>, d: seq<Formatter>)
    requires |a| == |b| == |c| == |d| == 2
    ensures a + (b + (c + d)) == [a[0], a[1], b[0], b[1], c[0], c[1], d[0], d[1]]
  {
  }

  lemma CompileFilePattern(pattern: string, custom: set<char>)
    requires pattern == "[%T] [%l] %n: %v" && BuiltIn("Tlnv", custom)
    ensures Compile(pattern, "", custom) == FileFormatters()
  {
    FlagsOfFile(custom);
    var r1, r2, r3 := FilePatternText(pattern);
    CompileFilePieces(pattern, r1, r2, r3, custom);
  }

  lemma CompileFilePieces(pattern: string, r1: string, r2: string, r3: string, custom: set<char>)
    requires pattern == "[" + (['%', 'T'] + r1) && r1 == "] [" + (['%', 'l'] + r2)
    requires r2 == "] " + (['%', 'n'] + r3) && r3 == ": " + ['%', 'v']
    requires 'T' !in custom && 'l' !in custom && 'n' !in custom && 'v' !in custom
    ensures Compile(pattern, "", custom) == FileFormatters()
  {
    LastPiece(": ", 'v', custom);
    NextPiece("] ", 'n', r3, custom);
    NextPiece("] [", 'l', r2, custom);
    NextPiece("[", 'T', r1, custom);
    FromPieces([Aggregate("["), Field('T', NO_PADDING)], [Aggregate("] ["), Field('l', NO_PADDING)],
               [Aggregate("] "), Field('n', NO_PADDING)], [Aggregate(": "), Field('v', NO_PADDING)]);
  }

  lemma FlagsOfFile(custom: set<char>)
    requires BuiltIn("Tlnv", custom)
    ensures 'T' !in custom && 'l' !in custom && 'n' !in custom && 'v' !in custom
  {
    var f := "Tlnv";
    assert f[0] == 'T' && f[1] == 'l' && f[2] == 'n' && f[3] == 'v';
  }

  /** Whatever was logged before, a message outside second 0 is written to the file as
      [HH:MM:SS] [level] logger: payload. */
  lemma FileLine(pattern: string, now: int, earlier: seq<Msg>, msg: Msg, c: Config)
    requires pattern == "[%T] [%l] %n: %v" && BuiltIn("Tlnv", c.custom) && Secs(msg.time) != 0
    ensures LineOf(pattern, now, earlier, msg, c).text
            == "[" + ClockText(c.clock(Secs(msg.time))) + "] [" + LevelName(msg.level) + "] "
               + msg.loggerName + ": " + msg.payload + c.eol
  {
    CompileFilePattern(pattern, c.custom);
    FileLineOf(pattern, now, earlier, msg, c);
  }

  lemma FileLineOf(pattern: string, now: int, earlier: seq<Msg>, msg: Msg, c: Config)
    requires Compile(pattern, "", c.custom) == FileFormatters() && Secs(msg.time) != 0
    ensures LineOf(pattern, now, earlier, msg, c).text
            == "[" + ClockText(c.clock(Secs(msg.time))) + "] [" + LevelName(msg.level) + "] "
               + msg.loggerName + ": " + msg.payload + c.eol
  {
    var t := c.clock(Secs(msg.time));
    FileTexts(msg, t, c.env);
    LineOfAppends(pattern, FileFormatters(),
                  ["[", ClockText(t), "] [", LevelName(msg.level), "] ", msg.loggerName, ": ", msg.payload],
                  now, earlier, msg, c);
    TogetherEight("[", ClockText(t), "] [", LevelName(msg.level), "] ", msg.loggerName, ": ", msg.payload);
  }

  lemma FileTexts(msg: Msg, t: Tm, env: Env)
    ensures AnyNeedsTime(FileFormatters())
    ensures AppendAll(FileFormatters(),
                      ["[", ClockText(t), "] [", LevelName(msg.level), "] ", msg.loggerName, ": ", msg.payload],
                      msg, t, env)
  {
    assert NeedsTime(FileFormatters()[1]);
    LineFields(msg, t, env);
  }

  /** The fields of the two patterns. */
  lemma LineFields(msg: Msg, t: Tm, env: Env)
    ensures Appends(Field('T', NO_PADDING), ClockText(t), msg, t, env)
    ensures Appends(Field('l', NO_PADDING), LevelName(msg.level), msg, t, env)
    ensures Appends(Field('n', NO_PADDING), msg.loggerName, msg, t, env)
    ensures Appends(Field('v', NO_PADDING), msg.payload, msg, t, env)
  {
  }

  lemma TogetherEight(a: string, b: string, d: string, e: string, f: string, g: string, h: string, i: string)
    ensures Together([a, b, d, e, f, g, h, i]) == a + b + d + e + f + g + h + i
  {
    TogetherSnoc([a, b, d, e, f, g, h], i);
    TogetherSnoc([a, b, d, e, f, g], h);
    TogetherSix(a, b, d, e, f, g);
    assert [a, b, d, e, f, g, h, i] == [a, b, d, e, f, g, h] + [i];
    assert [a, b, d, e, f, g, h] == [a, b, d, e, f, g] + [h];
  }

  lemma TogetherSix(a: string, b: string, d: string, e: string, f: string, g: string)
    ensures Together([a, b, d, e, f, g]) == a + b + d + e + f + g
  {
    TogetherSnoc([a, b, d, e, f], g);
    TogetherSnoc([a, b, d, e], f);
    TogetherThree(a, b, d);
    TogetherSnoc([a, b, d], e);
    assert [a, b, d, e, f, g] == [a, b, d, e, f] + [g];
    assert [a, b, d, e, f] == [a, b, d, e] + [f];
    assert [a, b, d, e] == [a, b, d] + [e];
  }

  lemma TogetherThree(a: string, b: string, d: string)
    ensures Together([a, b, d]) == a + b + d
  {
    TogetherSnoc([a, b], d);
    TogetherSnoc([a], b);
    TogetherSnoc([], a);
    assert "" + a == a && [] + [a] == [a] && [a] + [b] == [a, b] && [a, b] + [d] == [a, b, d];
  }

  lemma {:induction false} TogetherSnoc(texts: seq<string>, x: string)
    ensures Together(texts + [x]) == Together(texts) + x
  {
    if texts == [] {
      assert texts + [x] == [x] && [x][1..] == [];
      assert x + "" == x && "" + x == x;
    } else {
      assert (texts + [x])[0] == texts[0] && (texts + [x])[1..] == texts[1..] + [x];
      TogetherSnoc(texts[1..], x);
      assert texts[0] + (Together(texts[1..]) + x) == (texts[0] + Together(texts[1..])) + x;
    }
  }

  // ---------------------------------------------------------------- the pattern of the console

  lemma MarkFlags(custom: set<char>)
    requires BuiltIn("^Tnv$", custom)
    ensures 'T' !in custom && 'n' !in custom && 'v' !in custom
    ensures HandleFlag('^', NO_PADDING, custom) == [ColorStart] && HandleFlag('$', NO_PADDING, custom) == [ColorStop]
  {
    var f := "^Tnv$";
    assert f[0] == '^' && f[1] == 'T' && f[2] == 'n' && f[3] == 'v' && f[4] == '$';
  }

  /** "%^[%T] %n: %v%$", as its pieces. */
  lemma ConsolePatternText(pattern: string) returns (r1: string, r2: string, r3: string, r4: string)
    requires pattern == "%^[%T] %n: %v%$"
    ensures pattern == ['%', '^'] + r1 && r1 == "[" + (['%', 'T'] + r2)
    ensures r2 == "] " + (['%', 'n'] + r3) && r3 == ": " + (['%', 'v'] + r4) && r4 == ['%', '$'] + ""
  {
    r4 := "%$";
    r3 := ": %v%$";
    r2 := "] %n: %v%$";
    r1 := "[%T] %n: %v%$";
  }

  /** What its marks enclose. */
  function ConsoleFormatters(): seq<Formatter> {
    [Aggregate("["), Field('T', NO_PADDING), Aggregate("] "), Field('n', NO_PADDING), Aggregate(": "),
     Field('v', NO_PADDING)]
  }

  lemma FromMarkedPieces(a: seq<Formatter>, b: seq<Formatter>, c: seq<Formatter>, d: seq<Formatter>)
    requires |a| == |b| == |c| == 2
    ensures a + (b + (c + d)) == [a[0], a[1], b[0], b[1], c[0], c[1]] + d
  {
  }

  lemma CompileConsolePattern(pattern: string, custom: set<char>)
    requires pattern == "%^[%T] %n: %v%$" && BuiltIn("^Tnv$", custom)
    ensures Compile(pattern, "", custom) == [ColorStart] + (ConsoleFormatters() + [ColorStop])
  {
    MarkFlags(custom);
    var r1, r2, r3, r4 := ConsolePatternText(pattern);
    CompileStop(r4, custom);
    CompileMarked(r1, r2, r3, r4, custom);
    CompileStart(pattern, r1, custom);
  }

  lemma CompileStop(r4: string, custom: set<char>)
    requires r4 == ['%', '$'] + "" && HandleFlag('$', NO_PADDING, custom) == [ColorStop]
    ensures Compile(r4, "", custom) == [ColorStop]
  {
    CompileFlagAlone('$', "", "", custom);
    CompileEnd(custom);
  }

  lemma CompileMarked(r1: string, r2: string, r3: string, r4: string, custom: set<char>)
    requires r1 == "[" + (['%', 'T'] + r2) && r2 == "] " + (['%', 'n'] + r3) && r3 == ": " + (['%', 'v'] + r4)
    requires 'T' !in custom && 'n' !in custom && 'v' !in custom && Compile(r4, "", custom) == [ColorStop]
    ensures Compile(r1, "", custom) == ConsoleFormatters() + [ColorStop]
  {
    NextPiece(": ", 'v', r4, custom);
    NextPiece("] ", 'n', r3, custom);
    NextPiece("[", 'T', r2, custom);
    FromMarkedPieces([Aggregate("["), Field('T', NO_PADDING)], [Aggregate("] "), Field('n', NO_PADDING)],
                     [Aggregate(": "), Field('v', NO_PADDING)], [ColorStop]);
  }

  lemma CompileStart(pattern: string, r1: string, custom: set<char>)
    requires pattern == ['%', '^'] + r1 && HandleFlag('^', NO_PADDING, custom) == [ColorStart]
    ensures Compile(pattern, "", custom) == [ColorStart] + Compile(r1, "", custom)
  {
    CompileFlagAlone('^', r1, "", custom);
    assert Flush("") + [ColorStart] == [ColorStart];
  }

  /** Appending formatters between the two marks. */
  lemma RunMarked(
      mid: seq<Formatter>, texts: seq<string>, sts: seq<FlagState>, msg: Msg, t: Tm, env: Env)
    requires |sts| == |mid| + 2 && WellFormed([ColorStart] + (mid + [ColorStop]))
    requires AppendAll(mid, texts, msg, t, env)
    ensures RunAll([ColorStart] + (mid + [ColorStop]), sts, msg, t, env, true, NO_LINE)
            == Line(Together(texts), 0, |Together(texts)|, false)
  {
    var rest := mid + [ColorStop];
    RunFirst(ColorStart, rest, sts, msg, t, env, true, NO_LINE);
    assert RunFlag(ColorStart, sts[0], msg, t, env, true, NO_LINE) == NO_LINE;
    RunAllSplit(rest, sts[1..], |mid|, msg, t, env, true, NO_LINE);
    assert rest[..|mid|] == mid && rest[|mid|..] == [ColorStop];
    RunAppendAll(mid, texts, sts[1..][..|mid|], msg, t, env, true, NO_LINE);
    assert "" + Together(texts) == Together(texts);
    RunStop(sts[1..][|mid|..], msg, t, env, Line(Together(texts), 0, 0, false));
  }

  lemma RunStop(sts: seq<FlagState>, msg: Msg, t: Tm, env: Env, line: Line)
    requires |sts| == 1 && !line.failed
    ensures RunAll([ColorStop], sts, msg, t, env, true, line) == line.(end := |line.text|)
  {
    assert [ColorStop] + [] == [ColorStop];
    RunFirst(ColorStop, [], sts, msg, t, env, true, line);
  }

  lemma LineOfMarked(
      pattern: string, mid: seq<Formatter>, texts: seq<string>, now: int, earlier: seq<Msg>, msg: Msg, c: Config)
    requires Compile(pattern, "", c.custom) == [ColorStart] + (mid + [ColorStop])
    requires AnyNeedsTime(Compile(pattern, "", c.custom)) && Secs(msg.time) != 0
    requires AppendAll(mid, texts, msg, c.clock(Secs(msg.time)), c.env)
    ensures LineOf(pattern, now, earlier, msg, c) == Line(Together(texts) + c.eol, 0, |Together(texts)|, false)
  {
    var s := After(NewFormatter(pattern, now, c), Formats(earlier), c);
    UsedFormatter(NewFormatter(pattern, now, c), earlier, c);
    assert Refreshed(s, msg, c).cachedTm == c.clock(Secs(msg.time));
    RunMarked(mid, texts, s.states, msg, c.clock(Secs(msg.time)), c.env);
  }

  /** The console line of a message without colours: [HH:MM:SS] logger: payload. */
  function ConsoleBody(msg: Msg, c: Config): string {
    "[" + ClockText(c.clock(Secs(msg.time))) + "] " + msg.loggerName + ": " + msg.payload
  }

  /** Whatever was logged before, a message outside second 0 is formatted for the console as that line, with both marks
      at its ends. */
  lemma ConsoleLine(pattern: string, now: int, earlier: seq<Msg>, msg: Msg, c: Config)
    requires pattern == "%^[%T] %n: %v%$" && BuiltIn("^Tnv$", c.custom) && Secs(msg.time) != 0
    ensures LineOf(pattern, now, earlier, msg, c)
            == Line(ConsoleBody(msg, c) + c.eol, 0, |ConsoleBody(msg, c)|, false)
  {
    CompileConsolePattern(pattern, c.custom);
    ConsoleLineOf(pattern, now, earlier, msg, c);
  }

  lemma ConsoleLineOf(pattern: string, now: int, earlier: seq<Msg>, msg: Msg, c: Config)
    requires Compile(pattern, "", c.custom) == [ColorStart] + (ConsoleFormatters() + [ColorStop])
    requires Secs(msg.time) != 0
    ensures LineOf(pattern, now, earlier, msg, c)
            == Line(ConsoleBody(msg, c) + c.eol, 0, |ConsoleBody(msg, c)|, false)
  {
    var t := c.clock(Secs(msg.time));
    var fs := [ColorStart] + (ConsoleFormatters() + [ColorStop]);
    assert fs[2] == ConsoleFormatters()[1] && NeedsTime(fs[2]);
    ConsoleTexts(msg, t, c.env);
    LineOfMarked(pattern, ConsoleFormatters(), ["[", ClockText(t), "] ", msg.loggerName, ": ", msg.payload],
                 now, earlier, msg, c);
    TogetherSix("[", ClockText(t), "] ", msg.loggerName, ": ", msg.payload);
  }

  lemma ConsoleTexts(msg: Msg, t: Tm, env: Env)
    ensures AppendAll(ConsoleFormatters(), ["[", ClockText(t), "] ", msg.loggerName, ": ", msg.payload], msg, t, env)
  {
    LineFields(msg, t, env);
  }

  /** With colours on, the console gets the whole line in the colour of its level, then the end of the line. */
  lemma ConsoleLineIsColoured(pattern: string, now: int, earlier: seq<Msg>, msg: Msg, c: Config, code: string)
    requires pattern == "%^[%T] %n: %v%$" && BuiltIn("^Tnv$", c.custom) && Secs(msg.time) != 0
    ensures MarksInside(LineOf(pattern, now, earlier, msg, c))
    ensures ConsoleText(LineOf(pattern, now, earlier, msg, c), code, true)
            == code + ConsoleBody(msg, c) + "\U{1b}[m" + c.eol
  {
    ConsoleLine(pattern, now, earlier, msg, c);
    ColouredWhole(ConsoleBody(msg, c), c.eol, code);
  }

  lemma ColouredWhole(body: string, eol: string, code: string)
    requires body != ""
    ensures ConsoleText(Line(body + eol, 0, |body|, false), code, true) == code + body + "\U{1b}[m" + eol
  {
    var text := body + eol;
    assert text[..0] == "" && text[0..|body|] == body && text[|body|..] == eol;
    assert "" + code == code;
  }

  // ---------------------------------------------------------------- the default pattern

  /** The default line without its date. */
  function AfterDate(msg: Msg, millis: string): string {
    millis + "] " + (if msg.loggerName != "" then "[" + msg.loggerName + "] " else "")
    + "[" + LevelName(msg.level) + "] "
    + (if msg.source.line != 0
       then "[" + Basename(msg.source.filename) + ":" + ToDecimal(msg.source.line) + "] " else "")
    + msg.payload
  }

  lemma CompileFull(pattern: string, custom: set<char>)
    requires pattern == "%+" && '+' !in custom
    ensures Compile(pattern, "", custom) == [Full]
  {
    CompileFlagAlone('+', "", "", custom);
    CompileEnd(custom);
    assert pattern == ['%', '+'] + "";
  }

  lemma RunFull(sts: seq<FlagState>, msg: Msg, t: Tm, env: Env)
    requires |sts| == 1
    ensures RunAll([Full], sts, msg, t, env, false, NO_LINE) == FullLine(NO_LINE, DateText(t), msg)
  {
    assert [Full] + [] == [Full];
    RunFirst(Full, [], sts, msg, t, env, false, NO_LINE);
  }

  lemma FullLineShows(date: string, msg: Msg, millis: string)
    requires millis == Pad3(Unsigned(Fraction(msg.time, 1_000_000), MODULUS_32))
    ensures var r := FullLine(NO_LINE, date, msg);
            && !r.failed && r.text == date + AfterDate(msg, millis)
            && r.start <= r.end <= |r.text| && r.text[r.start..r.end] == LevelName(msg.level)
  {
    var r := FullLine(NO_LINE, date, msg);
    assert "" + date == date;
    var logger := if msg.loggerName != "" then "[" + msg.loggerName + "] " else "";
    var source := if msg.source.line != 0
                  then "[" + Basename(msg.source.filename) + ":" + ToDecimal(msg.source.line) + "] " else "";
    FullPieces(date, millis, logger, LevelName(msg.level), source, msg.payload);
    assert r == Line(((((date + millis + "] ") + logger + "[") + LevelName(msg.level)) + "] " + source) + msg.payload,
                     |(date + millis + "] ") + logger + "["|,
                     |((date + millis + "] ") + logger + "[") + LevelName(msg.level)|, false);
  }

  lemma FullPieces(date: string, millis: string, logger: string, level: string, source: string, payload: string)
    ensures var head := (date + millis + "] ") + logger + "[";
            var text := ((head + level) + "] " + source) + payload;
            && text == date + (millis + "] " + logger + "[" + level + "] " + source + payload)
            && |head| <= |head + level| <= |text| && text[|head|..|head + level|] == level
  {
    var head := (date + millis + "] ") + logger + "[";
    var text := ((head + level) + "] " + source) + payload;
    assert text[..|head + level|] == head + level;
    assert text[|head|..|head + level|] == text[..|head + level|][|head|..];
  }

  lemma {:induction false} NonZeroIsSafe(h: History, earlier: seq<Msg>, c: Config)
    requires (h.custom ==> h.needTime) && forall i :: 0 <= i < |earlier| ==> Secs(earlier[i].time) != 0
    ensures AllSafe(h, Formats(earlier), c)
    ensures var r := TrackAll(h, Formats(earlier), c); r.custom == h.custom && r.needTime == h.needTime
    decreases |earlier|
  {
    if earlier != [] {
      assert Formats(earlier)[0] == FormatMsg(earlier[0]) && Formats(earlier)[1..] == Formats(earlier[1..]);
      NonZeroIsSafe(Track(h, FormatMsg(earlier[0]), c), earlier[1..], c);
    }
  }

  /** After any messages, all outside second 0, the default pattern writes the date and time of the message's own second,
      the milliseconds, logger, level, source and payload, and marks the level. */
  lemma DefaultLine(pattern: string, now: int, earlier: seq<Msg>, msg: Msg, c: Config, millis: string)
    requires pattern == "%+" && '+' !in c.custom && RealClock(c.clock) && Secs(msg.time) != 0
    requires forall i :: 0 <= i < |earlier| ==> Secs(earlier[i].time) != 0
    requires millis == Pad3(Unsigned(Fraction(msg.time, 1_000_000), MODULUS_32))
    ensures var r := LineOf(pattern, now, earlier, msg, c);
            && r.text == DateText(c.clock(Secs(msg.time))) + AfterDate(msg, millis) + c.eol
            && r.start <= r.end <= |r.text| && r.text[r.start..r.end] == LevelName(msg.level)
  {
    CompileFull(pattern, c.custom);
    DefaultIsUncached(pattern, now, earlier, msg, c);
    DefaultShows(LineOf(pattern, now, earlier, msg, c), DateText(c.clock(Secs(msg.time))), msg, millis, c.eol);
  }

  lemma DefaultShows(r: Line, date: string, msg: Msg, millis: string, eol: string)
    requires r == AddEol(FullLine(NO_LINE, date, msg), eol)
    requires millis == Pad3(Unsigned(Fraction(msg.time, 1_000_000), MODULUS_32))
    ensures r.text == date + AfterDate(msg, millis) + eol
    ensures r.start <= r.end <= |r.text| && r.text[r.start..r.end] == LevelName(msg.level)
  {
    FullLineShows(date, msg, millis);
    var line := FullLine(NO_LINE, date, msg);
    assert (line.text + eol)[line.start..line.end] == line.text[line.start..line.end];
  }

  lemma DefaultIsUncached(pattern: string, now: int, earlier: seq<Msg>, msg: Msg, c: Config)
    requires Compile(pattern, "", c.custom) == [Full] && RealClock(c.clock) && Secs(msg.time) != 0
    requires forall i :: 0 <= i < |earlier| ==> Secs(earlier[i].time) != 0
    ensures LineOf(pattern, now, earlier, msg, c)
            == AddEol(FullLine(NO_LINE, DateText(c.clock(Secs(msg.time))), msg), c.eol)
  {
    var s, h := NewFormatter(pattern, now, c), Beginning(pattern, c);
    var p := Uncached(s.formatters, s.states);
    FreshSimulates(pattern, now, c, BLANK_TM, 0);
    NewIsDescribed(pattern, now, c);
    assert NeedsTime([Full][0]);
    NonZeroIsSafe(h, earlier, c);
    SimulationAfter(h, s, p, Formats(earlier), c);
    UsedFormatter(s, earlier, c);
    var r, q := After(s, Formats(earlier), c), PlainAfter(p, Formats(earlier), c);
    SimulationStep(TrackAll(h, Formats(earlier), c), r, q, FormatMsg(msg), c);
    RunFull(q.states, msg, c.clock(Secs(msg.time)), c.env);
  }

  /** The milliseconds of the default line read back, from the epoch on. */
  lemma MillisReadBack(msg: Msg, millis: string)
    requires msg.time >= 0 && millis == Pad3(Unsigned(Fraction(msg.time, 1_000_000), MODULUS_32))
    ensures AllDigits(millis) && Value(millis) == msg.time / 1_000_000 % 1_000
  {
    MillisecondText(msg.time);
  }

  // ---------------------------------------------------------------- unknown flags

  /** A flag nobody knows is shown as it is written. */
  lemma UnknownFlagIsShown(flag: char, rest: string, custom: set<char>)
    requires PlainFlag(flag) && flag !in custom && !IsFieldFlag(flag) && flag !in {'+', '^', '$', '%'}
    ensures Compile(['%', flag] + rest, "", custom) == [Aggregate(['%', flag])] + Compile(rest, "", custom)
  {
    CompileFlagAlone(flag, rest, "", custom);
  }

  /** A '!' that was read as a truncation mark is the function-name flag after all when no known flag follows: [%10!]
      pads the name. */
  lemma BangBehindWidthIsTheFlag(spec: string, pad: Padding, flag: char, rest: string, custom: set<char>)
    requires HandlePadspec(spec) == PadSpec(pad, [flag] + rest) && pad.truncate
    requires flag !in custom && !IsFieldFlag(flag) && flag !in {'+', '^', '$', '%'}
    ensures Compile(['%'] + spec, "", custom)
            == [Field('!', pad.(truncate := false)), Aggregate([flag])] + Compile(rest, "", custom)
  {
    BangFlag(flag, pad, custom);
    CompileSpec(['%'] + spec, spec, pad, flag, rest, custom);
  }

  lemma BangFlag(flag: char, pad: Padding, custom: set<char>)
    requires flag !in custom && !IsFieldFlag(flag) && flag !in {'+', '^', '$', '%'} && pad.truncate
    ensures HandleFlag(flag, pad, custom) == [Field('!', pad.(truncate := false)), Aggregate([flag])]
  {
  }

  lemma CompileSpec(p: string, spec: string, pad: Padding, flag: char, rest: string, custom: set<char>)
    requires p == ['%'] + spec && HandlePadspec(spec) == PadSpec(pad, [flag] + rest)
    ensures Compile(p, "", custom) == HandleFlag(flag, pad, custom) + Compile(rest, "", custom)
  {
    assert p[1..] == spec && ([flag] + rest)[1..] == rest;
    CompileAtPercent([], p, "", custom);
    assert [] + Compile(p, "", custom) == Compile(p, "", custom);
  }
}
