/** Rendering a compiled pattern: padding, the two time caches and the colour marks. */
module PatternRender {
  import opened Decimal
  import opened LogFields
  import opened PatternCompiler

  // ---------------------------------------------------------------- padding

  /** Spaces before and after a field, and characters cut off its end. */
  function SpacesBefore(pad: Padding, size: nat): nat {
    if !pad.enabled || pad.width <= size || pad.side.Right? then 0
    else if pad.side.Left? then pad.width - size
    else (pad.width - size) / 2
  }

  function SpacesAfter(pad: Padding, size: nat): nat {
    if !pad.enabled || pad.width <= size || pad.side.Left? then 0
    else if pad.side.Right? then pad.width - size
    else (pad.width - size) / 2 + (pad.width - size) % 2
  }

  function Cut(pad: Padding, size: nat): nat {
    if pad.enabled && pad.truncate && pad.width < size then size - pad.width else 0
  }

  /** The output buffer with the colour marks; `failed` tells that a resize to a negative size was attempted. */
  datatype Line = Line(text: string, start: nat, end: nat, failed: bool)

  function WriteField(line: Line, pad: Padding, size: nat, field: string): Line {
    var body := line.text + Spread(' ', SpacesBefore(pad, size)) + field + Spread(' ', SpacesAfter(pad, size));
    if Cut(pad, size) > |body| then line.(text := "", failed := true)
    else line.(text := body[..|body| - Cut(pad, size)])
  }

  /** How spaces are put around a field narrower than the width. */
  predicate Padded(tail: string, field: string, side: Side, spaces: nat) {
    match side
    case Left => tail == Spread(' ', spaces) + field
    case Right => tail == field + Spread(' ', spaces)
    case Center => tail == Spread(' ', spaces / 2) + field + Spread(' ', spaces - spaces / 2)
  }

  /** What padding adds for a field that writes its announced size: exactly max(width, size) characters, or exactly
      the width when a longer field is truncated; the earlier text is a prefix, and the side decides where the spaces
      go. */
  lemma PaddingContract(line: Line, pad: Padding, field: string)
    ensures var r := WriteField(line, pad, |field|, field);
            && r == line.(text := r.text) && |line.text| <= |r.text| && r.text[..|line.text|] == line.text
            && var tail := r.text[|line.text|..];
               if !pad.enabled then tail == field
               else if pad.width > |field| then |tail| == pad.width && Padded(tail, field, pad.side, pad.width - |field|)
               else if pad.truncate then tail == field[..pad.width]
               else tail == field
  {
    var r := WriteField(line, pad, |field|, field);
    var tail := r.text[|line.text|..];
    if pad.enabled && pad.width > |field| {
      PaddedTail(line.text, pad, field);
    }
  }

  lemma PaddedTail(before: string, pad: Padding, field: string)
    requires pad.enabled && pad.width > |field|
    ensures var body := before + Spread(' ', SpacesBefore(pad, |field|)) + field
                        + Spread(' ', SpacesAfter(pad, |field|));
            Padded(body[|before|..], field, pad.side, pad.width - |field|)
  {
    var b, a := Spread(' ', SpacesBefore(pad, |field|)), Spread(' ', SpacesAfter(pad, |field|));
    assert (before + b + field + a)[|before|..] == b + field + a;
    if pad.side.Left? {
      assert b + field + a == b + field;
    } else if pad.side.Right? {
      assert b + field + a == field + a;
    }
  }

  /** Exactly when a field leaves the text before it alone: it must not be cut by more than it wrote. */
  lemma FieldKeepsEarlierText(line: Line, pad: Padding, size: nat, field: string)
    requires !line.failed
    ensures var r := WriteField(line, pad, size, field);
            !r.failed && |line.text| <= |r.text| && line.text == r.text[..|line.text|] <==> Cut(pad, size) <= |field|
  {
  }

  class MemoryBuf {
    var data: string

    constructor ()
      ensures data == ""
    {
      data := "";
    }

    method PushBack(c: char)
      modifies this
      ensures data == old(data) + [c]
    {
      data := data + [c];
    }

    method Append(s: string)
      modifies this
      ensures data == old(data) + s
    {
      data := data + s;
    }

    method Resize(n: nat)
      requires n <= |data|
      modifies this
      ensures data == old(data)[..n]
    {
      data := data[..n];
    }
  }

  const SPACES: string := Spread(' ', 64)

  /** The padding object that lives while a field is written: its constructor pads before, its destructor after. */
  class ScopedPadder {
    const padinfo: Padding
    const dest: MemoryBuf
    var remainingPad: int

    constructor (wrappedSize: nat, padinfo: Padding, dest: MemoryBuf)
      requires padinfo.enabled && padinfo.width <= MAX_WIDTH
      modifies dest
      ensures this.padinfo == padinfo && this.dest == dest
      ensures dest.data == old(dest.data) + Spread(' ', SpacesBefore(padinfo, wrappedSize))
      ensures remainingPad == if padinfo.width < wrappedSize then padinfo.width - wrappedSize
                              else SpacesAfter(padinfo, wrappedSize)
    {
      this.padinfo := padinfo;
      this.dest := dest;
      remainingPad := padinfo.width - wrappedSize;
      new;
      if remainingPad <= 0 {
        assert old(dest.data) + Spread(' ', 0) == old(dest.data);
        return;
      }
      if padinfo.side == Left {
        PadIt(remainingPad);
        remainingPad := 0;
      } else if padinfo.side == Center {
        var halfPad := remainingPad / 2;
        var reminder := remainingPad % 2;
        PadIt(halfPad);
        remainingPad := halfPad + reminder;
      } else {
        assert old(dest.data) + Spread(' ', 0) == old(dest.data);
      }
    }

    /** Never asked for more than the 64 spaces it has. */
    method PadIt(count: nat)
      requires count <= MAX_WIDTH
      modifies dest
      ensures dest.data == old(dest.data) + Spread(' ', count)
    {
      assert SPACES[..count] == Spread(' ', count);
      dest.Append(SPACES[..count]);
    }

    /** The destructor: pads on the right, or cuts a longer field; fails on a negative size. */
    method Finish() returns (failed: bool)
      requires 0 <= remainingPad ==> remainingPad <= MAX_WIDTH
      modifies dest
      ensures if remainingPad >= 0 then !failed && dest.data == old(dest.data) + Spread(' ', remainingPad)
              else if !padinfo.truncate then !failed && dest.data == old(dest.data)
              else
                && failed == (|old(dest.data)| + remainingPad < 0)
                && dest.data == if failed then "" else old(dest.data)[..|old(dest.data)| + remainingPad]
    {
      failed := false;
      if remainingPad >= 0 {
        PadIt(remainingPad);
      } else if padinfo.truncate {
        var newSize := |dest.data| + remainingPad;
        if newSize < 0 {
          failed := true;
          dest.Resize(0);
        } else {
          dest.Resize(newSize);
        }
      }
    }
  }

  /** How every padded formatter writes its text. */
  method FormatField(dest: MemoryBuf, padinfo: Padding, size: nat, field: string) returns (failed: bool)
    requires padinfo.width <= MAX_WIDTH
    modifies dest
    ensures forall start: nat, end: nat ::
              WriteField(Line(old(dest.data), start, end, false), padinfo, size, field)
              == Line(dest.data, start, end, failed)
  {
    if padinfo.enabled {
      var p := new ScopedPadder(size, padinfo, dest);
      dest.Append(field);
      failed := p.Finish();
      ghost var body := old(dest.data) + Spread(' ', SpacesBefore(padinfo, size)) + field;
      assert body + Spread(' ', 0) == body;
      assert dest.data == "" || Cut(padinfo, size) == 0 || dest.data == body[..|body| - Cut(padinfo, size)];
    } else { // the null padder
      failed := false;
      dest.Append(field);
      assert dest.data == old(dest.data) + Spread(' ', 0) + field + Spread(' ', 0);
    }
  }

  // ---------------------------------------------------------------- flag states and texts

  /** What a flag formatter remembers between messages. */
  datatype FlagState =
    | Plain
    | DateCache(secs: int, text: string)         // %+
    | Since(last: int)                           // %u %i %o %O
    | Offset(updated: int, minutes: int)         // %z

  /** State of a freshly compiled formatter; elapsed-time flags start at the current time. */
  function FreshState(f: Formatter, now: int): FlagState {
    if f.Full? then DateCache(0, "")
    else if f.Field? && IsElapsedFlag(f.flag) then Since(now)
    else if f.Field? && f.flag == 'z' then Offset(0, 0)
    else Plain
  }

  function FreshStates(fs: seq<Formatter>, now: int): (sts: seq<FlagState>)
    ensures |sts| == |fs|
  {
    seq(|fs|, i requires 0 <= i < |fs| => FreshState(fs[i], now))
  }

  function DateText(t: Tm): (s: string)
    ensures s != ""
  {
    "[" + IntToDecimal(t.year + 1900) + "-" + Pad2(t.mon + 1) + "-" + Pad2(t.mday) + " "
    + Pad2(t.hour) + ":" + Pad2(t.min) + ":" + Pad2(t.sec) + "."
  }

  const TEN_SECONDS: int := 10_000_000_000

  function NextState(st: FlagState, msg: Msg, t: Tm): FlagState {
    match st
    case Plain => Plain
    case DateCache(secs, text) =>
      if secs != Secs(msg.time) || text == "" then DateCache(Secs(msg.time), DateText(t)) else st
    case Since(_) => Since(msg.time)
    case Offset(updated, _) =>
      if msg.time - updated >= TEN_SECONDS then Offset(msg.time, TruncDiv(t.gmtoff, 60)) else st
  }

  /** The environment of a formatter: process id and the text of user-defined flags (which append to the output). */
  datatype Env = Env(pid: nat, customText: (char, Padding, Msg, Tm) -> string)

  function FieldText(flag: char, st: FlagState, msg: Msg, t: Tm, env: Env): string
    requires IsFieldFlag(flag)
  {
    if IsCalendarFlag(flag) then CalendarText(flag, t)
    else if IsMessageFlag(flag) then MessageText(flag, msg, env.pid)
    else if flag == 'z' then OffsetText(if st.Offset? then NextState(st, msg, t).minutes else 0)
    else ElapsedText(flag, if st.Since? then st.last else msg.time, msg.time)
  }

  /** The default line, given its date part. */
  function FullLine(line: Line, date: string, msg: Msg): Line {
    var head := line.text + date + Pad3(Unsigned(Fraction(msg.time, 1_000_000), MODULUS_32)) + "] "
                + (if msg.loggerName != "" then "[" + msg.loggerName + "] " else "") + "[";
    var level := head + LevelName(msg.level);
    Line(level + "] "
         + (if msg.source.line != 0
            then "[" + Basename(msg.source.filename) + ":" + ToDecimal(msg.source.line) + "] " else "")
         + msg.payload,
         |head|, |level|, line.failed)
  }

  /** One formatter writes; a failed line stays as it is. `cached` says whether %+ goes through its date cache. */
  function RunFlag(f: Formatter, st: FlagState, msg: Msg, t: Tm, env: Env, cached: bool, line: Line): Line
    requires f.Field? ==> IsFieldFlag(f.flag)
  {
    if line.failed then line
    else
      match f
      case Full =>
        FullLine(line, if cached && st.DateCache? then NextState(st, msg, t).text else DateText(t), msg)
      case Field(flag, pad) =>
        var field := FieldText(flag, st, msg, t, env);
        WriteField(line, pad, DeclaredSize(flag, field), field)
      case ColorStart => line.(start := |line.text|)
      case ColorStop => line.(end := |line.text|)
      case Percent => line.(text := line.text + "%")
      case Aggregate(text) => line.(text := line.text + text)
      case Custom(flag, pad) => line.(text := line.text + env.customText(flag, pad, msg, t))
  }

  function RunAll(
      fs: seq<Formatter>, sts: seq<FlagState>, msg: Msg, t: Tm, env: Env, cached: bool, line: Line): Line
    requires |sts| == |fs| && WellFormed(fs)
    decreases |fs|
  {
    if fs == [] then line
    else RunAll(fs[1..], sts[1..], msg, t, env, cached, RunFlag(fs[0], sts[0], msg, t, env, cached, line))
  }

  function NextStates(sts: seq<FlagState>, msg: Msg, t: Tm): (r: seq<FlagState>)
    ensures |r| == |sts|
  {
    seq(|sts|, i requires 0 <= i < |sts| => NextState(sts[i], msg, t))
  }

  /** Running a prefix and then the rest. */
  lemma {:induction false} RunAllSplit(
      fs: seq<Formatter>, sts: seq<FlagState>, k: nat, msg: Msg, t: Tm, env: Env, cached: bool, line: Line)
    requires |sts| == |fs| && WellFormed(fs) && k <= |fs|
    ensures RunAll(fs, sts, msg, t, env, cached, line)
            == RunAll(fs[k..], sts[k..], msg, t, env, cached, RunAll(fs[..k], sts[..k], msg, t, env, cached, line))
    decreases k
  {
    if k == 0 {
      assert fs[0..] == fs && sts[0..] == sts;
    } else {
      var next := RunFlag(fs[0], sts[0], msg, t, env, cached, line);
      RunAllSplit(fs[1..], sts[1..], k - 1, msg, t, env, cached, next);
      assert fs[1..][k - 1..] == fs[k..] && sts[1..][k - 1..] == sts[k..];
      assert fs[..k][1..] == fs[1..][..k - 1] && sts[..k][1..] == sts[1..][..k - 1];
    }
  }

  // ---------------------------------------------------------------- need_localtime

  /** A built-in formatter whose field really depends on the calendar time it is given. */
  ghost predicate ReadsTime(f: Formatter) {
    match f
    case Full => exists t: Tm, u: Tm :: DateText(t) != DateText(u)
    case Field(flag, _) =>
      IsFieldFlag(flag) && exists st, msg, env, t: Tm, u: Tm :: FieldText(flag, st, msg, t, env) != FieldText(flag, st, msg, u, env)
    case _ => false
  }

  lemma OffsetReadsTime(t: Tm, u: Tm, msg: Msg, env: Env)
    requires t.gmtoff == 0 && u.gmtoff == -60 && msg.time == TEN_SECONDS
    ensures FieldText('z', Offset(0, 0), msg, t, env) != FieldText('z', Offset(0, 0), msg, u, env)
  {
    assert NextState(Offset(0, 0), msg, t).minutes == 0;
    assert NextState(Offset(0, 0), msg, u).minutes == -1;
    assert OffsetText(0)[0] == '+' && OffsetText(-1)[0] == '-';
  }

  /** The compiler asks for the calendar time for exactly those built-in formatters that read it. */
  lemma NeedsTimeIsExact(f: Formatter)
    requires f.Field? ==> IsFieldFlag(f.flag)
    ensures NeedsTime(f) <==> ReadsTime(f)
  {
    match f
    case Full =>
      assert DateText(EARLY) != DateText(LATE) by {
        FullDatesDiffer();
      }
    case Field(flag, _) =>
      if IsCalendarFlag(flag) {
        CalendarFlagReadsTime(flag);
        var t: Tm, u: Tm :| CalendarText(flag, t) != CalendarText(flag, u);
        var msg := Msg("", Info, 0, 0, Source("", 0, ""), "");
        var env := Env(0, (_, _, _, _) => "");
        assert FieldText(flag, Plain, msg, t, env) != FieldText(flag, Plain, msg, u, env);
      } else if flag == 'z' {
        var t: Tm := TmFields.Tm(0, 0, 0, 1, 0, 0, 0, 0);
        var u: Tm := TmFields.Tm(0, 0, 0, 1, 0, 0, 0, -60);
        var msg := Msg("", Info, TEN_SECONDS, 0, Source("", 0, ""), "");
        OffsetReadsTime(t, u, msg, Env(0, (_, _, _, _) => ""));
      }
    case _ =>
  }

  lemma FullDatesDiffer()
    ensures DateText(EARLY) != DateText(LATE)
  {
    SecondsInDate(EARLY);
    SecondsInDate(LATE);
    Pad2Differs(EARLY.sec, LATE.sec);
  }

  lemma SecondsInDate(t: Tm)
    requires |Pad2(t.sec)| == 2
    ensures |DateText(t)| >= 3 && DateText(t)[|DateText(t)| - 3..|DateText(t)| - 1] == Pad2(t.sec)
  {
  }
}
