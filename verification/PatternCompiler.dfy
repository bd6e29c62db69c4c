/** The pattern compiler: padding specifications, flags and literal text. */
module PatternCompiler {
  import opened Decimal
  import opened LogFields

  datatype Side = Left | Right | Center

  datatype Padding = Padding(width: nat, side: Side, truncate: bool, enabled: bool)

  const NO_PADDING: Padding := Padding(0, Left, false, false)

  const MAX_WIDTH: nat := 64

  /** One compiled element of a pattern. */
  datatype Formatter =
    | Full                              // %+
    | Field(flag: char, pad: Padding)   // any other flag that writes a field
    | ColorStart
    | ColorStop
    | Percent                           // %%
    | Aggregate(text: string)           // characters shown as they are
    | Custom(flag: char, pad: Padding)  // a user-defined flag

  predicate IsFieldFlag(flag: char) {
    IsCalendarFlag(flag) || IsMessageFlag(flag) || IsElapsedFlag(flag) || flag == 'z'
  }

  // ---------------------------------------------------------------- padding specifications

  /** A width and the text after its digits. */
  datatype Number = Number(width: nat, rest: string)

  /** Reads digits into a 64-bit unsigned integer, which may wrap around. */
  function ReadDigits(width: nat, s: string): (r: Number)
    ensures |r.rest| <= |s| && r.rest == s[|s| - |r.rest|..]
    decreases |s|
  {
    if s == "" || !IsDigit(s[0]) then Number(width, s)
    else ReadDigits(AddDigit(width, s[0]), s[1..])
  }

  function AddDigit(width: nat, c: char): nat
    requires IsDigit(c)
  {
    (width * 10 + DigitValue(c)) % MODULUS_64
  }

  datatype PadSpec = PadSpec(pad: Padding, rest: string)

  /** The padding once the side is known: digits and an optional truncation mark. */
  function PadAfterSide(side: Side, q: string): (r: PadSpec)
    ensures |r.rest| <= |q| && r.rest == q[|q| - |r.rest|..]
    ensures r.pad.width <= MAX_WIDTH
  {
    if q == "" || !IsDigit(q[0]) then PadSpec(NO_PADDING, q)
    else
      var number := ReadDigits(0, q);
      var truncate := number.rest != "" && number.rest[0] == '!';
      PadSpec(Padding(if number.width < MAX_WIDTH then number.width else MAX_WIDTH, side, truncate, true),
              if truncate then number.rest[1..] else number.rest)
  }

  /** The padding at the start of p, and what follows it. */
  function HandlePadspec(p: string): (r: PadSpec)
    ensures |r.rest| <= |p| && r.rest == p[|p| - |r.rest|..]
    ensures r.pad.width <= MAX_WIDTH
  {
    if p == "" then PadSpec(NO_PADDING, "")
    else if p[0] == '-' then PadAfterSide(Right, p[1..])
    else if p[0] == '=' then PadAfterSide(Center, p[1..])
    else PadAfterSide(Left, p)
  }

  function LeadingDigits(s: string): (d: string)
    ensures AllDigits(d) && |d| <= |s|
  {
    if s == "" || !IsDigit(s[0]) then "" else [s[0]] + LeadingDigits(s[1..])
  }

  /** The number written, as a 64-bit unsigned integer accumulates it. */
  function Wrapped(digits: string): nat
    requires AllDigits(digits)
  {
    if digits == "" then 0 else AddDigit(Wrapped(digits[..|digits| - 1]), digits[|digits| - 1])
  }

  lemma {:induction false} WrappedIsValue(digits: string)
    requires AllDigits(digits)
    ensures Wrapped(digits) == Value(digits) % MODULUS_64
  {
    if digits != "" {
      var front := digits[..|digits| - 1];
      WrappedIsValue(front);
      ModularStep(Value(front), DigitValue(digits[|digits| - 1]));
    }
  }

  /** The width read is the number written, modulo the range of the integer. */
  lemma {:induction false} WidthIsTheNumber(seen: string, s: string, width: nat)
    requires AllDigits(seen) && width == Wrapped(seen)
    ensures ReadDigits(width, s) == Number(Wrapped(seen + LeadingDigits(s)), s[|LeadingDigits(s)|..])
    decreases |s|
  {
    if s == "" || !IsDigit(s[0]) {
      assert seen + "" == seen;
    } else {
      var next, width', rest := seen + [s[0]], AddDigit(width, s[0]), s[1..];
      assert next[..|next| - 1] == seen;
      WidthIsTheNumber(next, rest, width');
      assert seen + LeadingDigits(s) == next + LeadingDigits(rest);
      assert s[|LeadingDigits(s)|..] == rest[|LeadingDigits(rest)|..];
    }
  }

  lemma ModularStep(n: nat, d: nat)
    ensures ((n % MODULUS_64) * 10 + d) % MODULUS_64 == (10 * n + d) % MODULUS_64
  {
    var q, r := n / MODULUS_64, n % MODULUS_64;
    assert 10 * n + d == (10 * q) * MODULUS_64 + (r * 10 + d);
    var x := r * 10 + d;
    var y := x / MODULUS_64;
    assert 10 * n + d == (10 * q + y) * MODULUS_64 + x % MODULUS_64;
  }

  function SideText(side: Side): string {
    match side
    case Left => ""
    case Right => "-"
    case Center => "="
  }

  lemma {:induction false} LeadingDigitsOf(digits: string, tail: string)
    requires AllDigits(digits) && (tail == "" || !IsDigit(tail[0]))
    ensures LeadingDigits(digits + tail) == digits
  {
    if digits == "" {
      assert digits + tail == tail;
    } else {
      assert (digits + tail)[1..] == digits[1..] + tail;
      LeadingDigitsOf(digits[1..], tail);
    }
  }

  lemma FirstDigit(c: char)
    requires IsDigit(c)
    ensures AddDigit(0, c) == DigitValue(c)
  {
  }

  lemma NumberWidth(width: nat)
    requires width < MODULUS_64
    ensures Wrapped(ToDecimal(width)) == width
  {
    ValueOfToDecimal(width);
    WrappedIsValue(ToDecimal(width));
  }

  lemma NumberRead(width: nat, tail: string)
    requires width < MODULUS_64 && (tail == "" || !IsDigit(tail[0]))
    ensures ReadDigits(0, ToDecimal(width) + tail) == Number(width, tail)
  {
    var q := ToDecimal(width) + tail;
    LeadingDigitsOf(ToDecimal(width), tail);
    NumberWidth(width);
    WidthIsTheNumber("", q, 0);
    assert "" + LeadingDigits(q) == ToDecimal(width);
    assert q[|ToDecimal(width)|..] == tail;
  }

  lemma NumberReadsBack(width: nat, side: Side, tail: string)
    requires width < MODULUS_64 && (tail == "" || !IsDigit(tail[0]))
    ensures var truncate := tail != "" && tail[0] == '!';
            PadAfterSide(side, ToDecimal(width) + tail)
            == PadSpec(Padding(if width < MAX_WIDTH then width else MAX_WIDTH, side, truncate, true),
                       if truncate then tail[1..] else tail)
  {
    NumberRead(width, tail);
  }

  lemma SideReadsBack(side: Side, q: string)
    requires q != "" && IsDigit(q[0])
    ensures HandlePadspec(SideText(side) + q) == PadAfterSide(side, q)
  {
    var p := SideText(side) + q;
    if side.Left? {
      assert p == q;
    } else {
      assert p[1..] == q;
    }
  }

  /** A written specification is read back: side, width (at most 64 counts), truncation mark, and the rest of the
      pattern untouched. */
  lemma PadspecReadsBack(width: nat, side: Side, tail: string)
    requires width < MODULUS_64 && (tail == "" || !IsDigit(tail[0]))
    ensures var truncate := tail != "" && tail[0] == '!';
            HandlePadspec(SideText(side) + (ToDecimal(width) + tail))
            == PadSpec(Padding(if width < 64 then width else 64, side, truncate, true),
                       if truncate then tail[1..] else tail)
  {
    NumberReadsBack(width, side, tail);
    SideReadsBack(side, ToDecimal(width) + tail);
  }

  // ---------------------------------------------------------------- flags

  /** What one flag is compiled to. */
  function HandleFlag(flag: char, pad: Padding, custom: set<char>): seq<Formatter> {
    if flag in custom then [Custom(flag, pad)]
    else if flag == '+' then [Full]
    else if flag == '^' then [ColorStart]
    else if flag == '$' then [ColorStop]
    else if flag == '%' then [Percent]
    else if IsFieldFlag(flag) then [Field(flag, pad)]
    else if !pad.truncate then [Aggregate(['%', flag])]
    // the '!' that was read as a truncation mark is taken as the function-name flag after all
    else [Field('!', pad.(truncate := false)), Aggregate([flag])]
  }

  /** The flag behind a padding specification, if the pattern does not end there. */
  function FlagAfter(spec: PadSpec, custom: set<char>): seq<Formatter> {
    if spec.rest == "" then [] else HandleFlag(spec.rest[0], spec.pad, custom)
  }

  function Flush(pending: string): seq<Formatter> {
    if pending == "" then [] else [Aggregate(pending)]
  }

  /** The formatters for pattern p, with literal characters already collected in `pending`. */
  function Compile(p: string, pending: string, custom: set<char>): seq<Formatter>
    decreases |p|
  {
    if p == "" then Flush(pending)
    else if p[0] != '%' then Compile(p[1..], pending + [p[0]], custom)
    else
      var spec := HandlePadspec(p[1..]);
      Flush(pending) +
      if spec.rest == "" then [] // a lone % at the end
      else HandleFlag(spec.rest[0], spec.pad, custom) + Compile(spec.rest[1..], "", custom)
  }

  /** Whether the compiler asks for the calendar time because of f. */
  predicate NeedsTime(f: Formatter) {
    f.Full? || (f.Field? && (IsCalendarFlag(f.flag) || f.flag == 'z'))
  }

  predicate AnyNeedsTime(fs: seq<Formatter>) {
    exists i :: 0 <= i < |fs| && NeedsTime(fs[i])
  }

  /** Every compiled field has a known flag and a width the padder can produce. */
  predicate WellFormed(fs: seq<Formatter>) {
    forall i :: 0 <= i < |fs| && fs[i].Field? ==> IsFieldFlag(fs[i].flag) && fs[i].pad.width <= MAX_WIDTH
  }

  lemma WellFormedConcat(a: seq<Formatter>, b: seq<Formatter>)
    requires WellFormed(a) && WellFormed(b)
    ensures WellFormed(a + b)
  {
  }

  lemma FlagWellFormed(flag: char, pad: Padding, custom: set<char>)
    requires pad.width <= MAX_WIDTH
    ensures WellFormed(HandleFlag(flag, pad, custom))
  {
  }

  lemma {:induction false} CompileWellFormed(p: string, pending: string, custom: set<char>)
    ensures WellFormed(Compile(p, pending, custom))
    decreases |p|
  {
    if p != "" {
      if p[0] != '%' {
        CompileWellFormed(p[1..], pending + [p[0]], custom);
      } else {
        var spec := HandlePadspec(p[1..]);
        if spec.rest != "" {
          CompileWellFormed(spec.rest[1..], "", custom);
          var flag := HandleFlag(spec.rest[0], spec.pad, custom);
          FlagWellFormed(spec.rest[0], spec.pad, custom);
          WellFormedConcat(flag, Compile(spec.rest[1..], "", custom));
          WellFormedConcat(Flush(pending), flag + Compile(spec.rest[1..], "", custom));
        }
      }
    }
  }

  // ---------------------------------------------------------------- the compiler as it runs

  /** The part of pattern_formatter that compile_pattern_ works on. */
  class Compiler {
    var formatters: seq<Formatter>
    var needLocaltime: bool
    const custom: set<char>

    constructor (custom: set<char>)
      ensures this.custom == custom && formatters == [] && !needLocaltime
    {
      this.custom := custom;
      formatters, needLocaltime := [], false;
    }

    /** Reads the padding at position `from`; `it` is the position after it. */
    static method ReadPadspec(pattern: string, from: nat) returns (pad: Padding, it: nat)
      requires from <= |pattern|
      ensures from <= it <= |pattern|
      ensures PadSpec(pad, pattern[it..]) == HandlePadspec(pattern[from..])
    {
      it := from;
      if it == |pattern| {
        return NO_PADDING, it;
      }
      assert pattern[from..][0] == pattern[from] && pattern[from..][1..] == pattern[from + 1..];
      var side := Left;
      if pattern[it] == '-' {
        side := Right;
        it := it + 1;
      } else if pattern[it] == '=' {
        side := Center;
        it := it + 1;
      }
      ghost var q := pattern[it..];
      assert HandlePadspec(pattern[from..]) == PadAfterSide(side, q);
      if it == |pattern| || !IsDigit(pattern[it]) {
        return NO_PADDING, it;
      }
      var truncate, width;
      width, truncate, it := ReadWidth(pattern, it);
      pad := Padding(if width < MAX_WIDTH then width else MAX_WIDTH, side, truncate, true);
    }

    /** The digits and the optional truncation mark that follow. */
    static method ReadWidth(pattern: string, from: nat) returns (width: nat, truncate: bool, it: nat)
      requires from < |pattern| && IsDigit(pattern[from])
      ensures from <= it <= |pattern|
      ensures var number := ReadDigits(0, pattern[from..]);
              && width == number.width && truncate == (number.rest != "" && number.rest[0] == '!')
              && pattern[it..] == if truncate then number.rest[1..] else number.rest
    {
      width := DigitValue(pattern[from]);
      it := from + 1;
      assert pattern[from..][1..] == pattern[it..];
      FirstDigit(pattern[from]);
      while it < |pattern| && IsDigit(pattern[it])
        invariant from < it <= |pattern|
        invariant ReadDigits(width, pattern[it..]) == ReadDigits(0, pattern[from..])
      {
        assert pattern[it..][1..] == pattern[it + 1..];
        width := AddDigit(width, pattern[it]);
        it := it + 1;
      }
      truncate := false;
      if it < |pattern| && pattern[it] == '!' {
        truncate := true;
        it := it + 1;
      }
    }

    method AddFlag(flag: char, padding: Padding)
      modifies this
      ensures formatters == old(formatters) + HandleFlag(flag, padding, custom)
      ensures needLocaltime == (old(needLocaltime) || AnyNeedsTime(HandleFlag(flag, padding, custom)))
    {
      ghost var added := HandleFlag(flag, padding, custom);
      if flag in custom {
        formatters := formatters + [Custom(flag, padding)];
      } else if flag == '+' {
        formatters := formatters + [Full];
        needLocaltime := true;
        assert NeedsTime(added[0]);
      } else if flag == '^' {
        formatters := formatters + [ColorStart];
      } else if flag == '$' {
        formatters := formatters + [ColorStop];
      } else if flag == '%' {
        formatters := formatters + [Percent];
      } else if IsFieldFlag(flag) {
        formatters := formatters + [Field(flag, padding)];
        if IsCalendarFlag(flag) || flag == 'z' {
          needLocaltime := true;
          assert NeedsTime(added[0]);
        }
      } else {
        if !padding.truncate {
          formatters := formatters + [Aggregate(['%', flag])];
        } else {
          var funcname := padding.(truncate := false);
          formatters := formatters + [Field('!', funcname)];
          formatters := formatters + [Aggregate([flag])];
        }
      }
    }

    /** Never reads past the end of the pattern, compiles it as specified, and raises `needLocaltime` exactly when
        some compiled built-in formatter needs the calendar time. */
    method CompilePattern(pattern: string)
      modifies this
      ensures formatters == Compile(pattern, "", custom)
      ensures needLocaltime == (old(needLocaltime) || AnyNeedsTime(formatters))
    {
      formatters := [];
      var userChars := "";
      var it := 0;
      assert pattern[0..] == pattern;
      while it < |pattern|
        invariant it <= |pattern|
        invariant formatters + Compile(pattern[it..], userChars, custom) == Compile(pattern, "", custom)
        invariant needLocaltime == (old(needLocaltime) || AnyNeedsTime(formatters))
      {
        CompileAt(pattern, it, userChars, custom);
        if pattern[it] == '%' {
          CompileAtPercent(formatters, pattern[it..], userChars, custom);
          AppendUserChars(userChars);
          userChars := "";
          NeedsTimeConcat(formatters, FlagAfter(HandlePadspec(pattern[it + 1..]), custom));
          it := CompileFlag(pattern, it + 1);
        } else {
          userChars := userChars + [pattern[it]];
          it := it + 1;
        }
      }
      AppendUserChars(userChars);
    }

    /** The padding and flag after a '%'; nothing when the pattern ends there. */
    method CompileFlag(pattern: string, from: nat) returns (it: nat)
      requires from <= |pattern|
      modifies this
      ensures from <= it <= |pattern|
      ensures var spec := HandlePadspec(pattern[from..]);
              && pattern[it..] == (if spec.rest == "" then "" else spec.rest[1..])
              && formatters == old(formatters) + FlagAfter(spec, custom)
              && needLocaltime == (old(needLocaltime) || AnyNeedsTime(FlagAfter(spec, custom)))
    {
      var padding;
      padding, it := ReadPadspec(pattern, from);
      if it != |pattern| {
        assert pattern[it..][1..] == pattern[it + 1..];
        AddFlag(pattern[it], padding);
        it := it + 1;
      }
    }

    /** Appends the literal characters collected so far, if any. */
    method AppendUserChars(userChars: string)
      modifies this`formatters
      ensures formatters == old(formatters) + Flush(userChars)
      ensures AnyNeedsTime(formatters) == AnyNeedsTime(old(formatters))
    {
      NeedsTimeConcat(formatters, Flush(userChars));
      if userChars != "" {
        formatters := formatters + [Aggregate(userChars)];
      }
    }
  }

  /** Compilation goes on one character further when that is not a '%'. */
  lemma CompileAt(p: string, it: nat, pending: string, custom: set<char>)
    requires it < |p|
    ensures p[it..] != "" && p[it..][0] == p[it] && p[it..][1..] == p[it + 1..]
    ensures p[it] != '%' ==> Compile(p[it..], pending, custom) == Compile(p[it + 1..], pending + [p[it]], custom)
  {
    assert p[it..][1..] == p[it + 1..];
  }

  /** Compilation of a pattern that starts with '%', behind formatters already made. */
  lemma CompileAtPercent(done: seq<Formatter>, p: string, pending: string, custom: set<char>)
    requires p != "" && p[0] == '%'
    ensures var spec := HandlePadspec(p[1..]);
            done + Compile(p, pending, custom) ==
              (done + Flush(pending) + FlagAfter(spec, custom))
              + Compile(if spec.rest == "" then "" else spec.rest[1..], "", custom)
  {
    var spec := HandlePadspec(p[1..]);
    if spec.rest == "" {
      assert Compile("", "", custom) == [];
    } else {
      Regroup(done, Flush(pending), HandleFlag(spec.rest[0], spec.pad, custom), Compile(spec.rest[1..], "", custom));
    }
  }

  lemma Regroup(a: seq<Formatter>, b: seq<Formatter>, c: seq<Formatter>, d: seq<Formatter>)
    ensures a + (b + (c + d)) == (a + b + c) + d
  {
  }

  lemma NeedsTimeConcat(a: seq<Formatter>, b: seq<Formatter>)
    ensures AnyNeedsTime(a + b) == (AnyNeedsTime(a) || AnyNeedsTime(b))
  {
    if i :| 0 <= i < |a| && NeedsTime(a[i]) {
      assert NeedsTime((a + b)[i]);
    }
    if i :| 0 <= i < |b| && NeedsTime(b[i]) {
      assert NeedsTime((a + b)[|a| + i]);
    }
  }
}
