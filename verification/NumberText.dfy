/** Reading numbers from the start of a text, as stod and stoi do: blanks, a sign, digits; the rest is ignored. */
module NumberText {
  import opened Decimal
  import opened StringUtils

  datatype Option<T> = None | Some(value: T)

  /** Number of leading digits. */
  function Span(s: string): (n: nat)
    ensures n <= |s| && AllDigits(s[..n]) && (n < |s| ==> !IsDigit(s[n]))
  {
    if s != "" && IsDigit(s[0]) then
      var n := 1 + Span(s[1..]);
      assert s[..n] == [s[0]] + s[1..][..n - 1];
      n
    else 0
  }

  predicate StartsWith(s: string, c: char) {
    s != "" && s[0] == c
  }

  function Power(e: int): real {
    if e >= 0 then Power10(e) as real else 1.0 / Power10(-e) as real
  }

  /** The decimal exponent at the start of s, 0 if there is none. */
  function Exponent(s: string): int {
    if !StartsWith(s, 'e') && !StartsWith(s, 'E') then 0
    else
      var signed := StartsWith(s[1..], '-') || StartsWith(s[1..], '+');
      var digits := if signed then s[2..] else s[1..];
      var size: int := Value(digits[..Span(digits)]);
      if StartsWith(s[1..], '-') then -size else size
  }

  /** An unsigned decimal number: digits, digits after the point, and the exponent. */
  datatype Parts = Parts(whole: string, fraction: string, exponent: int)

  function PartsOf(s: string): (r: Parts)
    ensures AllDigits(r.whole) && AllDigits(r.fraction)
  {
    var whole := Span(s);
    var rest := s[whole..];
    if StartsWith(rest, '.') then
      var places := Span(rest[1..]);
      Parts(s[..whole], rest[1..][..places], Exponent(rest[1..][places..]))
    else Parts(s[..whole], "", Exponent(rest))
  }

  function ValueOf(p: Parts): real
    requires AllDigits(p.whole) && AllDigits(p.fraction)
  {
    (Value(p.whole) as real + Value(p.fraction) as real / Power10(|p.fraction|) as real) * Power(p.exponent)
  }

  datatype Signed = Signed(negative: bool, parts: Parts)

  function RealValue(x: Signed): real
    requires AllDigits(x.parts.whole) && AllDigits(x.parts.fraction)
  {
    if x.negative then -ValueOf(x.parts) else ValueOf(x.parts)
  }

  /** The number at the start of a text, if there is one. */
  function Scan(s: string): (r: Option<Signed>)
    ensures r.Some? ==> AllDigits(r.value.parts.whole) && AllDigits(r.value.parts.fraction)
  {
    var t := Ltrim(s);
    var p := PartsOf(if StartsWith(t, '-') || StartsWith(t, '+') then t[1..] else t);
    if p.whole == "" && p.fraction == "" then None else Some(Signed(StartsWith(t, '-'), p))
  }

  function Stod(s: string): Option<real> {
    var x := Scan(s);
    if x.Some? then Some(RealValue(x.value)) else None
  }

  const INT_MAX: int := 0x7fff_ffff

  function Stoi(s: string): Option<int> {
    var t := Ltrim(s);
    var digits := if StartsWith(t, '-') || StartsWith(t, '+') then t[1..] else t;
    var size: int := Value(digits[..Span(digits)]);
    var n := if StartsWith(t, '-') then -size else size;
    if Span(digits) == 0 || n > INT_MAX || n < -INT_MAX - 1 then None else Some(n)
  }

  // ---------------------------------------------------------------- what follows a number does not matter

  /** A text whose first character cannot continue a number. */
  predicate Stopper(w: string) {
    w != "" ==> !IsDigit(w[0]) && w[0] !in "+-.eE"
  }

  lemma {:induction false} SpanStops(s: string, w: string)
    requires w != "" ==> !IsDigit(w[0])
    ensures Span(s + w) == Span(s)
  {
    if s == "" {
      assert s + w == w;
    } else {
      assert (s + w)[1..] == s[1..] + w;
      SpanStops(s[1..], w);
    }
  }

  /** The digits and what follows them. */
  lemma CutStops(s: string, w: string)
    requires w != "" ==> !IsDigit(w[0])
    ensures Span(s + w) == Span(s)
    ensures (s + w)[..Span(s)] == s[..Span(s)] && (s + w)[Span(s)..] == s[Span(s)..] + w
  {
    SpanStops(s, w);
  }

  lemma StartStops(s: string, w: string, c: char)
    requires Stopper(w) && c in "+-.eE"
    ensures StartsWith(s + w, c) == StartsWith(s, c)
    ensures s != "" ==> (s + w)[1..] == s[1..] + w
  {
  }

  lemma ExponentStops(s: string, w: string)
    requires Stopper(w)
    ensures Exponent(s + w) == Exponent(s)
  {
    StartStops(s, w, 'e');
    StartStops(s, w, 'E');
    if StartsWith(s, 'e') || StartsWith(s, 'E') {
      StartStops(s[1..], w, '-');
      StartStops(s[1..], w, '+');
      var signed := StartsWith(s[1..], '-') || StartsWith(s[1..], '+');
      var digits := if signed then s[2..] else s[1..];
      if signed {
        assert (s + w)[2..] == s[2..] + w;
      }
      CutStops(digits, w);
    }
  }

  lemma PartsStop(s: string, w: string)
    requires Stopper(w)
    ensures PartsOf(s + w) == PartsOf(s)
  {
    CutStops(s, w);
    var rest := s[Span(s)..];
    StartStops(rest, w, '.');
    if StartsWith(rest, '.') {
      CutStops(rest[1..], w);
      ExponentStops(rest[1..][Span(rest[1..])..], w);
    } else {
      ExponentStops(rest, w);
    }
  }

  lemma ScanStops(s: string, w: string)
    requires s != "" && !IsSpace(s[0]) && Stopper(w)
    ensures Scan(s + w) == Scan(s)
  {
    StartStops(s, w, '-');
    StartStops(s, w, '+');
    PartsStop(s, w);
    PartsStop(s[1..], w);
  }

  /** A value followed by anything that cannot continue a number reads like the value alone. */
  lemma StodStops(s: string, w: string)
    requires s != "" && !IsSpace(s[0]) && Stopper(w)
    ensures Stod(s + w) == Stod(s)
  {
    ScanStops(s, w);
  }

  lemma StoiStops(s: string, w: string)
    requires s != "" && !IsSpace(s[0]) && Stopper(w)
    ensures Stoi(s + w) == Stoi(s)
  {
    StartStops(s, w, '-');
    StartStops(s, w, '+');
    CutStops(s, w);
    CutStops(s[1..], w);
  }

  /** A text that starts with a stopper is not a number. */
  lemma StopperIsNoNumber(w: string)
    requires Stopper(w) && (w != "" ==> !IsSpace(w[0]))
    ensures Stod(w).None?
  {
    assert w != "" ==> w[0] != '+' && w[0] != '-' && w[0] != '.';
  }

  lemma {:induction false} AllDigitsSpan(s: string)
    requires AllDigits(s)
    ensures Span(s) == |s|
  {
    if s != "" {
      AllDigitsSpan(s[1..]);
    }
  }

  // ---------------------------------------------------------------- written numbers

  /** A decimal number as it is written: sign, digits, and digits after a point if there are any. */
  datatype Numeral = Numeral(negative: bool, whole: nat, fraction: string)

  function Magnitude(n: Numeral): string {
    ToDecimal(n.whole) + if n.fraction == "" then "" else "." + n.fraction
  }

  function TextOf(n: Numeral): string {
    if n.negative then "-" + Magnitude(n) else Magnitude(n)
  }

  function RealOf(n: Numeral): real
    requires AllDigits(n.fraction)
  {
    var size := n.whole as real + Value(n.fraction) as real / Power10(|n.fraction|) as real;
    if n.negative then -size else size
  }

  lemma PartsOfDigits(digits: string)
    requires AllDigits(digits)
    ensures PartsOf(digits) == Parts(digits, "", 0)
  {
    AllDigitsSpan(digits);
    assert digits[..|digits|] == digits && digits[|digits|..] == "";
  }

  lemma SpanBefore(digits: string, w: string)
    requires AllDigits(digits) && (w != "" ==> !IsDigit(w[0]))
    ensures Span(digits + w) == |digits|
    ensures (digits + w)[..|digits|] == digits && (digits + w)[|digits|..] == w
  {
    AllDigitsSpan(digits);
    SpanStops(digits, w);
  }

  lemma PartsOfPoint(digits: string, fraction: string)
    requires AllDigits(digits) && AllDigits(fraction)
    ensures PartsOf(digits + ("." + fraction)) == Parts(digits, fraction, 0)
  {
    var rest := "." + fraction;
    SpanBefore(digits, rest);
    AllDigitsSpan(fraction);
    assert rest[1..] == fraction;
    assert fraction[..|fraction|] == fraction && fraction[|fraction|..] == "";
  }

  lemma PartsOfNumeral(n: Numeral)
    requires AllDigits(n.fraction)
    ensures PartsOf(Magnitude(n)) == Parts(ToDecimal(n.whole), n.fraction, 0)
  {
    if n.fraction == "" {
      PartsOfDigits(ToDecimal(n.whole));
      assert ToDecimal(n.whole) + "" == ToDecimal(n.whole);
    } else {
      PartsOfPoint(ToDecimal(n.whole), n.fraction);
    }
  }

  lemma ScanOfDigits(u: string)
    requires u != "" && IsDigit(u[0])
    ensures Scan(u) == Some(Signed(false, PartsOf(u))) && Scan("-" + u) == Some(Signed(true, PartsOf(u)))
  {
    assert ("-" + u)[1..] == u;
    assert Span(u) > 0;
  }

  lemma ScanNumeral(n: Numeral)
    requires AllDigits(n.fraction)
    ensures Scan(TextOf(n)) == Some(Signed(n.negative, Parts(ToDecimal(n.whole), n.fraction, 0)))
  {
    PartsOfNumeral(n);
    assert IsDigit(ToDecimal(n.whole)[0]);
    ScanOfDigits(Magnitude(n));
  }

  lemma ValueOfNumeral(n: Numeral)
    requires AllDigits(n.fraction)
    ensures RealValue(Signed(n.negative, Parts(ToDecimal(n.whole), n.fraction, 0))) == RealOf(n)
  {
    ValueOfToDecimal(n.whole);
    assert Power(0) == 1.0 by {
      assert Power10(0) == 1;
    }
  }

  /** A written number is read as the number it stands for: with or without a minus, with or without a fraction. */
  lemma StodReadsNumeral(n: Numeral)
    requires AllDigits(n.fraction)
    ensures Stod(TextOf(n)) == Some(RealOf(n))
  {
    ScanNumeral(n);
    ValueOfNumeral(n);
  }

  /** In particular, the text of a natural number. */
  lemma StodReadsBack(n: nat)
    ensures Stod(ToDecimal(n)) == Some(n as real)
  {
    var whole := Numeral(false, n, "");
    NumeralOfWhole(whole);
    StodReadsNumeral(whole);
  }

  lemma NumeralOfWhole(n: Numeral)
    requires n.fraction == "" && !n.negative
    ensures AllDigits(n.fraction) && TextOf(n) == ToDecimal(n.whole) && RealOf(n) == n.whole as real
  {
    assert Value(n.fraction) == 0 && Power10(|n.fraction|) == 1;
  }

  /** An integer in the range of int is read as itself, and no other is read at all. */
  lemma StoiReadsInteger(n: int)
    ensures Stoi(IntToDecimal(n)) == if -INT_MAX - 1 <= n <= INT_MAX then Some(n) else None
  {
    StoiOfInteger(n, IntToDecimal(n));
  }

  lemma StoiOfInteger(n: int, s: string)
    requires s == IntToDecimal(n)
    ensures Stoi(s) == InInt(n)
  {
    if n < 0 {
      DigitsOfInteger(-n);
      StoiOfMinus(s, ToDecimal(-n));
    } else {
      DigitsOfInteger(n);
      StoiOfDigits(ToDecimal(n));
    }
  }

  function InInt(n: int): Option<int> {
    if -INT_MAX - 1 <= n <= INT_MAX then Some(n) else None
  }

  lemma StoiOfDigits(u: string)
    requires u != "" && IsDigit(u[0])
    ensures Stoi(u) == InInt(Value(u[..Span(u)]))
  {
    assert Span(u) > 0;
  }

  lemma StoiOfMinus(s: string, u: string)
    requires u != "" && IsDigit(u[0]) && s == ['-'] + u
    ensures Stoi(s) == InInt(0 - Value(u[..Span(u)]))
  {
    assert s[1..] == u && Ltrim(s) == s;
    assert Span(u) > 0;
  }

  lemma DigitsOfInteger(n: nat)
    ensures var s := ToDecimal(n);
            IsDigit(s[0]) && Span(s) == |s| > 0 && Value(s[..Span(s)]) == n
  {
    var s := ToDecimal(n);
    AllDigitsSpan(s);
    ValueOfToDecimal(n);
    assert s[..|s|] == s && IsDigit(s[0]);
  }
}
