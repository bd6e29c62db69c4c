/** The words of a text: its non-empty pieces between blanks. */
module Words {
  import opened StringUtils

  function NonEmpty(parts: seq<string>): (r: seq<string>)
    ensures "" !in r && forall w :: w in r ==> w in parts
  {
    if parts == [] then []
    else if parts[0] == "" then NonEmpty(parts[1..])
    else [parts[0]] + NonEmpty(parts[1..])
  }

  function WordsOf(s: string): (r: seq<string>)
    ensures "" !in r
  {
    NonEmpty(Split(s, ' '))
  }

  /** The only blanks are spaces. */
  predicate OnlySpaces(s: string) {
    forall i :: 0 <= i < |s| ==> IsSpace(s[i]) ==> s[i] == ' '
  }

  lemma {:induction false} NonEmptyAppend(a: seq<string>, b: seq<string>)
    ensures NonEmpty(a + b) == NonEmpty(a) + NonEmpty(b)
  {
    if a == [] {
      assert a + b == b;
    } else {
      assert (a + b)[1..] == a[1..] + b;
      NonEmptyAppend(a[1..], b);
    }
  }

  lemma CutWords(first: string, rest: string)
    requires ' ' !in first
    ensures WordsOf(first + " " + rest) == NonEmpty([first]) + WordsOf(rest)
  {
    SplitFirst(first, ' ', rest);
    NonEmptyAppend([first], Split(rest, ' '));
  }

  /** A text up to its first space and after it. */
  lemma FirstCut(s: string) returns (first: string, rest: string)
    requires ' ' in s
    ensures s == first + " " + rest && ' ' !in first
  {
    var pos := Find(s, ' ');
    FindHit(s, ' ');
    first, rest := s[..pos], s[pos + 1..];
    assert s == first + " " + rest;
  }

  lemma OneWord(s: string)
    requires ' ' !in s && s != ""
    ensures WordsOf(s) == [s]
  {
    FindIs(s, ' ', |s|);
    assert s[..|s|] == s;
    assert Split(s, ' ') == [s];
    assert NonEmpty([s]) == [s];
  }

  /** The first word of a text that starts with one, and the text after it. */
  lemma FirstWord(s: string) returns (first: string, rest: string)
    requires s != "" && s[0] != ' '
    ensures s == first + rest && first != "" && ' ' !in first && |first| == Find(s, ' ') && (rest != "" ==> rest[0] == ' ')
    ensures WordsOf(s) == [first] + WordsOf(rest)
  {
    if ' ' in s {
      var tail;
      first, tail := FirstCut(s);
      rest := " " + tail;
      SpaceIsFound(first, tail);
      assert s == first + rest;
      WordsOfCut(first, tail);
    } else {
      first, rest := s, "";
      OneWord(s);
      NoWords();
      NoSpaceFound(s);
    }
  }

  lemma WordsOfCut(first: string, tail: string)
    requires ' ' !in first && first != ""
    ensures WordsOf(first + " " + tail) == [first] + WordsOf(" " + tail)
  {
    CutWords(first, tail);
    WordsOfSpaced(tail);
    OneNonEmpty(first);
  }

  lemma SpaceIsFound(first: string, tail: string)
    requires ' ' !in first
    ensures Find(first + " " + tail, ' ') == |first|
  {
    var s := first + " " + tail;
    assert s[..|first|] == first;
    FindIs(s, ' ', |first|);
  }

  lemma WordsOfSpaced(tail: string)
    ensures WordsOf(" " + tail) == WordsOf(tail)
  {
    LeadingSpace(" " + tail);
    assert (" " + tail)[1..] == tail;
  }

  lemma NoSpaceFound(s: string)
    requires ' ' !in s
    ensures Find(s, ' ') == |s|
  {
    FindIs(s, ' ', |s|);
  }

  lemma OneNonEmpty(w: string)
    requires w != ""
    ensures NonEmpty([w]) == [w]
  {
  }

  lemma NoWords()
    ensures WordsOf("") == []
  {
  }

  lemma LeadingSpace(s: string)
    requires s != "" && s[0] == ' '
    ensures WordsOf(s) == WordsOf(s[1..])
  {
    SplitFirst("", ' ', s[1..]);
    assert s == "" + " " + s[1..];
    assert ([""] + Split(s[1..], ' '))[1..] == Split(s[1..], ' ');
  }

  lemma {:induction false} WordsOfLtrim(s: string)
    requires OnlySpaces(s)
    ensures WordsOf(Ltrim(s)) == WordsOf(s)
  {
    if s != "" && IsSpace(s[0]) {
      LeadingSpace(s);
      WordsOfLtrim(s[1..]);
    }
  }

  /** A character glued to the last word. */
  function Glued(ws: seq<string>, c: char): seq<string>
    requires ws != []
  {
    ws[..|ws| - 1] + [ws[|ws| - 1] + [c]]
  }

  lemma GluedAppend(a: seq<string>, b: seq<string>, c: char)
    requires b != []
    ensures Glued(a + b, c) == a + Glued(b, c)
  {
  }

  predicate AtWordEnd(s: string) {
    s != "" && !EndsWith(s, ' ')
  }

  /** One more character after a text: it joins the last word, or is a new one. */
  lemma {:induction false} WordsOfSnoc(s: string, c: char)
    requires c != ' '
    ensures AtWordEnd(s) ==> WordsOf(s) != []
    ensures WordsOf(s + [c]) == if AtWordEnd(s) then Glued(WordsOf(s), c) else WordsOf(s) + [[c]]
    decreases |s|
  {
    if ' ' in s {
      var first, rest := FirstCut(s);
      WordsOfSnoc(rest, c);
      SnocBehindCut(first, rest, c);
    } else {
      OneWord(s + [c]);
      if s != "" {
        OneWord(s);
      } else {
        assert s + [c] == [c];
      }
    }
  }

  lemma SnocBehindCut(first: string, rest: string, c: char)
    requires ' ' !in first && (AtWordEnd(rest) ==> WordsOf(rest) != [])
    requires WordsOf(rest + [c]) == if AtWordEnd(rest) then Glued(WordsOf(rest), c) else WordsOf(rest) + [[c]]
    ensures var s := first + " " + rest;
            && (AtWordEnd(s) ==> WordsOf(s) != [])
            && WordsOf(s + [c]) == if AtWordEnd(s) then Glued(WordsOf(s), c) else WordsOf(s) + [[c]]
  {
    var s := first + " " + rest;
    CutWords(first, rest + [c]);
    CutWords(first, rest);
    SameEnd(first, rest);
    assert s + [c] == first + " " + (rest + [c]);
    if AtWordEnd(rest) {
      GluedAppend(NonEmpty([first]), WordsOf(rest), c);
    } else {
      Regroup(NonEmpty([first]), WordsOf(rest), [[c]]);
    }
  }

  lemma Regroup(a: seq<string>, b: seq<string>, c: seq<string>)
    ensures (a + b) + c == a + (b + c)
  {
  }

  lemma SameEnd(first: string, rest: string)
    ensures AtWordEnd(first + " " + rest) == AtWordEnd(rest)
  {
  }

  lemma {:induction false} TrailingSpace(s: string)
    ensures WordsOf(s + " ") == WordsOf(s)
    decreases |s|
  {
    if ' ' in s {
      var first, rest := FirstCut(s);
      TrailingSpace(rest);
      assert s + " " == first + " " + (rest + " ");
      CutWords(first, rest + " ");
      CutWords(first, rest);
    } else if s != "" {
      OneWord(s);
      CutWords(s, "");
      assert s + " " + "" == s + " ";
    } else {
      LeadingSpace(" ");
    }
  }

  lemma {:induction false} WordsOfRtrim(s: string)
    requires OnlySpaces(s)
    ensures WordsOf(Rtrim(s)) == WordsOf(s)
  {
    if s != "" && IsSpace(s[|s| - 1]) {
      var t := s[..|s| - 1];
      TrailingSpace(t);
      assert s == t + " ";
      WordsOfRtrim(t);
    }
  }
}

/** The settings of a parameter of interest: one token of the text, what it means, and what it does. */
module PoiSettings {
  import opened Decimal
  import opened StringUtils
  import opened NumberText
  import opened Words

  /** The fields of a configuration. */
  datatype Config = Config(
    name: string, val: real, centralVal: real, centralErr: real, gridSize: nat,
    low: real, high: real, sigmasLow: real, sigmasHigh: real,
    isDefined: bool, inSigmas: bool, isComputed: bool)

  function Initial(name: string): Config {
    Config(name, 0.0, 0.0, 0.0, 1, 0.0, 0.0, 2.0, 2.0, false, false, false)
  }

  function Abs(x: real): real {
    if x < 0.0 then -x else x
  }

  /** A bound of the range, in real units or in sigmas. */
  datatype Bound = Real(value: real) | Sigmas(value: real)

  datatype Update =
    | SetCentral(val: real, err: real)
    | SetGrid(size: nat)
    | SetRange(low: Bound, high: Bound)
    | SetAt(val: real)
    | NoEffect
    | Failed                  // an exception, or an access behind the last value

  function SetLow(c: Config, b: Bound): Config {
    match b
    case Real(x) => c.(low := x)
    case Sigmas(x) => c.(sigmasLow := Abs(x), inSigmas := true)
  }

  function SetHigh(c: Config, b: Bound): Config {
    match b
    case Real(x) => c.(high := x)
    case Sigmas(x) => c.(sigmasHigh := Abs(x), inSigmas := true)
  }

  // ---------------------------------------------------------------- one token

  function Unbracketed(vals: string): string {
    if StartsWith(vals, '[') then RemoveSuffix(RemovePrefix(vals, '['), '[') else vals
  }

  function Kept(parts: seq<string>): seq<string> {
    if parts == [] then []
    else if parts[0] == "" || parts[0] == " " || parts[0] == ")" then Kept(parts[1..])
    else [parts[0]] + Kept(parts[1..])
  }

  function BoundOf(text: string): Option<Bound> {
    if EndsWith(text, 's') then
      var x := Stod(RemoveSuffix(text, 's'));
      if x.Some? then Some(Sigmas(x.value)) else None
    else
      var x := Stod(text);
      if x.Some? then Some(Real(x.value)) else None
  }

  function RangeOf(low: Option<Bound>, high: Option<Bound>): Update {
    if low.Some? && high.Some? then SetRange(low.value, high.value) else Failed
  }

  /** A negative int becomes a huge size. */
  function ToSize(n: int): (r: nat)
    ensures n >= 0 ==> r == n
  {
    if n >= 0 then n else if n + MODULUS_64 >= 0 then n + MODULUS_64 else 0
  }

  function ValMeans(vals: seq<string>): Update {
    if |vals| == 2 then
      var val, err := Stod(vals[0]), Stod(vals[1]);
      if val.Some? && err.Some? then SetCentral(val.value, err.value) else Failed
    else if |vals| == 1 then Failed
    else NoEffect
  }

  function GridMeans(vals: seq<string>): Update {
    if |vals| == 2 then Failed
    else if |vals| == 1 then
      var n := Stoi(vals[0]);
      if n.Some? then SetGrid(ToSize(n.value)) else Failed
    else NoEffect
  }

  function RangeMeans(vals: seq<string>): Update {
    if |vals| == 2 then RangeOf(BoundOf(vals[0]), BoundOf(RemoveSuffix(vals[1], ')')))
    else if |vals| == 0 then Failed
    else
      var b := BoundOf(RemoveSuffix(Trim(vals[0]), ')'));
      RangeOf(b, b)
  }

  function AtMeans(text: string): Update {
    var x := Stod(text);
    if x.Some? then SetAt(x.value) else Failed
  }

  function MeaningOf(name: string, text: string, vals: seq<string>): Update {
    if name == "val" then ValMeans(vals)
    else if name == "grid" then GridMeans(vals)
    else if name == "range" then RangeMeans(vals)
    else if name == "at" then AtMeans(text)
    else NoEffect
  }

  function TokenName(token: string): string {
    var t := Trim(token);
    Trim(t[..Find(t, ' ')])
  }

  function RawVals(token: string): string {
    var t := Trim(token);
    Trim(t[Find(t, ' ')..])
  }

  function TokenVals(token: string): string {
    Unbracketed(RawVals(token))
  }

  function UpdateOf(token: string): Update {
    MeaningOf(TokenName(token), TokenVals(token), Kept(Split(TokenVals(token), ' ')))
  }

  // ---------------------------------------------------------------- a token means what its words mean

  /** A text that ends with a character other than a blank. */
  predicate Solid(s: string) {
    s != "" && !IsSpace(s[|s| - 1])
  }

  function WithoutClosing(ws: seq<string>): seq<string> {
    if ws == [] then [] else if ws[0] == ")" then WithoutClosing(ws[1..]) else [ws[0]] + WithoutClosing(ws[1..])
  }

  /** The words of the values without the square bracket that opens them. */
  function Opened(ws: seq<string>): seq<string> {
    if ws == [] then []
    else if ws[0] == "[" then ws[1..]
    else if StartsWith(ws[0], '[') then [ws[0][1..]] + ws[1..]
    else ws
  }

  function FirstOf(ws: seq<string>): string {
    if ws == [] then "" else ws[0]
  }

  function WordsMean(ws: seq<string>): Update
    requires |ws| >= 2
  {
    var vals := Opened(ws[1..]);
    MeaningOf(ws[0], FirstOf(vals), WithoutClosing(vals))
  }

  lemma {:induction false} KeptWords(parts: seq<string>)
    requires " " !in parts
    ensures Kept(parts) == WithoutClosing(NonEmpty(parts))
  {
    if parts != [] {
      KeptWords(parts[1..]);
    }
  }

  lemma KeptOfText(s: string)
    ensures Kept(Split(s, ' ')) == WithoutClosing(WordsOf(s))
  {
    forall i | 0 <= i < |Split(s, ' ')|
      ensures Split(s, ' ')[i] != " "
    {
      PiecesAreClean(s, ' ', i);
      assert ' ' in " ";
    }
    KeptWords(Split(s, ' '));
  }

  /** Nothing to trim in a text that starts and ends with other characters. */
  lemma TrimTight(s: string)
    requires s != "" ==> !IsSpace(s[0]) && !IsSpace(s[|s| - 1])
    ensures Trim(s) == s
  {
  }

  /** Only the left end of a solid text is trimmed, and it stays solid. */
  lemma {:induction false} LtrimSolid(s: string)
    requires Solid(s)
    ensures Solid(Ltrim(s)) && !IsSpace(Ltrim(s)[0]) && Ltrim(s)[|Ltrim(s)| - 1] == s[|s| - 1]
  {
    if IsSpace(s[0]) {
      LtrimSolid(s[1..]);
    }
  }

  lemma {:induction false} LtrimOnlySpaces(s: string)
    requires OnlySpaces(s)
    ensures OnlySpaces(Ltrim(s))
  {
    if s != "" && IsSpace(s[0]) {
      LtrimOnlySpaces(s[1..]);
    }
  }

  lemma {:induction false} LtrimOnce(s: string)
    ensures Ltrim(Ltrim(s)) == Ltrim(s)
  {
    if s != "" && IsSpace(s[0]) {
      LtrimOnce(s[1..]);
    }
  }

  lemma SolidRest(s: string, first: string, rest: string)
    requires s == first + rest && rest != ""
    ensures Solid(s) == Solid(rest) && s[|s| - 1] == rest[|rest| - 1]
    ensures OnlySpaces(s) ==> OnlySpaces(rest) && OnlySpaces(first)
  {
    assert forall i :: 0 <= i < |rest| ==> rest[i] == s[|first| + i];
    assert forall i :: 0 <= i < |first| ==> first[i] == s[i];
  }

  /** A text without blanks at its ends, spaces the only blanks inside. */
  predicate TightText(s: string) {
    Solid(s) && OnlySpaces(s) && !IsSpace(s[0])
  }

  /** Name and values of a solid text of at least two words. */
  lemma NameAndVals(u: string)
    requires Solid(u) && OnlySpaces(u) && |WordsOf(u)| >= 2
    ensures TokenName(u) == WordsOf(u)[0]
    ensures WordsOf(RawVals(u)) == WordsOf(u)[1..]
    ensures TightText(RawVals(u)) && RawVals(u)[|RawVals(u)| - 1] == u[|u| - 1]
  {
    var t := Ltrim(u);
    LtrimSolid(u);
    LtrimOnlySpaces(u);
    WordsOfLtrim(u);
    TrimOfSolid(u);
    var first, rest := FirstWord(t);
    assert t[..|first|] == first && t[|first|..] == rest;
    NoWords();
    SolidRest(t, first, rest);
    NoSpaceNoTrim(first);
    ValsOfRest(rest);
  }

  lemma TrimOfSolid(u: string)
    requires Solid(u)
    ensures Trim(u) == Ltrim(u)
  {
  }

  lemma ValsOfRest(rest: string)
    requires Solid(rest) && OnlySpaces(rest)
    ensures TightText(Trim(rest)) && Trim(rest)[|Trim(rest)| - 1] == rest[|rest| - 1]
    ensures WordsOf(Trim(rest)) == WordsOf(rest)
  {
    TrimOfSolid(rest);
    LtrimSolid(rest);
    LtrimOnlySpaces(rest);
    WordsOfLtrim(rest);
  }

  lemma NoSpaceNoTrim(first: string)
    requires OnlySpaces(first) && ' ' !in first
    ensures Trim(first) == first
  {
    assert first != "" ==> first[0] in first && first[|first| - 1] in first;
    TrimTight(first);
  }

  lemma ScanOfWords(s: string)
    requires OnlySpaces(s)
    ensures Scan(s) == Scan(FirstOf(WordsOf(s)))
  {
    var t := Ltrim(s);
    LtrimOnce(s);
    WordsOfLtrim(s);
    assert Scan(s) == Scan(t);
    if t == "" {
      NoWords();
    } else {
      LtrimStarts(s);
      var first, rest := FirstWord(t);
      ScanStops(first, rest);
    }
  }

  /** A number is read from the first word of a text. */
  lemma StodOfWords(s: string)
    requires OnlySpaces(s)
    ensures Stod(s) == Stod(FirstOf(WordsOf(s)))
  {
    ScanOfWords(s);
  }

  lemma {:induction false} LtrimStarts(s: string)
    requires Ltrim(s) != ""
    ensures !IsSpace(Ltrim(s)[0])
  {
    if IsSpace(s[0]) {
      LtrimStarts(s[1..]);
    }
  }

  /** Unbracketing removes one character, unless the text ends with an opening bracket. */
  lemma UnbracketedTight(raw: string)
    requires TightText(raw) && raw[|raw| - 1] != '['
    ensures Unbracketed(raw) == if raw[0] == '[' then raw[1..] else raw
  {
    TrimTight(raw);
  }

  /** The words behind an opening bracket. */
  lemma WordsBehindBracket(x: string)
    ensures WordsOf(x) == Opened(WordsOf("[" + x))
  {
    if x == "" || x[0] == ' ' {
      OneWordMore("", x);
    } else {
      var first, rest := FirstWord(x);
      OneWordMore(first, rest);
      assert "[" + x == ("[" + first) + rest;
      assert ("[" + first)[1..] == first;
    }
  }

  lemma OneWordMore(first: string, rest: string)
    requires ' ' !in first && (rest != "" ==> rest[0] == ' ')
    ensures WordsOf(("[" + first) + rest) == ["[" + first] + WordsOf(rest)
  {
    var s := ("[" + first) + rest;
    FindIs(s, ' ', |first| + 1);
    var f, r := FirstWord(s);
    assert f == "[" + first && r == rest;
  }

  /** The words after unbracketing. */
  lemma OpenedWords(raw: string)
    requires TightText(raw) && raw[|raw| - 1] != '['
    ensures WordsOf(Unbracketed(raw)) == Opened(WordsOf(raw))
  {
    UnbracketedTight(raw);
    if raw[0] == '[' {
      WordsBehindBracket(raw[1..]);
      assert "[" + raw[1..] == raw;
    } else {
      var first, rest := FirstWord(raw);
      assert first[0] != '[';
    }
  }

  /** A token means what its words mean, whatever the number of spaces between them. */
  lemma UpdateByWords(u: string)
    requires Solid(u) && OnlySpaces(u) && u[|u| - 1] != '[' && |WordsOf(u)| >= 2
    ensures UpdateOf(u) == WordsMean(WordsOf(u))
  {
    NameAndVals(u);
    var raw, x := RawVals(u), TokenVals(u);
    UnbracketedTight(raw);
    OpenedWords(raw);
    KeptOfText(x);
    assert OnlySpaces(x);
    StodOfWords(x);
    SameUpTo(TokenName(u), x, FirstOf(WordsOf(x)), WithoutClosing(WordsOf(x)));
  }

  /** The text of the values counts only as the number it starts with. */
  lemma SameUpTo(name: string, text: string, other: string, vals: seq<string>)
    requires Stod(text) == Stod(other)
    ensures MeaningOf(name, text, vals) == MeaningOf(name, other, vals)
  {
  }
}
