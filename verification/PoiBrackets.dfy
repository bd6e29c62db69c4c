/** Settings in square brackets, and the documented forms that are read differently than documented. */
module PoiBrackets {
  import opened Decimal
  import opened StringUtils
  import opened NumberText
  import opened Words
  import opened PoiSettings
  import opened PoiOrder

  // ---------------------------------------------------------------- texts of settings

  /** A text of values without brackets, spaces only between them. */
  predicate ValuesText(v: string) {
    && v != "" && OnlySpaces(v) && '[' !in v && ')' !in v && !IsSpace(v[0]) && !IsSpace(v[|v| - 1])
  }

  lemma ValueWords(v: string)
    requires ValuesText(v)
    ensures CleanWords(WordsOf(v)) && WordsOf(v) != []
  {
    WordsOfSnoc(v, ']');
    forall i | 0 <= i < |WordsOf(v)|
      ensures CleanWord(WordsOf(v)[i])
    {
      ValueWord(v, WordsOf(v)[i]);
    }
  }

  lemma ValueWord(v: string, w: string)
    requires ValuesText(v) && w in WordsOf(v)
    ensures CleanWord(w)
  {
    WordsHaveNoSpace(v);
    forall i | 0 <= i < |w|
      ensures !IsSpace(w[i]) && w[i] != ')'
    {
      if w[i] !in v {
        WordsWithin(v, w[i]);
      }
    }
  }

  predicate Spaces(s: string) {
    forall i :: 0 <= i < |s| ==> s[i] == ' '
  }

  /** Name and values of a token of a name, a space and a text. */
  lemma NameSpaceVals(name: string, w: string)
    requires CleanWord(name) && w != "" && !IsSpace(w[0]) && !IsSpace(w[|w| - 1])
    ensures TokenName(name + " " + w) == name && TokenVals(name + " " + w) == Unbracketed(w)
  {
    var t := name + " " + w;
    TrimTight(t);
    assert ' ' !in name;
    SpaceIsFound(name, w);
    TrimTight(name);
    assert t[..|name|] == name && t[|name|..] == " " + w;
    TrimSpaced(w);
  }

  lemma TrimSpaced(w: string)
    requires w != "" && !IsSpace(w[0]) && !IsSpace(w[|w| - 1])
    ensures Trim(" " + w) == w
  {
    var s := " " + w;
    assert s[1..] == w;
    assert Rtrim(s) == s;
    assert Ltrim(w) == w;
  }

  /** A setting without brackets. */
  lemma PlainUpdate(name: string, v: string)
    requires CleanWord(name) && ValuesText(v)
    ensures UpdateOf(name + " " + v) == MeaningOf(name, FirstOf(WordsOf(v)), WordsOf(v))
  {
    NameSpaceVals(name, v);
    assert Unbracketed(v) == v;
    KeptOfText(v);
    ValueWords(v);
    GluedBracketIsKept(WordsOf(v));
    StodOfWords(v);
    SameUpTo(name, v, FirstOf(WordsOf(v)), WordsOf(v));
  }

  /** The values the code sees when they are written in square brackets: only the opening one is removed, so the closing
      one is glued to the last value, or is a value of its own behind a blank. */
  function Bracketed(vals: seq<string>, blank: bool): seq<string>
    requires vals != []
  {
    if blank then vals + ["]"] else Glued(vals, ']')
  }

  lemma {:induction false} SpacesBeforeWords(pre: string, s: string)
    requires Spaces(pre)
    ensures WordsOf(pre + s) == WordsOf(s)
  {
    if pre == "" {
      assert pre + s == s;
    } else {
      LeadingSpace(pre + s);
      assert (pre + s)[1..] == pre[1..] + s;
      SpacesBeforeWords(pre[1..], s);
    }
  }

  lemma {:induction false} SpacesAfterWords(s: string, post: string)
    requires Spaces(post)
    ensures WordsOf(s + post) == WordsOf(s)
    decreases |post|
  {
    if post == "" {
      assert s + post == s;
    } else {
      var front := post[..|post| - 1];
      TrailingSpace(s + front);
      assert s + post == (s + front) + " ";
      SpacesAfterWords(s, front);
    }
  }

  lemma BracketedWords(pre: string, v: string, post: string)
    requires ValuesText(v) && Spaces(pre) && Spaces(post)
    ensures WordsOf(v) != []
    ensures WordsOf((pre + v + post) + "]") == Bracketed(WordsOf(v), post != "")
  {
    var body := pre + v + post;
    ValueWords(v);
    SpacesBeforeWords(pre, v);
    SpacesAfterWords(pre + v, post);
    WordsOfSnoc(body, ']');
    EndOfBody(pre, v, post);
  }

  lemma EndOfBody(pre: string, v: string, post: string)
    requires ValuesText(v) && Spaces(post)
    ensures AtWordEnd(pre + v + post) <==> post == ""
  {
    var body := pre + v + post;
    assert body != "";
    if post == "" {
      assert body[|body| - 1] == v[|v| - 1];
    } else {
      assert body[|body| - 1] == post[|post| - 1];
    }
  }

  lemma OnlySpacesBody(pre: string, v: string, post: string)
    requires ValuesText(v) && Spaces(pre) && Spaces(post)
    ensures OnlySpaces((pre + v + post) + "]") && '[' !in pre + v + post
  {
  }

  lemma UnbracketedBody(x: string)
    requires '[' !in x
    ensures Unbracketed("[" + x + "]") == x + "]"
  {
    TrimTight("[" + x + "]");
    assert ("[" + x + "]")[1..] == x + "]";
  }

  /** A setting in brackets, with any number of spaces inside them. */
  lemma BracketedUpdate(name: string, pre: string, v: string, post: string)
    requires CleanWord(name) && ValuesText(v) && Spaces(pre) && Spaces(post)
    ensures WordsOf(v) != []
    ensures var vals := Bracketed(WordsOf(v), post != "");
            UpdateOf(name + " " + ("[" + (pre + v + post) + "]")) == MeaningOf(name, FirstOf(vals), vals)
  {
    var body := pre + v + post;
    var x := body + "]";
    BracketedWords(pre, v, post);
    OnlySpacesBody(pre, v, post);
    NameSpaceVals(name, "[" + body + "]");
    UnbracketedBody(body);
    KeptOfText(x);
    ValueWords(v);
    BracketedIsKept(WordsOf(v), post != "");
    StodOfWords(x);
    SameUpTo(name, x, FirstOf(WordsOf(x)), WordsOf(x));
  }

  lemma {:induction false} GluedBracketIsKept(ws: seq<string>)
    requires CleanWords(ws) && ws != []
    ensures WithoutClosing(ws) == ws && WithoutClosing(Glued(ws, ']')) == Glued(ws, ']')
  {
    var g := Glued(ws, ']');
    assert CleanWord(ws[0]) && ws[0] != ")" by {
      assert CleanWord(ws[0]) && ")"[0] == ')';
    }
    if |ws| == 1 {
      assert g == [ws[0] + "]"] && |g[0]| >= 2 && g[1..] == [];
      assert ws == [ws[0]] && ws[1..] == [];
    } else {
      assert g == [ws[0]] + Glued(ws[1..], ']');
      GluedBracketIsKept(ws[1..]);
    }
  }

  lemma BracketedIsKept(ws: seq<string>, blank: bool)
    requires CleanWords(ws) && ws != []
    ensures WithoutClosing(Bracketed(ws, blank)) == Bracketed(ws, blank)
  {
    if blank {
      assert CleanWords(ws + ["]"]);
      NothingToRemove(ws + ["]"]);
    } else {
      GluedBracketIsKept(ws);
    }
  }

  // ---------------------------------------------------------------- values before a bracket

  /** A value with the closing square bracket glued to it reads like the value. */
  lemma ValueBeforeBracket(w: string)
    requires CleanWord(w)
    ensures Stod(w + "]") == Stod(w) && Stoi(w + "]") == Stoi(w)
    ensures Trim(w) == w && Trim(w + "]") == w + "]" && RemoveSuffix(w + "]", ')') == w + "]"
    ensures RemoveSuffix(w, ')') == w
  {
    StodStops(w, "]");
    StoiStops(w, "]");
    TrimTight(w);
    TrimTight(w + "]");
  }

  /** The number of a value, without the 's' of sigmas. */
  function NumberOf(w: string): Option<real> {
    Stod(RemoveSuffix(w, 's'))
  }

  /** With the bracket, a value in sigmas reads as its number. */
  lemma SigmaBeforeBracket(x: string)
    requires x != "" ==> !IsSpace(x[0])
    ensures Stod(x + "s") == Stod(x)
  {
    if x == "" {
      StopperIsNoNumber("s");
      StopperIsNoNumber("");
      assert x + "s" == "s";
    } else {
      StodStops(x, "s");
    }
  }

  lemma NumberIsPrefix(w: string)
    requires CleanWord(w)
    ensures Stod(w + "]") == NumberOf(w)
  {
    StodStops(w, "]");
    NumberIsWhole(w);
  }

  lemma CutSigma(w: string)
    requires EndsWith(w, 's') && !IsSpace(w[0])
    ensures var x := RemoveSuffix(w, 's'); x + "s" == w && (x != "" ==> !IsSpace(x[0]))
  {
  }

  lemma NumberIsWhole(w: string)
    requires CleanWord(w)
    ensures NumberOf(w) == Stod(w)
  {
    if EndsWith(w, 's') {
      CutSigma(w);
      SigmaBeforeBracket(RemoveSuffix(w, 's'));
    }
  }

  /** A bound with the bracket is never in sigmas. */
  lemma BoundBeforeBracket(w: string)
    requires CleanWord(w)
    ensures BoundOf(w + "]") == if NumberOf(w).Some? then Some(Real(NumberOf(w).value)) else None
    ensures BoundOf(w) == BoundOf(w + "]") <==> !EndsWith(w, 's') || NumberOf(w).None?
  {
    NumberIsPrefix(w);
  }

  // ---------------------------------------------------------------- when brackets matter

  /** The last value of a range is in sigmas, and the range can be read. */
  predicate EndsInSigmas(vals: seq<string>) {
    && |vals| in {1, 2}
    && EndsWith(vals[|vals| - 1], 's') && NumberOf(vals[|vals| - 1]).Some?
    && BoundOf(vals[0]).Some?
  }

  lemma BracketOnRange(vals: seq<string>)
    requires CleanWords(vals) && vals != []
    ensures RangeMeans(Glued(vals, ']')) == RangeMeans(vals) <==> !EndsInSigmas(vals)
  {
    var last := vals[|vals| - 1];
    BoundBeforeBracket(last);
    ValueBeforeBracket(last);
    if |vals| == 1 {
      assert Glued(vals, ']') == [last + "]"];
    } else {
      assert |Glued(vals, ']')| == |vals| && Glued(vals, ']')[0] == vals[0];
      assert Glued(vals, ']')[|vals| - 1] == last + "]";
    }
  }

  lemma BracketOnGrid(vals: seq<string>)
    requires CleanWords(vals) && vals != []
    ensures GridMeans(Glued(vals, ']')) == GridMeans(vals)
  {
    ValueBeforeBracket(vals[|vals| - 1]);
  }

  lemma BracketOnVal(vals: seq<string>)
    requires CleanWords(vals) && vals != []
    ensures ValMeans(Glued(vals, ']')) == ValMeans(vals)
  {
    ValueBeforeBracket(vals[|vals| - 1]);
  }

  /** A lone bracket is no number. */
  lemma BracketIsNoNumber()
    ensures Stod("]").None? && BoundOf("]").None?
  {
    StopperIsNoNumber("]");
    assert !EndsWith("]", 's');
  }

  lemma BlankOnVal(vals: seq<string>)
    requires CleanWords(vals) && vals != []
    ensures ValMeans(vals + ["]"]) == ValMeans(vals) <==> |vals| != 2
  {
    BracketIsNoNumber();
    if |vals| == 1 {
      assert vals + ["]"] == [vals[0], "]"];
    }
  }

  lemma BlankOnGrid(vals: seq<string>)
    requires CleanWords(vals) && vals != []
    ensures GridMeans(vals + ["]"]) == GridMeans(vals)
            <==> |vals| > 2 || (|vals| == 1 && Stoi(vals[0]).None?)
  {
  }

  lemma BlankOnOneBound(w: string)
    requires CleanWord(w)
    ensures RangeMeans([w, "]"]) == RangeMeans([w]) <==> BoundOf(w).None?
  {
    BracketIsNoNumber();
    ValueBeforeBracket(w);
    assert RemoveSuffix("]", ')') == "]";
  }

  lemma BlankOnTwoBounds(x: string, y: string)
    requires CleanWord(x) && CleanWord(y)
    ensures RangeMeans([x, y, "]"]) == RangeMeans([x, y]) <==> BoundOf(x).None? || BoundOf(y) == BoundOf(x)
  {
    ValueBeforeBracket(x);
    ValueBeforeBracket(y);
  }

  lemma BlankOnRange(vals: seq<string>)
    requires CleanWords(vals) && vals != []
    ensures RangeMeans(vals + ["]"]) == RangeMeans(vals)
            <==> |vals| > 2 || BoundOf(vals[0]).None? || (|vals| == 2 && BoundOf(vals[1]) == BoundOf(vals[0]))
  {
    if |vals| == 1 {
      BlankOnOneBound(vals[0]);
      assert vals == [vals[0]] && vals + ["]"] == [vals[0], "]"];
    } else if |vals| == 2 {
      BlankOnTwoBounds(vals[0], vals[1]);
      assert vals == [vals[0], vals[1]] && vals + ["]"] == [vals[0], vals[1], "]"];
    } else {
      assert (vals + ["]"])[0] == vals[0];
    }
  }

  /** When square brackets change a setting. Without a blank before the closing one: a readable range whose last value
      is in sigmas. With a blank, the bracket is one value too many: a value and error are dropped, a grid is refused
      (or no longer refused), and a range loses its upper bound or is refused. */
  predicate BracketsChange(name: string, vals: seq<string>, blank: bool)
    requires vals != []
  {
    if !blank then name == "range" && EndsInSigmas(vals)
    else if name == "val" then |vals| == 2
    else if name == "grid" then |vals| == 2 || (|vals| == 1 && Stoi(vals[0]).Some?)
    else if name == "range" then
      && |vals| <= 2 && BoundOf(vals[0]).Some?
      && (|vals| == 1 || BoundOf(vals[1]) != BoundOf(vals[0]))
    else false
  }

  /** Writing the values in square brackets, with any spaces inside, changes what a setting means exactly then. */
  lemma BracketsMatterExactly(name: string, pre: string, v: string, post: string)
    requires CleanWord(name) && ValuesText(v) && Spaces(pre) && Spaces(post)
    ensures WordsOf(v) != []
    ensures (UpdateOf(name + " " + ("[" + (pre + v + post) + "]")) != UpdateOf(name + " " + v))
            <==> BracketsChange(name, WordsOf(v), post != "")
  {
    ValueWords(v);
    PlainUpdate(name, v);
    BracketedUpdate(name, pre, v, post);
    if post == "" {
      GluedChanges(name, WordsOf(v));
    } else {
      BlankChanges(name, WordsOf(v));
    }
  }

  lemma GluedChanges(name: string, vals: seq<string>)
    requires CleanWords(vals) && vals != []
    ensures (MeaningOf(name, FirstOf(Glued(vals, ']')), Glued(vals, ']')) != MeaningOf(name, FirstOf(vals), vals))
            <==> name == "range" && EndsInSigmas(vals)
  {
    if name == "range" {
      BracketOnRange(vals);
    } else if name == "grid" {
      BracketOnGrid(vals);
    } else if name == "val" {
      BracketOnVal(vals);
    } else if name == "at" {
      ValueBeforeBracket(vals[|vals| - 1]);
    }
  }

  lemma BlankChanges(name: string, vals: seq<string>)
    requires CleanWords(vals) && vals != []
    ensures (MeaningOf(name, FirstOf(vals + ["]"]), vals + ["]"]) != MeaningOf(name, FirstOf(vals), vals))
            <==> BracketsChange(name, vals, true)
  {
    if name == "range" {
      BlankOnRange(vals);
    } else if name == "grid" {
      BlankOnGrid(vals);
    } else if name == "val" {
      BlankOnVal(vals);
    }
  }

  // ---------------------------------------------------------------- inputs

  lemma WordsOfTwo(x: string, y: string)
    requires x != "" && y != "" && ' ' !in x && ' ' !in y
    ensures WordsOf(x + " " + y) == [x, y]
  {
    CutWords(x, y);
    OneWord(y);
    OneNonEmpty(x);
  }

  lemma TwoValuesText(x: string, y: string)
    requires CleanWord(x) && CleanWord(y) && '[' !in x && '[' !in y
    ensures ValuesText(x + " " + y)
  {
    var v := x + " " + y;
    assert forall i :: 0 <= i < |v| ==> v[i] == if i < |x| then x[i] else if i == |x| then ' ' else y[i - |x| - 1];
  }

  lemma TwoPlain(name: string, x: string, y: string)
    requires CleanWord(name) && CleanWord(x) && CleanWord(y) && '[' !in x && '[' !in y
    ensures UpdateOf(name + " " + (x + " " + y)) == MeaningOf(name, x, [x, y])
  {
    WordsOfTwo(x, y);
    TwoValuesText(x, y);
    PlainUpdate(name, x + " " + y);
  }

  lemma TwoBracketed(name: string, x: string, y: string, post: string)
    requires CleanWord(name) && CleanWord(x) && CleanWord(y) && '[' !in x && '[' !in y && Spaces(post)
    ensures var vals := Bracketed([x, y], post != "");
            UpdateOf(name + " " + ("[" + ("" + (x + " " + y) + post) + "]")) == MeaningOf(name, FirstOf(vals), vals)
  {
    WordsOfTwo(x, y);
    TwoValuesText(x, y);
    BracketedUpdate(name, "", x + " " + y, post);
  }

  /** A name and two values, as words. */
  predicate TwoWords(name: string, x: string, y: string) {
    && CleanWord(name) && CleanWord(x) && CleanWord(y) && '[' !in x && '[' !in y
    && NoSeparators(name) && NoSeparators(x) && NoSeparators(y)
  }

  predicate NoSeparators(s: string) {
    '(' !in s && ':' !in s
  }

  lemma NumeralWord(n: nat)
    ensures CleanWord(ToDecimal(n)) && '[' !in ToDecimal(n) && NoSeparators(ToDecimal(n))
    ensures !EndsWith(ToDecimal(n), 's') && Stod(ToDecimal(n)) == Some(n as real)
  {
    var s := ToDecimal(n);
    assert forall i :: 0 <= i < |s| ==> IsDigit(s[i]);
    StodReadsBack(n);
  }

  lemma SigmaWord(n: nat)
    ensures var w := ToDecimal(n) + "s";
            CleanWord(w) && '[' !in w && NoSeparators(w) && EndsWith(w, 's') && NumberOf(w) == Some(n as real)
  {
    NumeralWord(n);
    assert (ToDecimal(n) + "s")[..|ToDecimal(n)|] == ToDecimal(n);
  }

  lemma NameWord(name: string)
    requires name == "range" || name == "val" || name == "grid"
    ensures CleanWord(name) && NoSeparators(name)
  {
  }

  /** The documented "range [1s 2s]", with any numbers of sigmas, is read as from the given sigmas below the central
      value up to the second number itself. */
  lemma DocumentedRangeIsMisread(range: string, a: nat, b: nat)
    requires range == "range"
    ensures var v := (ToDecimal(a) + "s") + " " + (ToDecimal(b) + "s");
            && UpdateOf(range + " " + v) == SetRange(Sigmas(a as real), Sigmas(b as real))
            && UpdateOf(range + " " + ("[" + ("" + v + "") + "]")) == SetRange(Sigmas(a as real), Real(b as real))
  {
    NameWord(range);
    SigmaWord(a);
    SigmaWord(b);
    PlainSigmas(range, ToDecimal(a) + "s", ToDecimal(b) + "s", a as real, b as real);
    BracketedSigmas(range, ToDecimal(a) + "s", ToDecimal(b) + "s", a as real, b as real);
  }

  lemma PlainSigmas(name: string, x: string, y: string, a: real, b: real)
    requires name == "range" && TwoWords(name, x, y) && EndsWith(x, 's') && EndsWith(y, 's')
    requires NumberOf(x) == Some(a) && NumberOf(y) == Some(b)
    ensures UpdateOf(name + " " + (x + " " + y)) == SetRange(Sigmas(a), Sigmas(b))
  {
    TwoPlain(name, x, y);
    RangesOfSigmas(x, y, a, b);
  }

  lemma TwoGlued(name: string, x: string, y: string)
    requires TwoWords(name, x, y)
    ensures UpdateOf(name + " " + ("[" + ("" + (x + " " + y) + "") + "]")) == MeaningOf(name, x, [x, y + "]"])
  {
    TwoBracketed(name, x, y, "");
    assert Glued([x, y], ']') == [x, y + "]"];
  }

  lemma BracketedSigmas(name: string, x: string, y: string, a: real, b: real)
    requires name == "range" && TwoWords(name, x, y) && EndsWith(x, 's') && EndsWith(y, 's')
    requires NumberOf(x) == Some(a) && NumberOf(y) == Some(b)
    ensures UpdateOf(name + " " + ("[" + ("" + (x + " " + y) + "") + "]")) == SetRange(Sigmas(a), Real(b))
  {
    TwoGlued(name, x, y);
    RangesOfSigmas(x, y, a, b);
  }

  lemma RangesOfSigmas(x: string, y: string, a: real, b: real)
    requires CleanWord(x) && CleanWord(y) && EndsWith(x, 's') && EndsWith(y, 's')
    requires NumberOf(x) == Some(a) && NumberOf(y) == Some(b)
    ensures RangeMeans([x, y]) == SetRange(Sigmas(a), Sigmas(b))
    ensures RangeMeans([x, y + "]"]) == SetRange(Sigmas(a), Real(b))
  {
    BoundBeforeBracket(y);
    ValueBeforeBracket(y);
  }

  /** With a blank before the closing bracket, "val [a b ]" sets nothing and "range [a b ]" ends at its lower bound. */
  lemma BlankBeforeBracketIsMisread(val: string, range: string, a: nat, b: nat)
    requires val == "val" && range == "range"
    ensures var vals := "[" + ("" + (ToDecimal(a) + " " + ToDecimal(b)) + " ") + "]";
            && UpdateOf(val + " " + vals) == NoEffect
            && UpdateOf(range + " " + vals) == SetRange(Real(a as real), Real(a as real))
  {
    NameWord(val);
    NameWord(range);
    NumeralWord(a);
    NumeralWord(b);
    BlankAfterVal(val, ToDecimal(a), ToDecimal(b));
    BlankAfterRange(range, ToDecimal(a), ToDecimal(b), a as real);
  }

  lemma BlankAfterVal(name: string, x: string, y: string)
    requires name == "val" && TwoWords(name, x, y)
    ensures UpdateOf(name + " " + ("[" + ("" + (x + " " + y) + " ") + "]")) == NoEffect
  {
    TwoBracketed(name, x, y, " ");
  }

  lemma BlankAfterRange(name: string, x: string, y: string, a: real)
    requires name == "range" && TwoWords(name, x, y) && !EndsWith(x, 's') && Stod(x) == Some(a)
    ensures UpdateOf(name + " " + ("[" + ("" + (x + " " + y) + " ") + "]")) == SetRange(Real(a), Real(a))
  {
    TwoBracketed(name, x, y, " ");
    FirstOfThree(x, y, a);
  }

  lemma FirstOfThree(x: string, y: string, a: real)
    requires CleanWord(x) && !EndsWith(x, 's') && Stod(x) == Some(a)
    ensures RangeMeans([x, y] + ["]"]) == SetRange(Real(a), Real(a))
  {
    ValueBeforeBracket(x);
  }

  // ---------------------------------------------------------------- a bound of zero

  lemma PlainIsClean(name: string, v: string)
    requires CleanWord(name) && ValuesText(v) && NoSeparators(name) && NoSeparators(v)
    ensures CleanToken(name + " " + v) && Key(name + " " + v) == name
  {
    CutWords(name, v);
    OneNonEmpty(name);
    ValueWords(v);
    PlainChars(name, v);
  }

  lemma PlainChars(name: string, v: string)
    requires CleanWord(name) && ValuesText(v) && NoSeparators(name) && NoSeparators(v)
    ensures var t := name + " " + v;
            OnlySpaces(t) && '(' !in t && ')' !in t && ':' !in t && !EndsWith(Rtrim(t), '[')
  {
    var t := name + " " + v;
    assert t[|t| - 1] == v[|v| - 1];
    assert Rtrim(t) == t;
    assert v[|v| - 1] in v;
    assert ')' !in name;
  }

  lemma TwoPlainClean(name: string, x: string, y: string)
    requires TwoWords(name, x, y)
    ensures CleanToken(name + " " + (x + " " + y)) && Key(name + " " + (x + " " + y)) == name
  {
    TwoValuesText(x, y);
    PlainIsClean(name, x + " " + y);
  }

  /** In "val v e : range 0 ks" the bound 0 becomes v - 2e, two sigmas below the central value. */
  lemma ZeroBoundIsReplaced(
      name: string, val: string, range: string, central: string, bounds: string, v: nat, e: nat, k: nat)
    requires '(' !in name && val == "val" && range == "range"
    requires central == val + " " + (ToDecimal(v) + " " + ToDecimal(e))
    requires bounds == range + " " + (ToDecimal(0) + " " + (ToDecimal(k) + "s"))
    ensures var c := Read(Rendered(name, [central, bounds]));
            c.Some? && c.value.low == v as real - 2.0 * e as real
  {
    CentralIsSet(val, central, v, e);
    ZeroIsSet(range, bounds, k);
    TwoSettings(name, central, bounds, v as real, e as real, k as real);
  }

  lemma CentralIsSet(val: string, t: string, v: nat, e: nat)
    requires val == "val" && t == val + " " + (ToDecimal(v) + " " + ToDecimal(e))
    ensures CleanToken(t) && Key(t) == val && UpdateOf(t) == SetCentral(v as real, e as real)
  {
    NameWord(val);
    NumeralWord(v);
    NumeralWord(e);
    CentralOfTwo(val, ToDecimal(v), ToDecimal(e), v as real, e as real);
  }

  lemma ZeroIsSet(range: string, t: string, k: nat)
    requires range == "range" && t == range + " " + (ToDecimal(0) + " " + (ToDecimal(k) + "s"))
    ensures CleanToken(t) && Key(t) == range && UpdateOf(t) == SetRange(Real(0.0), Sigmas(k as real))
  {
    NameWord(range);
    NumeralWord(0);
    SigmaWord(k);
    RangeOfTwo(range, ToDecimal(0), ToDecimal(k) + "s", k as real);
  }

  lemma CentralOfTwo(name: string, x: string, y: string, v: real, e: real)
    requires name == "val" && TwoWords(name, x, y) && Stod(x) == Some(v) && Stod(y) == Some(e)
    ensures var t := name + " " + (x + " " + y);
            CleanToken(t) && Key(t) == name && UpdateOf(t) == SetCentral(v, e)
  {
    TwoPlain(name, x, y);
    TwoPlainClean(name, x, y);
  }

  lemma RangeOfTwo(name: string, x: string, y: string, k: real)
    requires name == "range" && TwoWords(name, x, y)
    requires !EndsWith(x, 's') && EndsWith(y, 's') && Stod(x) == Some(0.0) && NumberOf(y) == Some(k)
    ensures var t := name + " " + (x + " " + y);
            CleanToken(t) && Key(t) == name && UpdateOf(t) == SetRange(Real(0.0), Sigmas(k))
  {
    TwoPlain(name, x, y);
    TwoPlainClean(name, x, y);
    ZeroAndSigmas(x, y, k);
  }

  lemma ZeroAndSigmas(x: string, y: string, k: real)
    requires CleanWord(y) && !EndsWith(x, 's') && EndsWith(y, 's') && Stod(x) == Some(0.0) && NumberOf(y) == Some(k)
    ensures RangeMeans([x, y]) == SetRange(Real(0.0), Sigmas(k))
  {
    ValueBeforeBracket(y);
  }

  lemma TwoSettings(name: string, val: string, range: string, v: real, e: real, k: real)
    requires '(' !in name && CleanToken(val) && CleanToken(range) && Key(val) != Key(range)
    requires UpdateOf(val) == SetCentral(v, e) && UpdateOf(range) == SetRange(Real(0.0), Sigmas(k))
    ensures var c := Read(Rendered(name, [val, range]));
            c.Some? && c.value.low == v - 2.0 * e
  {
    var ts := [val, range];
    FailsExactlyWithASetting(name, ts);
    EverySettingShows(name, ts, 0);
    EverySettingShows(name, ts, 1);
  }

  // ---------------------------------------------------------------- the kind of a grid

  /** A grid is refused exactly when it names a kind, which the documentation allows, or cannot be read. */
  lemma GridIsRefusedExactly(name: string, v: string)
    requires name == "grid" && ValuesText(v)
    ensures WordsOf(v) != []
    ensures UpdateOf(name + " " + v) == Failed
            <==> |WordsOf(v)| == 2 || (|WordsOf(v)| == 1 && Stoi(WordsOf(v)[0]).None?)
  {
    ValueWords(v);
    PlainUpdate(name, v);
  }

  /** The documented "grid 5 equidistant", with any number and any kind, makes reading fail, whatever else the text
      says. */
  lemma GridKindIsRefused(name: string, ts: seq<string>, grid: string, n: nat, kind: string)
    requires '(' !in name && grid == "grid" && CleanWord(kind) && '[' !in kind && NoSeparators(kind)
    requires grid + " " + (ToDecimal(n) + " " + kind) in ts && forall u :: u in ts ==> CleanToken(u)
    ensures Read(Rendered(name, ts)).None?
  {
    NameWord(grid);
    NumeralWord(n);
    KindFails(grid, ToDecimal(n), kind);
    FailsExactlyWithASetting(name, ts);
  }

  lemma KindFails(name: string, n: string, kind: string)
    requires name == "grid" && TwoWords(name, n, kind)
    ensures UpdateOf(name + " " + (n + " " + kind)) == Failed
  {
    TwoPlain(name, n, kind);
  }
}
