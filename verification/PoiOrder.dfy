/** Reading a configuration from text: the order of the settings, and the parenthesis that closes them. */
module PoiOrder {
  import opened StringUtils
  import opened NumberText
  import opened Words
  import opened PoiSettings

  // ---------------------------------------------------------------- the closing parenthesis

  /** A setting in the documented form: a name and at least one value, between spaces, with or without square brackets
      around the values. */
  predicate CleanToken(t: string) {
    && OnlySpaces(t) && '(' !in t && ')' !in t && ':' !in t && |WordsOf(t)| >= 2 && !EndsWith(Rtrim(t), '[')
  }

  lemma {:induction false} NonEmptyWithin(parts: seq<string>, c: char)
    requires forall i :: 0 <= i < |parts| ==> c !in parts[i]
    ensures forall w :: w in NonEmpty(parts) ==> c !in w
  {
    if parts != [] {
      NonEmptyWithin(parts[1..], c);
    }
  }

  lemma {:induction false} SplitWithin(s: string, sep: char, c: char)
    requires c !in s
    ensures forall i :: 0 <= i < |Split(s, sep)| ==> c !in Split(s, sep)[i]
    decreases |s|
  {
    if s != "" {
      var pos := Find(s, sep);
      if pos < |s| {
        SplitWithin(s[pos + 1..], sep, c);
      }
    }
  }

  lemma WordsWithin(s: string, c: char)
    requires c !in s
    ensures forall w :: w in WordsOf(s) ==> c !in w
  {
    SplitWithin(s, ' ', c);
    NonEmptyWithin(Split(s, ' '), c);
  }

  lemma WordsHaveNoSpace(s: string)
    ensures forall w :: w in WordsOf(s) ==> ' ' !in w
  {
    forall i | 0 <= i < |Split(s, ' ')|
      ensures ' ' !in Split(s, ' ')[i]
    {
      PiecesAreClean(s, ' ', i);
    }
    NonEmptyWithin(Split(s, ' '), ' ');
  }

  /** A word a closing bracket may follow. */
  predicate CleanWord(w: string) {
    w != "" && forall i :: 0 <= i < |w| ==> !IsSpace(w[i]) && w[i] != ')'
  }

  predicate CleanWords(ws: seq<string>) {
    forall i :: 0 <= i < |ws| ==> CleanWord(ws[i])
  }

  lemma CleanTokenWords(t: string)
    requires CleanToken(t)
    ensures CleanWords(WordsOf(t))
  {
    forall i | 0 <= i < |WordsOf(t)|
      ensures CleanWord(WordsOf(t)[i])
    {
      CleanTokenWord(t, WordsOf(t)[i]);
    }
  }

  lemma CleanTokenWord(t: string, w: string)
    requires CleanToken(t) && w in WordsOf(t)
    ensures CleanWord(w)
  {
    WordsHaveNoSpace(t);
    forall i | 0 <= i < |w|
      ensures !IsSpace(w[i]) && w[i] != ')'
    {
      if w[i] !in t {
        WordsWithin(t, w[i]);
      }
    }
  }

  lemma {:induction false} NothingToRemove(ws: seq<string>)
    requires CleanWords(ws)
    ensures WithoutClosing(ws) == ws && WithoutClosing(ws + [")"]) == ws
  {
    if ws == [] {
      assert ws + [")"] == [")"] && [")"][1..] == [];
    } else {
      assert ')' !in ws[0] && ')' in ")";
      assert (ws + [")"])[1..] == ws[1..] + [")"];
      NothingToRemove(ws[1..]);
    }
  }

  lemma {:induction false} GluedIsKept(ws: seq<string>)
    requires CleanWords(ws) && ws != []
    ensures WithoutClosing(Glued(ws, ')')) == Glued(ws, ')')
  {
    var g := Glued(ws, ')');
    if |ws| == 1 {
      assert g == [ws[0] + ")"] && |g[0]| >= 2 && g[1..] == [];
    } else {
      assert ')' !in ws[0] && ')' in ")";
      assert g == [ws[0]] + Glued(ws[1..], ')');
      GluedIsKept(ws[1..]);
    }
  }

  /** A value with a closing bracket glued to it reads like the value. */
  lemma ValueBeforeClosing(w: string)
    requires CleanWord(w)
    ensures Stod(w + ")") == Stod(w) && Stoi(w + ")") == Stoi(w)
    ensures RemoveSuffix(w, ')') == w == RemoveSuffix(w + ")", ')')
    ensures Trim(w) == w && Trim(w + ")") == w + ")"
  {
    StodStops(w, ")");
    StoiStops(w, ")");
    TrimTight(w);
    TrimTight(w + ")");
  }

  /** The parenthesis after the last value changes nothing if it stands alone ... */
  lemma SeparateClosingChangesNothing(ws: seq<string>)
    requires CleanWords(ws) && |ws| >= 2
    ensures WordsMean(ws + [")"]) == WordsMean(ws)
  {
    var vals := Opened(ws[1..]);
    OpenedIsClean(ws[1..]);
    NothingToRemove(vals);
    assert (ws + [")"])[1..] == ws[1..] + [")"];
    assert Opened(ws[1..] + [")"]) == vals + [")"];
    if vals == [] {
      ClosingIsNoNumber();
      SameUpTo(ws[0], ")", "", []);
    }
  }

  lemma ClosingIsNoNumber()
    ensures Stod(")") == Stod("")
  {
    StopperIsNoNumber(")");
    StopperIsNoNumber("");
  }

  lemma OpenedIsClean(vals: seq<string>)
    requires CleanWords(vals)
    ensures CleanWords(Opened(vals))
  {
    if vals != [] && StartsWith(vals[0], '[') && vals[0] != "[" {
      assert forall i :: 0 <= i < |vals[0]| - 1 ==> vals[0][1..][i] == vals[0][i + 1];
    }
  }

  /** ... and if it is glued to the value. */
  lemma GluedClosingChangesNothing(ws: seq<string>)
    requires CleanWords(ws) && |ws| >= 2
    ensures WordsMean(Glued(ws, ')')) == WordsMean(ws)
  {
    var vals := Opened(ws[1..]);
    GluedTail(ws, ')');
    OpenedIsClean(ws[1..]);
    OpenedGlued(ws[1..], ')');
    NothingToRemove(vals);
    if vals == [] {
      assert Opened(Glued(ws, ')')[1..]) == [")"];
      assert WithoutClosing([")"]) == [];
      ClosingIsNoNumber();
      SameUpTo(ws[0], ")", "", []);
    } else {
      GluedIsKept(vals);
      GluedMeaning(ws[0], vals[0], vals);
    }
  }

  lemma OpenedGlued(vals: seq<string>, c: char)
    requires CleanWords(vals) && vals != []
    ensures Opened(Glued(vals, c)) == if Opened(vals) == [] then [[c]] else Glued(Opened(vals), c)
  {
    if |vals| == 1 {
      OpenedGluedOne(vals[0], c);
      assert vals == [vals[0]];
    } else {
      GluedTail(vals, c);
      if vals[0] == "[" {
        assert Opened(vals) == vals[1..];
      } else if StartsWith(vals[0], '[') {
        GluedAppend([vals[0][1..]], vals[1..], c);
      }
    }
  }

  lemma OpenedGluedOne(v: string, c: char)
    requires v != ""
    ensures Opened(Glued([v], c)) == if Opened([v]) == [] then [[c]] else Glued(Opened([v]), c)
  {
    assert Glued([v], c) == [v + [c]];
    assert (v + [c])[0] == v[0] && (v + [c])[1..] == v[1..] + [c];
    if v[0] == '[' && v != "[" {
      assert Opened([v]) == [v[1..]];
    }
  }

  lemma GluedTail(ws: seq<string>, c: char)
    requires |ws| >= 2
    ensures var g := Glued(ws, c);
            |g| == |ws| && g[0] == ws[0] && g[1..] == Glued(ws[1..], c)
  {
  }

  lemma GluedMeaning(name: string, text: string, vals: seq<string>)
    requires CleanWords(vals) && vals != [] && text == vals[0]
    ensures MeaningOf(name, Glued(vals, ')')[0], Glued(vals, ')')) == MeaningOf(name, text, vals)
  {
    if |vals| == 1 {
      assert vals == [text] && Glued(vals, ')') == [text + ")"];
      GluedToOne(name, text);
    } else if |vals| == 2 {
      assert vals == [text, vals[1]] && Glued(vals, ')') == [text, vals[1] + ")"];
      GluedToTwo(name, text, vals[1]);
    } else {
      var glued := Glued(vals, ')');
      assert |glued| == |vals| && glued[0] == vals[0];
    }
  }

  lemma GluedToOne(name: string, w: string)
    requires CleanWord(w)
    ensures MeaningOf(name, w + ")", [w + ")"]) == MeaningOf(name, w, [w])
  {
    if name == "grid" {
      GluedToGrid(w);
    } else if name == "range" {
      GluedToRange(w);
    } else if name == "at" {
      ValueBeforeClosing(w);
    }
  }

  lemma GluedToGrid(w: string)
    requires CleanWord(w)
    ensures GridMeans([w + ")"]) == GridMeans([w])
  {
    ValueBeforeClosing(w);
  }

  lemma GluedToRange(w: string)
    requires CleanWord(w)
    ensures RangeMeans([w + ")"]) == RangeMeans([w])
  {
    ValueBeforeClosing(w);
  }

  lemma GluedToTwo(name: string, w: string, last: string)
    requires CleanWord(last)
    ensures MeaningOf(name, w, [w, last + ")"]) == MeaningOf(name, w, [w, last])
  {
    if name == "val" {
      GluedToVal(w, last);
    } else if name == "range" {
      GluedToRangeEnd(w, last);
    }
  }

  lemma GluedToVal(w: string, last: string)
    requires CleanWord(last)
    ensures ValMeans([w, last + ")"]) == ValMeans([w, last])
  {
    ValueBeforeClosing(last);
  }

  lemma GluedToRangeEnd(w: string, last: string)
    requires CleanWord(last)
    ensures RangeMeans([w, last + ")"]) == RangeMeans([w, last])
  {
    ValueBeforeClosing(last);
  }

  /** The token before the closing parenthesis means the same as without it. */
  lemma ClosingIsIgnored(t: string)
    requires CleanToken(t)
    ensures UpdateOf(t) == UpdateOf(t + ")") == WordsMean(WordsOf(t))
  {
    CleanTokenWords(t);
    WordsOfSnoc(t, ')');
    SeparateClosingChangesNothing(WordsOf(t));
    GluedClosingChangesNothing(WordsOf(t));
    UpdateByWords(t + ")");
    RightEndIsIrrelevant(t);
  }

  lemma RightEndIsIrrelevant(t: string)
    requires CleanToken(t)
    ensures UpdateOf(t) == WordsMean(WordsOf(t))
  {
    var r := Rtrim(t);
    WordsOfRtrim(t);
    var j := RtrimMeans(t);
    NoWords();
    UpdateByWords(r);
    TrimOfRtrim(t);
  }

  lemma TrimOfRtrim(t: string)
    ensures UpdateOf(Rtrim(t)) == UpdateOf(t)
  {
    var j := RtrimMeans(t);
    assert Rtrim(Rtrim(t)) == Rtrim(t);
  }

  // ---------------------------------------------------------------- all tokens

  function Updated(c: Config, u: Update): Option<Config> {
    match u
    case SetCentral(val, err) => Some(c.(centralVal := val, centralErr := err))
    case SetGrid(size) => Some(c.(gridSize := size))
    case SetRange(low, high) => Some(SetHigh(SetLow(c, low), high))
    case SetAt(val) => Some(c.(val := val, isDefined := true))
    case NoEffect => Some(c)
    case Failed => None
  }

  function DoUpdate(r: Option<Config>, u: Update): Option<Config> {
    if r.Some? then Updated(r.value, u) else None
  }

  function Do(r: Option<Config>, t: string): Option<Config> {
    DoUpdate(r, UpdateOf(t))
  }

  function ReadTokens(r: Option<Config>, ts: seq<string>): Option<Config>
    decreases |ts|
  {
    if ts == [] then r else ReadTokens(Do(r, ts[0]), ts[1..])
  }

  /** Bounds still at zero are computed from the sigmas, if any bound was given in sigmas. */
  function Resolved(c: Config): Config {
    if !c.inSigmas then c
    else c.(low := if c.low == 0.0 then c.centralVal - c.sigmasLow * c.centralErr else c.low,
            high := if c.high == 0.0 then c.centralVal + c.sigmasHigh * c.centralErr else c.high,
            isComputed := true)
  }

  /** None stands for an exception, or for a text without anything after an opening bracket. */
  function Read(s: string): Option<Config> {
    var parts := Split(s, '(');
    if |parts| < 2 then None
    else
      var r := ReadTokens(Some(Initial(Trim(parts[0]))), Split(parts[1], ':'));
      if r.Some? then Some(Resolved(r.value)) else None
  }

  // ---------------------------------------------------------------- settings of different names commute

  function Key(t: string): string
    requires CleanToken(t)
  {
    WordsOf(t)[0]
  }

  /** Which fields an update sets: 0 for none. */
  function Group(u: Update): nat {
    match u
    case SetCentral(_, _) => 1
    case SetGrid(_) => 2
    case SetRange(_, _) => 3
    case SetAt(_) => 4
    case NoEffect => 0
    case Failed => 0
  }

  function GroupOfName(name: string): nat {
    if name == "val" then 1 else if name == "grid" then 2 else if name == "range" then 3
    else if name == "at" then 4 else 0
  }

  lemma NameDecidesGroup(name: string, text: string, vals: seq<string>)
    ensures Group(MeaningOf(name, text, vals)) in {0, GroupOfName(name)}
  {
  }

  predicate Independent(a: Update, b: Update) {
    Group(a) != Group(b) || Group(a) == 0
  }

  lemma GroupOfToken(t: string)
    requires CleanToken(t)
    ensures Group(UpdateOf(t)) == 0 || Group(UpdateOf(t)) == GroupOfName(Key(t))
  {
    ClosingIsIgnored(t);
    var vals := Opened(WordsOf(t)[1..]);
    NameDecidesGroup(Key(t), FirstOf(vals), WithoutClosing(vals));
  }

  lemma DifferentKeysIndependent(a: string, b: string)
    requires CleanToken(a) && CleanToken(b) && Key(a) != Key(b)
    ensures Independent(UpdateOf(a), UpdateOf(b))
  {
    GroupOfToken(a);
    GroupOfToken(b);
    GroupsOfNames(Key(a), Key(b));
  }

  lemma GroupsOfNames(a: string, b: string)
    requires a != b
    ensures GroupOfName(a) != GroupOfName(b) || GroupOfName(a) == 0
  {
  }

  /** Settings of different fields may be done in either order, failures included. */
  lemma IndependentCommute(r: Option<Config>, a: Update, b: Update)
    requires Independent(a, b)
    ensures DoUpdate(DoUpdate(r, a), b) == DoUpdate(DoUpdate(r, b), a)
  {
    if r.Some? {
      if a.SetRange? {
        RangeCommutes(r.value, a, b);
      } else if b.SetRange? {
        RangeCommutes(r.value, b, a);
      } else {
        OthersCommute(r.value, a, b);
      }
    }
  }

  lemma RangeCommutes(c: Config, a: Update, b: Update)
    requires a.SetRange? && !b.SetRange?
    ensures DoUpdate(Updated(c, a), b) == DoUpdate(Updated(c, b), a)
  {
    LowCommutes(c, a.low, b);
    HighCommutes(SetLow(c, a.low), a.high, b);
  }

  lemma LowCommutes(c: Config, low: Bound, b: Update)
    requires !b.SetRange?
    ensures var u := Updated(c, b);
            Updated(SetLow(c, low), b) == if u.Some? then Some(SetLow(u.value, low)) else None
  {
    match b {
      case SetCentral(_, _) =>
      case SetGrid(_) =>
      case SetAt(_) =>
      case NoEffect =>
      case Failed =>
    }
  }

  lemma HighCommutes(c: Config, high: Bound, b: Update)
    requires !b.SetRange?
    ensures var u := Updated(c, b);
            Updated(SetHigh(c, high), b) == if u.Some? then Some(SetHigh(u.value, high)) else None
  {
    match b {
      case SetCentral(_, _) =>
      case SetGrid(_) =>
      case SetAt(_) =>
      case NoEffect =>
      case Failed =>
    }
  }

  lemma OthersCommute(c: Config, a: Update, b: Update)
    requires Independent(a, b) && !a.SetRange? && !b.SetRange?
    ensures DoUpdate(Updated(c, a), b) == DoUpdate(Updated(c, b), a)
  {
  }

  lemma {:induction false} MoveToFront(r: Option<Config>, before: seq<string>, t: string, after: seq<string>)
    requires forall b :: b in before ==> Independent(UpdateOf(b), UpdateOf(t))
    ensures ReadTokens(r, before + [t] + after) == ReadTokens(Do(r, t), before + after)
    decreases |before|
  {
    if before == [] {
      assert before + [t] + after == [t] + after && before + after == after;
    } else {
      var b := before[0];
      assert (before + [t] + after)[1..] == before[1..] + [t] + after;
      assert (before + after)[1..] == before[1..] + after;
      MoveToFront(Do(r, b), before[1..], t, after);
      IndependentCommute(r, UpdateOf(b), UpdateOf(t));
    }
  }

  /** Documented settings, each name at most once. */
  predicate CleanTokens(ts: seq<string>) {
    && (forall t :: t in ts ==> CleanToken(t))
    && forall i, j :: 0 <= i < j < |ts| ==> Key(ts[i]) != Key(ts[j])
  }

  lemma TailIsClean(ts: seq<string>)
    requires CleanTokens(ts) && ts != []
    ensures CleanTokens(ts[1..])
    ensures forall t :: t in ts[1..] ==> Key(t) != Key(ts[0])
  {
    assert forall i :: 0 <= i < |ts[1..]| ==> ts[1..][i] == ts[i + 1];
  }

  /** The order in which the tokens are read does not matter. */
  lemma {:induction false} AnyOrder(r: Option<Config>, ts: seq<string>, us: seq<string>)
    requires CleanTokens(ts) && multiset(ts) == multiset(us)
    ensures ReadTokens(r, ts) == ReadTokens(r, us)
    decreases |ts|
  {
    if ts == [] {
      assert |us| == |multiset(us)|;
    } else {
      var t, rest := ts[0], ts[1..];
      assert ts == [t] + rest;
      TailIsClean(ts);
      var before, after := Around(us, t);
      SameRest(t, rest, before, after);
      forall b | b in before
        ensures Independent(UpdateOf(b), UpdateOf(t))
      {
        assert b in multiset(before + after);
        assert b in rest;
        DifferentKeysIndependent(b, t);
      }
      MoveToFront(r, before, t, after);
      AnyOrder(Do(r, t), rest, before + after);
    }
  }

  lemma Around(us: seq<string>, t: string) returns (before: seq<string>, after: seq<string>)
    requires t in multiset(us)
    ensures us == before + [t] + after
  {
    var i :| 0 <= i < |us| && us[i] == t;
    before, after := us[..i], us[i + 1..];
  }

  lemma SameRest(t: string, rest: seq<string>, before: seq<string>, after: seq<string>)
    requires multiset([t] + rest) == multiset(before + [t] + after)
    ensures multiset(rest) == multiset(before + after)
  {
    assert multiset([t] + rest) == multiset{t} + multiset(rest);
    assert multiset(before + [t] + after) == multiset{t} + multiset(before + after);
    assert multiset(rest) == multiset([t] + rest) - multiset{t};
  }

  // ---------------------------------------------------------------- the whole text

  function Rendered(name: string, ts: seq<string>): string {
    name + "(" + Join(':', ts) + ")"
  }

  lemma {:induction false} JoinGlued(sep: char, ts: seq<string>, c: char)
    requires ts != []
    ensures Join(sep, Glued(ts, c)) == Join(sep, ts) + [c]
  {
    if |ts| > 1 {
      JoinGlued(sep, ts[1..], c);
      assert Glued(ts, c)[1..] == Glued(ts[1..], c);
      assert Glued(ts, c)[0] == ts[0];
    } else {
      assert Glued(ts, c) == [ts[0] + [c]];
    }
  }

  lemma {:induction false} JoinWithin(sep: char, ts: seq<string>, c: char)
    requires c != sep && forall t :: t in ts ==> c !in t
    ensures c !in Join(sep, ts)
  {
    if |ts| > 1 {
      JoinWithin(sep, ts[1..], c);
    }
  }

  lemma {:induction false} ReadTokensSnoc(r: Option<Config>, ts: seq<string>, t: string)
    ensures ReadTokens(r, ts + [t]) == Do(ReadTokens(r, ts), t)
    decreases |ts|
  {
    if ts == [] {
      assert ts + [t] == [t] && [t][1..] == [];
    } else {
      assert (ts + [t])[1..] == ts[1..] + [t];
      ReadTokensSnoc(Do(r, ts[0]), ts[1..], t);
    }
  }

  /** Reading tokens with the closing bracket behind the last. */
  lemma SameLastUpdate(r: Option<Config>, init: seq<string>, a: string, b: string)
    requires UpdateOf(a) == UpdateOf(b)
    ensures ReadTokens(r, init + [a]) == ReadTokens(r, init + [b])
  {
    ReadTokensSnoc(r, init, a);
    ReadTokensSnoc(r, init, b);
    SameUpdateSameResult(ReadTokens(r, init), a, b);
  }

  lemma SameUpdateSameResult(r: Option<Config>, a: string, b: string)
    requires UpdateOf(a) == UpdateOf(b)
    ensures Do(r, a) == Do(r, b)
  {
  }

  function Finished(r: Option<Config>): Option<Config> {
    if r.Some? then Some(Resolved(r.value)) else None
  }

  lemma SplitOfClosed(ts: seq<string>)
    requires ts != [] && forall t :: t in ts ==> ':' !in t
    ensures Split(Join(':', ts) + ")", ':') == Glued(ts, ')')
  {
    var glued := Glued(ts, ')');
    JoinGlued(':', ts, ')');
    forall i | 0 <= i < |glued|
      ensures ':' !in glued[i]
    {
      assert ts[i] in ts;
    }
    SplitOfJoin(':', glued);
  }

  lemma SplitOfRendered(name: string, params: string)
    requires '(' !in name && '(' !in params && params != ""
    ensures Split(name + "(" + params, '(') == [name, params]
  {
    SplitFirst(name, '(', params);
    SplitOfJoin('(', [params]);
  }

  lemma ReadParts(s: string, name: string, params: string, tokens: seq<string>)
    requires Split(s, '(') == [name, params] && Split(params, ':') == tokens
    ensures Read(s) == Finished(ReadTokens(Some(Initial(Trim(name))), tokens))
  {
  }

  lemma LastMayBeClosed(ts: seq<string>)
    requires ts != [] && forall t :: t in ts ==> CleanToken(t)
    ensures UpdateOf(ts[|ts| - 1]) == UpdateOf(ts[|ts| - 1] + ")")
  {
    ClosingIsIgnored(ts[|ts| - 1]);
  }

  /** Reading a text is reading its tokens, without the closing bracket. */
  lemma ReadRendered(name: string, ts: seq<string>)
    requires '(' !in name && ts != [] && forall t :: t in ts ==> CleanToken(t)
    ensures Read(Rendered(name, ts)) == Finished(ReadTokens(Some(Initial(Trim(name))), ts))
  {
    NoOtherSeparators(ts);
    PartsOfRendered(name, ts);
    SplitOfClosed(ts);
    LastMayBeClosed(ts);
    ReadParts(Rendered(name, ts), name, Join(':', ts) + ")", Glued(ts, ')'));
    ReadClosed(Some(Initial(Trim(name))), ts, ts[|ts| - 1] + ")");
  }

  lemma ReadClosed(r: Option<Config>, ts: seq<string>, closed: string)
    requires ts != [] && closed == ts[|ts| - 1] + [')'] && UpdateOf(ts[|ts| - 1]) == UpdateOf(closed)
    ensures ReadTokens(r, Glued(ts, ')')) == ReadTokens(r, ts)
  {
    LastApart(ts);
    SameLastUpdate(r, ts[..|ts| - 1], ts[|ts| - 1], closed);
  }

  lemma LastApart(ts: seq<string>)
    requires ts != []
    ensures ts == ts[..|ts| - 1] + [ts[|ts| - 1]]
  {
  }

  lemma NoOtherSeparators(ts: seq<string>)
    requires forall t :: t in ts ==> CleanToken(t)
    ensures forall t :: t in ts ==> '(' !in t && ':' !in t
  {
  }

  lemma PartsOfRendered(name: string, ts: seq<string>)
    requires '(' !in name && forall t :: t in ts ==> '(' !in t
    ensures Split(Rendered(name, ts), '(') == [name, Join(':', ts) + ")"]
  {
    var params := Join(':', ts) + ")";
    JoinWithin(':', ts, '(');
    assert Rendered(name, ts) == name + "(" + params;
    SplitOfRendered(name, params);
  }

  /** The order of the settings does not matter: any permutation gives the same configuration, or fails as well. The
      closing bracket stands behind whichever setting is last, with or without a space. */
  lemma OrderDoesNotMatter(name: string, ts: seq<string>, us: seq<string>)
    requires '(' !in name && ts != [] && CleanTokens(ts) && multiset(ts) == multiset(us)
    ensures Read(Rendered(name, ts)) == Read(Rendered(name, us))
  {
    assert |multiset(ts)| == |multiset(us)|;
    forall u | u in us
      ensures CleanToken(u)
    {
      assert u in multiset(ts);
    }
    assert us != [];
    ReadRendered(name, ts);
    ReadRendered(name, us);
    AnyOrder(Some(Initial(Trim(name))), ts, us);
  }

  // ---------------------------------------------------------------- what each setting does

  function LowEnd(low: Bound, high: Bound, val: real, err: real): real {
    match low
    case Real(x) => if high.Sigmas? && x == 0.0 then val - 2.0 * err else x
    case Sigmas(x) => val - Abs(x) * err
  }

  function HighEnd(low: Bound, high: Bound, val: real, err: real): real {
    match high
    case Real(x) => if low.Sigmas? && x == 0.0 then val + 2.0 * err else x
    case Sigmas(x) => val + Abs(x) * err
  }

  /** The configuration shows the setting. Sigmas are counted from the central value, wherever that was set; a bound
      of zero next to one in sigmas is taken for a missing one and becomes two sigmas. */
  ghost predicate Shows(c: Config, u: Update) {
    match u
    case SetCentral(val, err) => c.centralVal == val && c.centralErr == err
    case SetGrid(size) => c.gridSize == size
    case SetRange(low, high) =>
      && c.low == LowEnd(low, high, c.centralVal, c.centralErr)
      && c.high == HighEnd(low, high, c.centralVal, c.centralErr)
    case SetAt(val) => c.val == val && c.isDefined
    case NoEffect => true
    case Failed => false
  }

  /** No range was set yet. */
  predicate RangeUntouched(c: Config) {
    c.low == 0.0 && c.high == 0.0 && c.sigmasLow == 2.0 && c.sigmasHigh == 2.0 && !c.inSigmas
  }

  lemma {:induction false} OthersLeaveRange(r: Option<Config>, ts: seq<string>)
    requires r.Some? ==> RangeUntouched(r.value)
    requires forall t :: t in ts ==> !UpdateOf(t).SetRange?
    ensures var q := ReadTokens(r, ts); q.Some? ==> RangeUntouched(q.value)
    decreases |ts|
  {
    if ts != [] {
      OneLeavesRange(r, UpdateOf(ts[0]));
      OthersLeaveRange(Do(r, ts[0]), ts[1..]);
    }
  }

  lemma OneLeavesRange(r: Option<Config>, u: Update)
    requires (r.Some? ==> RangeUntouched(r.value)) && !u.SetRange?
    ensures var q := DoUpdate(r, u); q.Some? ==> RangeUntouched(q.value)
  {
  }

  lemma LastShows(r: Option<Config>, u: Update)
    requires r.Some? ==> (u.SetRange? ==> RangeUntouched(r.value))
    requires DoUpdate(r, u).Some?
    ensures Shows(Resolved(DoUpdate(r, u).value), u)
  {
  }

  /** Every setting takes effect, whatever its place in the text. */
  lemma EverySettingShows(name: string, ts: seq<string>, i: nat)
    requires '(' !in name && CleanTokens(ts) && i < |ts| && Read(Rendered(name, ts)).Some?
    ensures Shows(Read(Rendered(name, ts)).value, UpdateOf(ts[i]))
  {
    var t, others := ts[i], ts[..i] + ts[i + 1..];
    var r := Some(Initial(Trim(name)));
    ReadRendered(name, ts);
    MovedToEnd(r, ts, i);
    RangeComesOnce(r, ts, i);
    LastShows(ReadTokens(r, others), UpdateOf(t));
  }

  /** Any setting may be read last. */
  lemma MovedToEnd(r: Option<Config>, ts: seq<string>, i: nat)
    requires CleanTokens(ts) && i < |ts|
    ensures ReadTokens(r, ts) == DoUpdate(ReadTokens(r, ts[..i] + ts[i + 1..]), UpdateOf(ts[i]))
  {
    var t, before, after := ts[i], ts[..i], ts[i + 1..];
    assert ts == before + [t] + after;
    Moved(t, before, after);
    AnyOrder(r, ts, before + after + [t]);
    ReadTokensSnoc(r, before + after, t);
  }

  /** The settings but a range leave the range alone. */
  lemma RangeComesOnce(r: Option<Config>, ts: seq<string>, i: nat)
    requires CleanTokens(ts) && i < |ts| && (r.Some? ==> RangeUntouched(r.value))
    ensures var q := ReadTokens(r, ts[..i] + ts[i + 1..]);
            q.Some? && UpdateOf(ts[i]).SetRange? ==> RangeUntouched(q.value)
  {
    var t, others := ts[i], ts[..i] + ts[i + 1..];
    if UpdateOf(t).SetRange? {
      forall o | o in others
        ensures !UpdateOf(o).SetRange?
      {
        OthersHaveOtherKeys(ts, i, o);
        DifferentKeysIndependent(o, t);
      }
      OthersLeaveRange(r, others);
    }
  }

  lemma Moved(t: string, before: seq<string>, after: seq<string>)
    ensures multiset(before + [t] + after) == multiset(before + after + [t])
  {
    assert multiset(before + [t] + after) == multiset(before) + multiset{t} + multiset(after);
  }

  lemma OthersHaveOtherKeys(ts: seq<string>, i: nat, o: string)
    requires CleanTokens(ts) && i < |ts| && o in ts[..i] + ts[i + 1..]
    ensures o in ts && Key(o) != Key(ts[i])
  {
    if o in ts[..i] {
      var j :| 0 <= j < i && ts[j] == o;
    } else {
      var j :| 0 <= j < |ts[i + 1..]| && ts[i + 1..][j] == o;
      assert ts[i + 1 + j] == o;
    }
  }

  /** A bound written in real units is the bound of the result, unless it is 0 next to a bound in sigmas; then it is
      taken for missing and becomes two sigmas, which is the same only if that value happens to be 0. */
  lemma RealBoundsExactly(name: string, ts: seq<string>, i: nat)
    requires '(' !in name && CleanTokens(ts) && i < |ts| && UpdateOf(ts[i]).SetRange?
    requires Read(Rendered(name, ts)).Some?
    ensures var c, low, high := Read(Rendered(name, ts)).value, UpdateOf(ts[i]).low, UpdateOf(ts[i]).high;
            && (low.Real? ==>
                  (c.low == low.value <==>
                     !(low.value == 0.0 && high.Sigmas?) || c.centralVal - 2.0 * c.centralErr == 0.0))
            && (high.Real? ==>
                  (c.high == high.value <==>
                     !(high.value == 0.0 && low.Sigmas?) || c.centralVal + 2.0 * c.centralErr == 0.0))
  {
    EverySettingShows(name, ts, i);
  }

  /** Reading fails exactly when some setting fails by itself. */
  lemma FailsExactlyWithASetting(name: string, ts: seq<string>)
    requires '(' !in name && ts != [] && forall t :: t in ts ==> CleanToken(t)
    ensures Read(Rendered(name, ts)).None? <==> exists t :: t in ts && UpdateOf(t).Failed?
  {
    ReadRendered(name, ts);
    TokensFailExactly(Some(Initial(Trim(name))), ts);
  }

  lemma {:induction false} TokensFailExactly(r: Option<Config>, ts: seq<string>)
    ensures ReadTokens(r, ts).None? <==> r.None? || exists t :: t in ts && UpdateOf(t).Failed?
    decreases |ts|
  {
    if ts != [] {
      TokensFailExactly(Do(r, ts[0]), ts[1..]);
      OneFailsExactly(r, UpdateOf(ts[0]));
      assert ts == [ts[0]] + ts[1..];
    }
  }

  lemma OneFailsExactly(r: Option<Config>, u: Update)
    ensures DoUpdate(r, u).None? <==> r.None? || u.Failed?
  {
  }
}
