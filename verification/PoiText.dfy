/** What a text says is what the configuration holds: every documented setting, by the fields it sets. */
module PoiText {
  import opened Decimal
  import opened StringUtils
  import opened NumberText
  import opened Words
  import opened PoiSettings
  import opened PoiOrder
  import opened PoiBrackets

  // ---------------------------------------------------------------- written values

  lemma NumeralChars(n: Numeral)
    requires AllDigits(n.fraction)
    ensures var s := TextOf(n);
            && s != "" && IsDigit(s[|s| - 1])
            && forall i :: 0 <= i < |s| ==> IsDigit(s[i]) || s[i] == '-' || s[i] == '.'
  {
    assert IsDigit(ToDecimal(n.whole)[|ToDecimal(n.whole)| - 1]);
  }

  /** A number is a word, and no bound in sigmas. */
  lemma NumeralIsWord(n: Numeral)
    requires AllDigits(n.fraction)
    ensures var s := TextOf(n);
            CleanWord(s) && '[' !in s && NoSeparators(s) && !EndsWith(s, 's') && Stod(s) == Some(RealOf(n))
  {
    NumeralChars(n);
    StodReadsNumeral(n);
  }

  /** A number with an 's' is a word, and a bound in sigmas. */
  lemma SigmasAreWord(n: Numeral)
    requires AllDigits(n.fraction)
    ensures var s := TextOf(n) + "s";
            CleanWord(s) && '[' !in s && NoSeparators(s) && EndsWith(s, 's') && NumberOf(s) == Some(RealOf(n))
  {
    NumeralIsWord(n);
    WithSigma(TextOf(n));
  }

  lemma WithSigma(x: string)
    requires CleanWord(x) && '[' !in x && NoSeparators(x)
    ensures var s := x + "s";
            CleanWord(s) && '[' !in s && NoSeparators(s) && EndsWith(s, 's') && NumberOf(s) == Stod(x)
  {
    assert RemoveSuffix(x + "s", 's') == x;
  }

  lemma IntegerIsWord(k: int)
    ensures var s := IntToDecimal(k); CleanWord(s) && '[' !in s && NoSeparators(s)
  {
    assert forall i :: 0 <= i < |IntToDecimal(k)| ==> IsDigit(IntToDecimal(k)[i]) || IntToDecimal(k)[i] == '-';
  }

  /** A setting of one value. */
  lemma OneValue(name: string, x: string)
    requires CleanWord(name) && NoSeparators(name) && CleanWord(x) && '[' !in x && NoSeparators(x)
    ensures CleanToken(name + " " + x) && Key(name + " " + x) == name
    ensures UpdateOf(name + " " + x) == MeaningOf(name, x, [x])
  {
    WordIsValues(x);
    PlainIsClean(name, x);
    PlainUpdate(name, x);
  }

  lemma WordIsValues(x: string)
    requires CleanWord(x) && '[' !in x
    ensures ValuesText(x) && WordsOf(x) == [x]
  {
    assert ' ' !in x;
    OneWord(x);
  }

  lemma SettingName(name: string)
    requires name == "val" || name == "grid" || name == "range" || name == "at"
    ensures CleanWord(name) && NoSeparators(name)
  {
  }

  // ---------------------------------------------------------------- what each setting means

  lemma AtSays(t: string, at: string, n: Numeral)
    requires at == "at" && AllDigits(n.fraction) && t == at + " " + TextOf(n)
    ensures CleanToken(t) && Key(t) == at && UpdateOf(t) == SetAt(RealOf(n))
  {
    SettingName(at);
    NumeralIsWord(n);
    OneValue(at, TextOf(n));
  }

  lemma GridSays(t: string, grid: string, k: int)
    requires grid == "grid" && t == grid + " " + IntToDecimal(k)
    ensures CleanToken(t) && Key(t) == grid
    ensures UpdateOf(t) ==
              if -INT_MAX - 1 <= k <= INT_MAX then SetGrid(if k >= 0 then k else k + MODULUS_64) else Failed
  {
    SettingName(grid);
    IntegerIsWord(k);
    OneValue(grid, IntToDecimal(k));
    StoiReadsInteger(k);
  }

  lemma ValSays(t: string, val: string, v: Numeral, e: Numeral)
    requires val == "val" && AllDigits(v.fraction) && AllDigits(e.fraction)
    requires t == val + " " + (TextOf(v) + " " + TextOf(e))
    ensures CleanToken(t) && Key(t) == val && UpdateOf(t) == SetCentral(RealOf(v), RealOf(e))
  {
    SettingName(val);
    NumeralIsWord(v);
    NumeralIsWord(e);
    TwoPlain(val, TextOf(v), TextOf(e));
    TwoPlainClean(val, TextOf(v), TextOf(e));
  }

  /** A bound as it is written. */
  function BoundText(n: Numeral, sigmas: bool): string {
    if sigmas then TextOf(n) + "s" else TextOf(n)
  }

  function BoundMeant(n: Numeral, sigmas: bool): Bound
    requires AllDigits(n.fraction)
  {
    if sigmas then Sigmas(RealOf(n)) else Real(RealOf(n))
  }

  lemma BoundIsWord(n: Numeral, sigmas: bool)
    requires AllDigits(n.fraction)
    ensures var s := BoundText(n, sigmas);
            CleanWord(s) && '[' !in s && NoSeparators(s) && BoundOf(s) == Some(BoundMeant(n, sigmas))
  {
    if sigmas {
      SigmasAreWord(n);
    } else {
      NumeralIsWord(n);
    }
  }

  lemma RangeSays(t: string, range: string, a: Numeral, aSigmas: bool, b: Numeral, bSigmas: bool)
    requires range == "range" && AllDigits(a.fraction) && AllDigits(b.fraction)
    requires t == range + " " + (BoundText(a, aSigmas) + " " + BoundText(b, bSigmas))
    ensures CleanToken(t) && Key(t) == range
    ensures UpdateOf(t) == SetRange(BoundMeant(a, aSigmas), BoundMeant(b, bSigmas))
  {
    SettingName(range);
    BoundIsWord(a, aSigmas);
    BoundIsWord(b, bSigmas);
    TwoPlain(range, BoundText(a, aSigmas), BoundText(b, bSigmas));
    TwoPlainClean(range, BoundText(a, aSigmas), BoundText(b, bSigmas));
    RangeOfBounds(BoundText(a, aSigmas), BoundText(b, bSigmas));
  }

  lemma RangeOfBounds(x: string, y: string)
    requires CleanWord(y)
    ensures RangeMeans([x, y]) == RangeOf(BoundOf(x), BoundOf(y))
  {
    ValueBeforeBracket(y);
  }

  lemma RangeOneSays(t: string, range: string, a: Numeral, sigmas: bool)
    requires range == "range" && AllDigits(a.fraction) && t == range + " " + BoundText(a, sigmas)
    ensures CleanToken(t) && Key(t) == range
    ensures UpdateOf(t) == SetRange(BoundMeant(a, sigmas), BoundMeant(a, sigmas))
  {
    SettingName(range);
    BoundIsWord(a, sigmas);
    OneValue(range, BoundText(a, sigmas));
    RangeOfBound(BoundText(a, sigmas));
  }

  lemma RangeOfBound(x: string)
    requires CleanWord(x)
    ensures RangeMeans([x]) == RangeOf(BoundOf(x), BoundOf(x))
  {
    ValueBeforeBracket(x);
  }

  // ---------------------------------------------------------------- what the configuration holds

  /** "at n", among other settings in any order: the point to test is known, and it is n. */
  lemma AtIsRead(name: string, ts: seq<string>, i: nat, at: string, n: Numeral)
    requires '(' !in name && CleanTokens(ts) && i < |ts| && Read(Rendered(name, ts)).Some?
    requires at == "at" && AllDigits(n.fraction) && ts[i] == at + " " + TextOf(n)
    ensures var c := Read(Rendered(name, ts)).value; c.isDefined && c.val == RealOf(n)
  {
    AtSays(ts[i], at, n);
    EverySettingShows(name, ts, i);
  }

  /** "grid k": the size of the grid is k; a negative one wraps around. */
  lemma GridIsRead(name: string, ts: seq<string>, i: nat, grid: string, k: int)
    requires '(' !in name && CleanTokens(ts) && i < |ts| && Read(Rendered(name, ts)).Some?
    requires grid == "grid" && ts[i] == grid + " " + IntToDecimal(k)
    ensures -INT_MAX - 1 <= k <= INT_MAX
    ensures Read(Rendered(name, ts)).value.gridSize == if k >= 0 then k else k + MODULUS_64
  {
    GridSays(ts[i], grid, k);
    EverySettingShows(name, ts, i);
  }

  /** "val v e": the central value is v, its error e. */
  lemma ValIsRead(name: string, ts: seq<string>, i: nat, val: string, v: Numeral, e: Numeral)
    requires '(' !in name && CleanTokens(ts) && i < |ts| && Read(Rendered(name, ts)).Some?
    requires val == "val" && AllDigits(v.fraction) && AllDigits(e.fraction)
    requires ts[i] == val + " " + (TextOf(v) + " " + TextOf(e))
    ensures var c := Read(Rendered(name, ts)).value; c.centralVal == RealOf(v) && c.centralErr == RealOf(e)
  {
    ValSays(ts[i], val, v, e);
    EverySettingShows(name, ts, i);
  }

  /** "range a b": the bounds are a and b. */
  lemma RangeIsRead(name: string, ts: seq<string>, i: nat, range: string, a: Numeral, b: Numeral)
    requires '(' !in name && CleanTokens(ts) && i < |ts| && Read(Rendered(name, ts)).Some?
    requires range == "range" && AllDigits(a.fraction) && AllDigits(b.fraction)
    requires ts[i] == range + " " + (BoundText(a, false) + " " + BoundText(b, false))
    ensures var c := Read(Rendered(name, ts)).value; c.low == RealOf(a) && c.high == RealOf(b)
  {
    RangeSays(ts[i], range, a, false, b, false);
    EverySettingShows(name, ts, i);
    BoundsShow(Read(Rendered(name, ts)).value, RealOf(a), RealOf(b));
  }

  /** The ends of a range of that many errors below and above the central value. */
  predicate InErrors(c: Config, below: real, above: real) {
    && c.low == c.centralVal - below * c.centralErr
    && c.high == c.centralVal + above * c.centralErr
  }

  lemma BoundsShow(c: Config, a: real, b: real)
    requires Shows(c, SetRange(Real(a), Real(b)))
    ensures c.low == a && c.high == b
  {
  }

  lemma SigmasShow(c: Config, a: real, b: real)
    requires Shows(c, SetRange(Sigmas(a), Sigmas(b)))
    ensures InErrors(c, Abs(a), Abs(b))
  {
  }

  /** "range as bs": the bounds are that many errors below and above the central value, which may be set before or
      after. */
  lemma SigmaRangeIsRead(name: string, ts: seq<string>, i: nat, range: string, a: Numeral, b: Numeral)
    requires '(' !in name && CleanTokens(ts) && i < |ts| && Read(Rendered(name, ts)).Some?
    requires range == "range" && AllDigits(a.fraction) && AllDigits(b.fraction)
    requires ts[i] == range + " " + (BoundText(a, true) + " " + BoundText(b, true))
    ensures InErrors(Read(Rendered(name, ts)).value, Abs(RealOf(a)), Abs(RealOf(b)))
  {
    RangeSays(ts[i], range, a, true, b, true);
    EverySettingShows(name, ts, i);
    SigmasShow(Read(Rendered(name, ts)).value, RealOf(a), RealOf(b));
  }

  /** "range a" is a range of one point ... */
  lemma OneBoundIsRead(name: string, ts: seq<string>, i: nat, range: string, a: Numeral)
    requires '(' !in name && CleanTokens(ts) && i < |ts| && Read(Rendered(name, ts)).Some?
    requires range == "range" && AllDigits(a.fraction) && ts[i] == range + " " + BoundText(a, false)
    ensures var c := Read(Rendered(name, ts)).value; c.low == c.high == RealOf(a)
  {
    RangeOneSays(ts[i], range, a, false);
    EverySettingShows(name, ts, i);
    BoundsShow(Read(Rendered(name, ts)).value, RealOf(a), RealOf(a));
  }

  /** ... and "range as" a symmetric one around the central value. */
  lemma OneSigmaBoundIsRead(name: string, ts: seq<string>, i: nat, range: string, a: Numeral)
    requires '(' !in name && CleanTokens(ts) && i < |ts| && Read(Rendered(name, ts)).Some?
    requires range == "range" && AllDigits(a.fraction) && ts[i] == range + " " + BoundText(a, true)
    ensures InErrors(Read(Rendered(name, ts)).value, Abs(RealOf(a)), Abs(RealOf(a)))
  {
    RangeOneSays(ts[i], range, a, true);
    EverySettingShows(name, ts, i);
    SigmasShow(Read(Rendered(name, ts)).value, RealOf(a), RealOf(a));
  }

  // ---------------------------------------------------------------- what is not set

  /** Equal in the fields of a group of settings. */
  predicate Agree(c: Config, d: Config, group: nat) {
    && c.name == d.name
    && (group == 1 ==> c.centralVal == d.centralVal && c.centralErr == d.centralErr)
    && (group == 2 ==> c.gridSize == d.gridSize)
    && (group == 4 ==> c.val == d.val && c.isDefined == d.isDefined)
  }

  lemma OneLeavesOthers(c: Config, u: Update, group: nat)
    requires Group(u) != group && Updated(c, u).Some?
    ensures Agree(Updated(c, u).value, c, group)
  {
  }

  lemma {:induction false} OthersLeave(c: Config, ts: seq<string>, group: nat)
    requires forall t :: t in ts ==> Group(UpdateOf(t)) != group
    requires ReadTokens(Some(c), ts).Some?
    ensures Agree(ReadTokens(Some(c), ts).value, c, group)
    decreases |ts|
  {
    if ts != [] {
      var u := UpdateOf(ts[0]);
      if Updated(c, u).None? {
        StaysFailed(ts[1..]);
      } else {
        OneLeavesOthers(c, u, group);
        OthersLeave(Updated(c, u).value, ts[1..], group);
      }
    }
  }

  lemma {:induction false} StaysFailed(ts: seq<string>)
    ensures ReadTokens(None, ts).None?
    decreases |ts|
  {
    if ts != [] {
      StaysFailed(ts[1..]);
    }
  }

  lemma UnsetGroup(name: string, ts: seq<string>, group: nat)
    requires '(' !in name && ts != [] && (forall t :: t in ts ==> CleanToken(t)) && Read(Rendered(name, ts)).Some?
    requires group != 3 && forall t :: t in ts ==> Group(UpdateOf(t)) != group
    ensures Agree(Read(Rendered(name, ts)).value, Initial(Trim(name)), group)
  {
    ReadRendered(name, ts);
    OthersLeave(Initial(Trim(name)), ts, group);
  }

  /** The name is always the trimmed text before the parenthesis. */
  lemma NameIsRead(name: string, ts: seq<string>)
    requires '(' !in name && ts != [] && (forall t :: t in ts ==> CleanToken(t)) && Read(Rendered(name, ts)).Some?
    ensures Read(Rendered(name, ts)).value.name == Trim(name)
  {
    UnsetGroup(name, ts, 9);
  }

  /** A setting that is not written leaves its defaults: central value 0 ± 0 ... */
  lemma UnsetValIsDefault(name: string, ts: seq<string>)
    requires '(' !in name && ts != [] && (forall t :: t in ts ==> CleanToken(t)) && Read(Rendered(name, ts)).Some?
    requires forall t :: t in ts ==> Key(t) != "val"
    ensures var c := Read(Rendered(name, ts)).value; c.centralVal == 0.0 && c.centralErr == 0.0
  {
    NoKeyNoGroup(ts, "val");
    UnsetGroup(name, ts, 1);
  }

  /** ... one grid point ... */
  lemma UnsetGridIsDefault(name: string, ts: seq<string>)
    requires '(' !in name && ts != [] && (forall t :: t in ts ==> CleanToken(t)) && Read(Rendered(name, ts)).Some?
    requires forall t :: t in ts ==> Key(t) != "grid"
    ensures Read(Rendered(name, ts)).value.gridSize == 1
  {
    NoKeyNoGroup(ts, "grid");
    UnsetGroup(name, ts, 2);
  }

  /** ... no point to test ... */
  lemma UnsetAtIsDefault(name: string, ts: seq<string>)
    requires '(' !in name && ts != [] && (forall t :: t in ts ==> CleanToken(t)) && Read(Rendered(name, ts)).Some?
    requires forall t :: t in ts ==> Key(t) != "at"
    ensures var c := Read(Rendered(name, ts)).value; c.val == 0.0 && !c.isDefined
  {
    NoKeyNoGroup(ts, "at");
    UnsetGroup(name, ts, 4);
  }

  /** ... and no range. */
  lemma UnsetRangeIsDefault(name: string, ts: seq<string>)
    requires '(' !in name && ts != [] && (forall t :: t in ts ==> CleanToken(t)) && Read(Rendered(name, ts)).Some?
    requires forall t :: t in ts ==> Key(t) != "range"
    ensures var c := Read(Rendered(name, ts)).value; c.low == 0.0 && c.high == 0.0 && !c.inSigmas
  {
    NoKeyNoGroup(ts, "range");
    ReadRendered(name, ts);
    NoRange(Some(Initial(Trim(name))), ts);
  }

  lemma NoRange(r: Option<Config>, ts: seq<string>)
    requires r.Some? && RangeUntouched(r.value) && forall t :: t in ts ==> Group(UpdateOf(t)) != 3
    ensures var q := Finished(ReadTokens(r, ts));
            q.Some? ==> q.value.low == 0.0 && q.value.high == 0.0 && !q.value.inSigmas
  {
    OthersLeaveRange(r, ts);
  }

  lemma NoKeyNoGroup(ts: seq<string>, key: string)
    requires forall t :: t in ts ==> CleanToken(t)
    requires GroupOfName(key) != 0 && forall t :: t in ts ==> Key(t) != key
    ensures forall t :: t in ts ==> Group(UpdateOf(t)) != GroupOfName(key)
  {
    forall t | t in ts
      ensures Group(UpdateOf(t)) != GroupOfName(key)
    {
      GroupOfToken(t);
      GroupsOfNames(Key(t), key);
    }
  }

  // ---------------------------------------------------------------- the full form

  lemma ReadFour(r: Option<Config>, a: string, b: string, c: string, d: string)
    ensures ReadTokens(r, [a, b, c, d]) == Do(Do(Do(Do(r, a), b), c), d)
  {
    assert [a, b, c, d] == [a, b, c] + [d] && [a, b, c] == [a, b] + [c] && [a, b] == [a] + [b] && [a] == [] + [a];
    ReadTokensSnoc(r, [a, b, c], d);
    ReadTokensSnoc(r, [a, b], c);
    ReadTokensSnoc(r, [a], b);
    ReadTokensSnoc(r, [], a);
  }

  lemma DoneFour(c: Config, v: real, e: real, k: nat, low: Bound, high: Bound, x: real)
    ensures var r := DoUpdate(DoUpdate(DoUpdate(DoUpdate(Some(c), SetCentral(v, e)), SetGrid(k)), SetRange(low, high)),
                              SetAt(x));
            r == Some(SetHigh(SetLow(c.(centralVal := v, centralErr := e, gridSize := k), low), high)
                      .(val := x, isDefined := true))
  {
    match low {
      case Real(_) =>
      case Sigmas(_) =>
    }
    match high {
      case Real(_) =>
      case Sigmas(_) =>
    }
  }

  /** All four settings, in any order. */
  lemma FourSettings(
      name: string, us: seq<string>, val: string, grid: string, range: string, at: string,
      v: real, e: real, k: nat, low: Bound, high: Bound, x: real)
    requires '(' !in name && multiset(us) == multiset([val, grid, range, at])
    requires CleanToken(val) && CleanToken(grid) && CleanToken(range) && CleanToken(at)
    requires Key(val) == "val" && Key(grid) == "grid" && Key(range) == "range" && Key(at) == "at"
    requires UpdateOf(val) == SetCentral(v, e) && UpdateOf(grid) == SetGrid(k)
    requires UpdateOf(range) == SetRange(low, high) && UpdateOf(at) == SetAt(x)
    ensures Read(Rendered(name, us)) ==
              Some(Resolved(SetHigh(SetLow(Initial(Trim(name)).(centralVal := v, centralErr := e, gridSize := k), low), high)
                            .(val := x, isDefined := true)))
  {
    var ts := [val, grid, range, at];
    DifferentNames(val, grid, range, at);
    OrderDoesNotMatter(name, ts, us);
    ReadRendered(name, ts);
    ReadFour(Some(Initial(Trim(name))), val, grid, range, at);
    DoneFour(Initial(Trim(name)), v, e, k, low, high, x);
  }

  lemma DifferentNames(val: string, grid: string, range: string, at: string)
    requires CleanToken(val) && CleanToken(grid) && CleanToken(range) && CleanToken(at)
    requires Key(val) == "val" && Key(grid) == "grid" && Key(range) == "range" && Key(at) == "at"
    ensures CleanTokens([val, grid, range, at])
  {
    FourDistinct([val, grid, range, at]);
  }

  lemma FourDistinct(ts: seq<string>)
    requires |ts| == 4 && CleanToken(ts[0]) && CleanToken(ts[1]) && CleanToken(ts[2]) && CleanToken(ts[3])
    requires Key(ts[0]) != Key(ts[1]) && Key(ts[0]) != Key(ts[2]) && Key(ts[0]) != Key(ts[3])
    requires Key(ts[1]) != Key(ts[2]) && Key(ts[1]) != Key(ts[3]) && Key(ts[2]) != Key(ts[3])
    ensures CleanTokens(ts)
  {
    forall t | t in ts
      ensures CleanToken(t)
    {
      var i :| 0 <= i < 4 && ts[i] == t;
      assert i == 0 || i == 1 || i == 2 || i == 3;
    }
    forall i, j | 0 <= i < j < |ts|
      ensures Key(ts[i]) != Key(ts[j])
    {
      assert i == 0 || i == 1 || i == 2;
      assert j == 1 || j == 2 || j == 3;
    }
  }

  /** The whole configuration of a text with all four settings, in any order, with a range in real units ... */
  lemma FullTextIsRead(
      name: string, us: seq<string>, val: string, grid: string, range: string, at: string,
      v: Numeral, e: Numeral, k: nat, a: Numeral, b: Numeral, x: Numeral)
    requires '(' !in name && k <= INT_MAX
    requires AllDigits(v.fraction) && AllDigits(e.fraction) && AllDigits(x.fraction)
    requires AllDigits(a.fraction) && AllDigits(b.fraction)
    requires val == "val" + " " + (TextOf(v) + " " + TextOf(e))
    requires grid == "grid" + " " + IntToDecimal(k)
    requires range == "range" + " " + (BoundText(a, false) + " " + BoundText(b, false))
    requires at == "at" + " " + TextOf(x)
    requires multiset(us) == multiset([val, grid, range, at])
    ensures Read(Rendered(name, us)) ==
              Some(Config(Trim(name), RealOf(x), RealOf(v), RealOf(e), k, RealOf(a), RealOf(b), 2.0, 2.0,
                          true, false, false))
  {
    ValSays(val, "val", v, e);
    GridSays(grid, "grid", k);
    RangeSays(range, "range", a, false, b, false);
    AtSays(at, "at", x);
    FourSettings(name, us, val, grid, range, at, RealOf(v), RealOf(e), k, BoundMeant(a, false), BoundMeant(b, false),
                 RealOf(x));
  }

  /** ... and with one in sigmas. */
  lemma FullSigmaTextIsRead(
      name: string, us: seq<string>, val: string, grid: string, range: string, at: string,
      v: Numeral, e: Numeral, k: nat, a: Numeral, b: Numeral, x: Numeral)
    requires '(' !in name && k <= INT_MAX
    requires AllDigits(v.fraction) && AllDigits(e.fraction) && AllDigits(x.fraction)
    requires AllDigits(a.fraction) && AllDigits(b.fraction)
    requires val == "val" + " " + (TextOf(v) + " " + TextOf(e))
    requires grid == "grid" + " " + IntToDecimal(k)
    requires range == "range" + " " + (BoundText(a, true) + " " + BoundText(b, true))
    requires at == "at" + " " + TextOf(x)
    requires multiset(us) == multiset([val, grid, range, at])
    ensures Read(Rendered(name, us)).Some?
    ensures var c := Read(Rendered(name, us)).value;
            && c == Config(Trim(name), RealOf(x), RealOf(v), RealOf(e), k, c.low, c.high,
                           Abs(RealOf(a)), Abs(RealOf(b)), true, true, true)
            && InErrors(c, Abs(RealOf(a)), Abs(RealOf(b)))
  {
    ValSays(val, "val", v, e);
    GridSays(grid, "grid", k);
    RangeSays(range, "range", a, true, b, true);
    AtSays(at, "at", x);
    FourSettings(name, us, val, grid, range, at, RealOf(v), RealOf(e), k, BoundMeant(a, true), BoundMeant(b, true),
                 RealOf(x));
    ResolvedSigmas(Trim(name), RealOf(v), RealOf(e), k, RealOf(a), RealOf(b), RealOf(x));
  }

  lemma ResolvedSigmas(name: string, v: real, e: real, k: nat, a: real, b: real, x: real)
    ensures var c := Resolved(SetHigh(SetLow(Initial(name).(centralVal := v, centralErr := e, gridSize := k), Sigmas(a)),
                                      Sigmas(b)).(val := x, isDefined := true));
            && c == Config(name, x, v, e, k, c.low, c.high, Abs(a), Abs(b), true, true, true)
            && InErrors(c, Abs(a), Abs(b))
  {
  }

  // ---------------------------------------------------------------- what can be read

  /** A setting in one of the written forms. */
  ghost predicate Written(t: string) {
    || (exists n :: IsAt(t, n))
    || (exists k :: IsGrid(t, k))
    || (exists v, e :: IsVal(t, v, e))
    || (exists a, aSigmas, b, bSigmas :: IsRange(t, a, aSigmas, b, bSigmas))
    || (exists a, sigmas :: IsOneRange(t, a, sigmas))
  }

  predicate IsAt(t: string, n: Numeral) {
    AllDigits(n.fraction) && t == "at" + " " + TextOf(n)
  }

  predicate IsGrid(t: string, k: int) {
    0 <= k <= INT_MAX && t == "grid" + " " + IntToDecimal(k)
  }

  predicate IsVal(t: string, v: Numeral, e: Numeral) {
    AllDigits(v.fraction) && AllDigits(e.fraction) && t == "val" + " " + (TextOf(v) + " " + TextOf(e))
  }

  predicate IsRange(t: string, a: Numeral, aSigmas: bool, b: Numeral, bSigmas: bool) {
    && AllDigits(a.fraction) && AllDigits(b.fraction)
    && t == "range" + " " + (BoundText(a, aSigmas) + " " + BoundText(b, bSigmas))
  }

  predicate IsOneRange(t: string, a: Numeral, sigmas: bool) {
    AllDigits(a.fraction) && t == "range" + " " + BoundText(a, sigmas)
  }

  lemma WrittenDoesNotFail(t: string)
    requires Written(t)
    ensures CleanToken(t) && !UpdateOf(t).Failed?
  {
    if n :| IsAt(t, n) {
      AtSays(t, "at", n);
    } else if k :| IsGrid(t, k) {
      GridSays(t, "grid", k);
    } else if v, e :| IsVal(t, v, e) {
      ValSays(t, "val", v, e);
    } else if a, aSigmas, b, bSigmas :| IsRange(t, a, aSigmas, b, bSigmas) {
      RangeSays(t, "range", a, aSigmas, b, bSigmas);
    } else {
      var a, sigmas :| IsOneRange(t, a, sigmas);
      RangeOneSays(t, "range", a, sigmas);
    }
  }

  /** A text of written settings can be read, whatever settings there are and in whatever order. */
  lemma WrittenTextIsRead(name: string, ts: seq<string>)
    requires '(' !in name && ts != [] && forall t :: t in ts ==> Written(t)
    ensures Read(Rendered(name, ts)).Some?
  {
    forall t | t in ts
      ensures CleanToken(t) && !UpdateOf(t).Failed?
    {
      WrittenDoesNotFail(t);
    }
    FailsExactlyWithASetting(name, ts);
  }
}
