/** The configuration of a parameter of interest: its setters, reading it from text, and its scan range. */
module PoiConfig {
  import opened StringUtils
  import opened NumberText
  import opened PoiSettings
  import opened PoiOrder
  import GridScan

  /** A configuration after its range was read: computed at most once. */
  function Cached(c: Config): Config {
    if c.isComputed then c else Resolved(c)
  }

  /** Reading the range again changes nothing. */
  lemma CachedOnce(c: Config)
    ensures Cached(Cached(c)) == Cached(c)
  {
  }

  class PoiConfig {
    var name: string
    var val: real
    var centralVal: real
    var centralErr: real
    var gridSize: nat
    var low: real
    var high: real
    var sigmasLow: real
    var sigmasHigh: real
    var isDefined: bool
    var inSigmas: bool
    var isComputed: bool

    function View(): Config
      reads this
    {
      Config(name, val, centralVal, centralErr, gridSize, low, high, sigmasLow, sigmasHigh,
             isDefined, inSigmas, isComputed)
    }

    constructor (name: string)
      ensures View() == Initial(name)
    {
      this.name := name;
      val, centralVal, centralErr, gridSize := 0.0, 0.0, 0.0, 1;
      low, high, sigmasLow, sigmasHigh := 0.0, 0.0, 2.0, 2.0;
      isDefined, inSigmas, isComputed := false, false, false;
    }

    method ToTestAt(v: real)
      modifies this
      ensures View() == old(View()).(val := v, isDefined := true)
    {
      val, isDefined := v, true;
    }

    method WithCentral(v: real, err: real)
      modifies this
      ensures View() == old(View()).(centralVal := v, centralErr := err)
    {
      centralVal := v;
      centralErr := err;
    }

    method WithGridSize(size: nat)
      modifies this
      ensures View() == old(View()).(gridSize := size)
    {
      gridSize := size;
    }

    method WithRangeLow(x: real)
      modifies this
      ensures View() == SetLow(old(View()), Real(x))
    {
      low := x;
    }

    method WithRangeHigh(x: real)
      modifies this
      ensures View() == SetHigh(old(View()), Real(x))
    {
      high := x;
    }

    method WithRangeSigmasLow(x: real)
      modifies this
      ensures View() == SetLow(old(View()), Sigmas(x))
    {
      sigmasLow := Abs(x);
      inSigmas := true;
    }

    method WithRangeSigmasHigh(x: real)
      modifies this
      ensures View() == SetHigh(old(View()), Sigmas(x))
    {
      sigmasHigh := Abs(x);
      inSigmas := true;
    }

    method ComputeRangeFromSigmasIfNeeded()
      modifies this
      ensures View() == Resolved(old(View()))
    {
      if !inSigmas {
        return;
      }
      if low == 0.0 {
        low := centralVal - sigmasLow * centralErr;
      }
      if high == 0.0 {
        high := centralVal + sigmasHigh * centralErr;
      }
      isComputed := true;
    }

    method ScanRangeLow() returns (r: real)
      modifies this
      ensures View() == Cached(old(View())) && r == View().low
    {
      if !isComputed {
        ComputeRangeFromSigmasIfNeeded();
      }
      r := low;
    }

    method ScanRangeHigh() returns (r: real)
      modifies this
      ensures View() == Cached(old(View())) && r == View().high
    {
      if !isComputed {
        ComputeRangeFromSigmasIfNeeded();
      }
      r := high;
    }

    /** The point a worker tests, unless the text already gave one. */
    method IdentifyScanPoint(workerId: nat)
      requires !isDefined ==> gridSize != 1
      modifies this
      ensures var c := Cached(old(View()));
              View() ==
                if old(isDefined) then old(View())
                else c.(val := GridScan.GetPointAtGridEquidistant(c.low, c.high, c.gridSize, workerId), isDefined := true)
    {
      if isDefined {
        return;
      }
      CachedOnce(View());
      var from := ScanRangeLow();
      var to := ScanRangeHigh();
      ToTestAt(GridScan.GetPointAtGridEquidistant(from, to, gridSize, workerId));
    }

    // -------------------------------------------------------------- reading from text

    method DoVal(vals: seq<string>) returns (ok: bool)
      modifies this
      ensures Done(old(View()), ValMeans(vals), ok, View())
    {
      ok := |vals| != 1;
      if |vals| == 2 {
        var v, err := Stod(vals[0]), Stod(vals[1]);
        assert ValMeans(vals) == if v.Some? && err.Some? then SetCentral(v.value, err.value) else Failed;
        if v.None? || err.None? {
          return false;
        }
        WithCentral(v.value, err.value);
      }
    }

    method DoGrid(vals: seq<string>) returns (ok: bool)
      modifies this
      ensures Done(old(View()), GridMeans(vals), ok, View())
    {
      ok := |vals| != 2;
      if |vals| == 1 {
        var n := Stoi(vals[0]);
        if n.None? {
          return false;
        }
        WithGridSize(ToSize(n.value));
      }
    }

    method DoLow(text: string) returns (ok: bool)
      modifies this
      ensures ok <==> BoundOf(text).Some?
      ensures ok ==> View() == SetLow(old(View()), BoundOf(text).value)
    {
      var x;
      if EndsWith(text, 's') {
        x := Stod(RemoveSuffix(text, 's'));
        if x.Some? {
          WithRangeSigmasLow(x.value);
        }
      } else {
        x := Stod(text);
        if x.Some? {
          WithRangeLow(x.value);
        }
      }
      ok := x.Some?;
    }

    method DoHigh(text: string) returns (ok: bool)
      modifies this
      ensures ok <==> BoundOf(text).Some?
      ensures ok ==> View() == SetHigh(old(View()), BoundOf(text).value)
    {
      var x;
      if EndsWith(text, 's') {
        x := Stod(RemoveSuffix(text, 's'));
        if x.Some? {
          WithRangeSigmasHigh(x.value);
        }
      } else {
        x := Stod(text);
        if x.Some? {
          WithRangeHigh(x.value);
        }
      }
      ok := x.Some?;
    }

    method DoRange(vals: seq<string>) returns (ok: bool)
      modifies this
      ensures Done(old(View()), RangeMeans(vals), ok, View())
    {
      if |vals| == 0 {
        return false;
      }
      var first, second := vals[0], "";
      if |vals| == 2 {
        second := RemoveSuffix(vals[1], ')');
      } else {
        first := TrimText(first);
        first := RemoveSuffix(first, ')');
        second := first;
      }
      ok := DoBounds(first, second);
    }

    method DoBounds(first: string, second: string) returns (ok: bool)
      modifies this
      ensures Done(old(View()), RangeOf(BoundOf(first), BoundOf(second)), ok, View())
    {
      ok := DoLow(first);
      if ok {
        ok := DoHigh(second);
      }
    }

    /** One token: its name up to the first space, its values, and the setting it makes. */
    method ReadToken(token: string) returns (ok: bool)
      modifies this
      ensures Done(old(View()), UpdateOf(token), ok, View())
    {
      var t := TrimText(token);
      var cut := Find(t, ' ');
      var tokenName := TrimText(t[..cut]);
      var tokenVals := TrimText(t[cut..]);
      if StartsWith(tokenVals, '[') {
        tokenVals := RemovePrefix(tokenVals, '[');
        tokenVals := RemoveSuffix(tokenVals, '[');
      }
      var valsAll := SplitText(tokenVals, ' ');
      var vals := KeepValues(valsAll);
      ok := DoNamed(tokenName, tokenVals, vals);
    }

    method DoNamed(tokenName: string, tokenVals: string, vals: seq<string>) returns (ok: bool)
      modifies this
      ensures Done(old(View()), MeaningOf(tokenName, tokenVals, vals), ok, View())
    {
      ok := true;
      if tokenName == "val" {
        ok := DoVal(vals);
      } else if tokenName == "grid" {
        ok := DoGrid(vals);
      } else if tokenName == "range" {
        ok := DoRange(vals);
      } else if tokenName == "at" {
        var x := Stod(tokenVals);
        ok := x.Some?;
        if ok {
          ToTestAt(x.value);
        }
      }
    }
  }

  /** An update was done, or has failed. */
  ghost predicate Done(before: Config, u: Update, ok: bool, after: Config) {
    var r := Updated(before, u);
    (ok <==> r.Some?) && (ok ==> after == r.value)
  }

  /** Leaves out empty values and a closing bracket that stands alone. */
  method KeepValues(valsAll: seq<string>) returns (vals: seq<string>)
    ensures vals == Kept(valsAll)
  {
    vals := [];
    for i := 0 to |valsAll|
      invariant Kept(valsAll) == vals + Kept(valsAll[i..])
    {
      assert valsAll[i..][1..] == valsAll[i + 1..];
      if valsAll[i] != "" && valsAll[i] != " " && valsAll[i] != ")" {
        vals := vals + [valsAll[i]];
      }
    }
  }

  lemma {:induction false} FailureStays(ts: seq<string>)
    ensures ReadTokens(None, ts) == None
    decreases |ts|
  {
    if ts != [] {
      FailureStays(ts[1..]);
    }
  }

  method ReadFromString(s: string) returns (res: PoiConfig, ok: bool)
    ensures fresh(res)
    ensures ok <==> Read(s).Some?
    ensures ok ==> res.View() == Read(s).value
  {
    var nameParams := SplitText(s, '(');
    if |nameParams| < 2 {
      res := new PoiConfig("");
      return res, false;
    }
    var name := TrimText(nameParams[0]);
    var tokens := SplitText(nameParams[1], ':');
    res := new PoiConfig(name);
    ok := ReadAll(res, tokens);
    if ok {
      res.ComputeRangeFromSigmasIfNeeded();
    }
  }

  method ReadAll(res: PoiConfig, tokens: seq<string>) returns (ok: bool)
    modifies res
    ensures ok <==> ReadTokens(Some(old(res.View())), tokens).Some?
    ensures ok ==> Some(res.View()) == ReadTokens(Some(old(res.View())), tokens)
  {
    ghost var all := ReadTokens(Some(res.View()), tokens);
    for i := 0 to |tokens|
      invariant all == ReadTokens(Some(res.View()), tokens[i..])
    {
      assert tokens[i..][1..] == tokens[i + 1..];
      ghost var before := res.View();
      ok := res.ReadToken(tokens[i]);
      assert Do(Some(before), tokens[i]) == Updated(before, UpdateOf(tokens[i]));
      if !ok {
        FailureStays(tokens[i + 1..]);
        return false;
      }
    }
    ok := true;
  }
}
