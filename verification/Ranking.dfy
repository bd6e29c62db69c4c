/** Fits of one nuisance parameter as functions of the workspace, and why their history does not matter. */
module RankingFits {

  datatype Var = Var(val: real, err: real, isConst: bool)

  type Vars = map<string, Var>

  datatype Errors = DefaultErrors | Hesse | MinosNps | MinosPois | MinosAll | UserDefined

  /** The minimiser, abstracted to a function of the error mode and the variables. */
  type Minimiser = (Errors, Vars) -> Vars

  /** It changes only variables that are not constant, and leaves the constness of all of them. */
  ghost predicate GoodMinimiser(m: Minimiser) {
    forall e: Errors, vs: Vars ::
      && m(e, vs).Keys == vs.Keys
      && forall n :: n in vs ==>
           m(e, vs)[n].isConst == vs[n].isConst && (vs[n].isConst ==> m(e, vs)[n] == vs[n])
  }

  datatype StudyRes = StudyRes(poiName: string, npName: string, poiVal: real, poiErr: real, nll: real)

  /** What a manager is set up with. */
  datatype Setup = Setup(
    np: string, poi: string, pois: seq<string>, fitAllPois: bool,
    npVal: real, npErr: real, poiVal: real, poiErr: real)

  /** The five fits that start from a reset. Any sign but '+' and '-' leaves the parameter where the reset put it. */
  datatype Kind = FixedNp | PreFit(sign: char) | PostFit(sign: char)

  // ---------------------------------------------------------------- the steps

  function SnapshotOf(vs: Vars, args: set<string>): Vars
    requires args <= vs.Keys
  {
    map n | n in args :: vs[n]
  }

  function LoadSnapshot(vs: Vars, snapshot: Vars): Vars {
    map n | n in vs :: if n in snapshot then snapshot[n] else vs[n]
  }

  function ResetNp(vs: Vars, su: Setup): Vars
    requires su.np in vs
  {
    vs[su.np := Var(su.npVal, su.npErr, true)]
  }

  /** What resetting the POIs makes of one variable. */
  function PoiReset(n: string, v: Var, su: Setup): Var {
    if n == su.poi then
      if su.fitAllPois && su.poi !in su.pois then Var(su.poiVal, su.poiErr, v.isConst)
      else Var(su.poiVal, su.poiErr, false)
    else if n !in su.pois then v
    else if su.fitAllPois then Var(su.poiVal, su.poiErr, false)
    else Var(su.poiVal, su.poiErr, true)
  }

  function ResetPoi(vs: Vars, su: Setup): Vars
    requires su.poi in vs
  {
    map n | n in vs :: PoiReset(n, vs[n], su)
  }

  function Vary(vs: Vars, su: Setup, kind: Kind): Vars
    requires su.np in vs
  {
    match kind
    case FixedNp => vs
    case PreFit(s) =>
      if s == '+' then vs[su.np := vs[su.np].(val := su.npVal + 1.0)]
      else if s == '-' then vs[su.np := vs[su.np].(val := su.npVal - 1.0)] else vs
    case PostFit(s) =>
      if s == '+' then vs[su.np := vs[su.np].(val := su.npVal + su.npErr)]
      else if s == '-' then vs[su.np := vs[su.np].(val := su.npVal - su.npErr)] else vs
  }

  function Reset(vs: Vars, snapshot: Vars, su: Setup): Vars
    requires su.np in vs && su.poi in vs
  {
    ResetPoi(ResetNp(LoadSnapshot(vs, snapshot), su), su)
  }

  /** The variables when the minimiser starts. */
  function Prepared(vs: Vars, snapshot: Vars, su: Setup, kind: Kind): (r: Vars)
    requires su.np in vs && su.poi in vs
    ensures r.Keys == vs.Keys
  {
    Vary(Reset(vs, snapshot, su), su, kind)
  }

  function Result(vs: Vars, su: Setup): StudyRes
    requires su.poi in vs
  {
    StudyRes(su.poi, su.np, vs[su.poi].val, vs[su.poi].err, 0.0)
  }

  function Key(kind: Kind): string {
    match kind
    case FixedNp => "fixed_np_fit"
    case PreFit(s) => "prefit_" + [s]
    case PostFit(s) => "postfit_" + [s]
  }

  // ---------------------------------------------------------------- independence of history

  /** Everything a reset sets. */
  predicate Governed(n: string, snapshot: Vars, su: Setup) {
    n in snapshot || n in su.pois || n == su.np || n == su.poi
  }

  /** Every variable that may float is governed by the reset; the ranked parameter is not a POI. */
  ghost predicate WellPosed(vs: Vars, snapshot: Vars, su: Setup) {
    && su.np in vs && su.poi in vs
    && su.np != su.poi && su.np !in su.pois && su.poi in su.pois
    && forall n :: n in vs && !Governed(n, snapshot, su) ==> vs[n].isConst
  }

  /** Two workspaces that agree on what no reset governs. */
  ghost predicate SameFrame(a: Vars, b: Vars, snapshot: Vars, su: Setup) {
    a.Keys == b.Keys && forall n :: n in a && !Governed(n, snapshot, su) ==> a[n] == b[n]
  }

  /** The reset forgets everything else. */
  lemma PreparedForgets(a: Vars, b: Vars, snapshot: Vars, su: Setup, kind: Kind)
    requires WellPosed(a, snapshot, su) && SameFrame(a, b, snapshot, su)
    ensures su.np in b && su.poi in b && Prepared(a, snapshot, su, kind) == Prepared(b, snapshot, su, kind)
  {
    forall n | n in a
      ensures Reset(a, snapshot, su)[n] == Reset(b, snapshot, su)[n]
    {
      ResetForgets(a, b, snapshot, su, n);
    }
    assert Reset(a, snapshot, su) == Reset(b, snapshot, su);
  }

  lemma ResetForgets(a: Vars, b: Vars, snapshot: Vars, su: Setup, n: string)
    requires WellPosed(a, snapshot, su) && SameFrame(a, b, snapshot, su) && n in a
    ensures Reset(a, snapshot, su)[n] == Reset(b, snapshot, su)[n]
  {
    assert !Governed(n, snapshot, su) ==> a[n] == b[n];
  }

  lemma FitKeepsFrame(vs: Vars, snapshot: Vars, su: Setup, kind: Kind, m: Minimiser, e: Errors)
    requires WellPosed(vs, snapshot, su) && GoodMinimiser(m)
    ensures var after := m(e, Prepared(vs, snapshot, su, kind));
            WellPosed(after, snapshot, su) && SameFrame(vs, after, snapshot, su)
  {
    var p := Prepared(vs, snapshot, su, kind);
    var after := m(e, p);
    assert after.Keys == p.Keys;
    forall n | n in vs && !Governed(n, snapshot, su)
      ensures after[n] == vs[n] && after[n].isConst
    {
      assert p[n] == vs[n];
    }
  }

  /** The ranked parameter is still constant, at the value found, found ± 1 or found ± error, when the result is
      saved. */
  lemma RankedParameterIsFixed(vs: Vars, snapshot: Vars, su: Setup, kind: Kind, m: Minimiser, e: Errors)
    requires WellPosed(vs, snapshot, su) && GoodMinimiser(m)
    ensures var after := m(e, Prepared(vs, snapshot, su, kind));
            su.np in after &&
            after[su.np] == Var(
              match kind
              case FixedNp => su.npVal
              case PreFit(s) => if s == '+' then su.npVal + 1.0 else if s == '-' then su.npVal - 1.0 else su.npVal
              case PostFit(s) =>
                if s == '+' then su.npVal + su.npErr else if s == '-' then su.npVal - su.npErr else su.npVal,
              su.npErr, true)
  {
    var p := Prepared(vs, snapshot, su, kind);
    assert m(e, p).Keys == p.Keys;
    assert p[su.np].isConst;
  }

  /** What floats when the minimiser starts: the studied POI, or all of them, and every other snapshotted variable that
      floated in the snapshot; never the ranked parameter. All POIs start from the same value and error. */
  lemma WhatFloats(vs: Vars, snapshot: Vars, su: Setup, kind: Kind, n: string)
    requires WellPosed(vs, snapshot, su) && n in vs
    ensures var v := Prepared(vs, snapshot, su, kind)[n];
            && (v.isConst <==>
                  (n == su.np
                   || (n in su.pois && !su.fitAllPois && n != su.poi)
                   || (n !in su.pois && (n in snapshot ==> snapshot[n].isConst))))
            && (n in su.pois ==> v.val == su.poiVal && v.err == su.poiErr)
            && (n !in su.pois && n != su.np ==> v == if n in snapshot then snapshot[n] else vs[n])
  {
    assert !Governed(n, snapshot, su) ==> vs[n].isConst;
  }

  // ---------------------------------------------------------------- runs of fits

  datatype Fit = Fit(errors: Errors, kind: Kind)

  function After(vs: Vars, snapshot: Vars, su: Setup, m: Minimiser, f: Fit): Vars
    requires su.np in vs && su.poi in vs
  {
    m(f.errors, Prepared(vs, snapshot, su, f.kind))
  }

  /** The saved result of a fit started from vs. */
  ghost function Saved(vs: Vars, snapshot: Vars, su: Setup, m: Minimiser, f: Fit): StudyRes
    requires WellPosed(vs, snapshot, su) && GoodMinimiser(m)
  {
    FitKeepsFrame(vs, snapshot, su, f.kind, m, f.errors);
    Result(After(vs, snapshot, su, m, f), su)
  }

  /** The results map after a series of fits. */
  ghost function ResultsOf(
      vs: Vars, snapshot: Vars, su: Setup, m: Minimiser, fits: seq<Fit>, results: map<string, StudyRes>)
    : map<string, StudyRes>
    requires WellPosed(vs, snapshot, su) && GoodMinimiser(m)
    decreases |fits|
  {
    if fits == [] then results
    else
      FitKeepsFrame(vs, snapshot, su, fits[0].kind, m, fits[0].errors);
      ResultsOf(After(vs, snapshot, su, m, fits[0]), snapshot, su, m, fits[1..],
                results[Key(fits[0].kind) := Saved(vs, snapshot, su, m, fits[0])])
  }

  /** A saved result does not depend on what was fitted before. */
  lemma SavedForgets(a: Vars, b: Vars, snapshot: Vars, su: Setup, m: Minimiser, f: Fit)
    requires WellPosed(a, snapshot, su) && WellPosed(b, snapshot, su) && SameFrame(a, b, snapshot, su)
    requires GoodMinimiser(m)
    ensures Saved(a, snapshot, su, m, f) == Saved(b, snapshot, su, m, f)
  {
    PreparedForgets(a, b, snapshot, su, f.kind);
  }

  lemma KeyInjective(a: Kind, b: Kind)
    requires Key(a) == Key(b)
    ensures a == b
  {
    assert Key(a)[0] == Key(b)[0] && Key(a)[1] == Key(b)[1];
    if a.PreFit? {
      assert Key(a)[7] == Key(b)[7];
    } else if a.PostFit? {
      assert Key(a)[8] == Key(b)[8];
    }
  }

  predicate DistinctKinds(fits: seq<Fit>) {
    forall i, j :: 0 <= i < j < |fits| ==> fits[i].kind != fits[j].kind
  }

  /** A key no fit of the series writes is left alone. */
  lemma {:induction false} OtherResultsStay(
      vs: Vars, snapshot: Vars, su: Setup, m: Minimiser, fits: seq<Fit>, results: map<string, StudyRes>, k: string)
    requires WellPosed(vs, snapshot, su) && GoodMinimiser(m)
    requires forall f :: f in fits ==> Key(f.kind) != k
    ensures var r := ResultsOf(vs, snapshot, su, m, fits, results);
            (k in r <==> k in results) && (k in r ==> r[k] == results[k])
    decreases |fits|
  {
    if fits != [] {
      var f := fits[0];
      assert f in fits;
      FitKeepsFrame(vs, snapshot, su, f.kind, m, f.errors);
      OtherResultsStay(After(vs, snapshot, su, m, f), snapshot, su, m, fits[1..],
                       results[Key(f.kind) := Saved(vs, snapshot, su, m, f)], k);
    }
  }

  /** After any series of different fits, each result is the one its fit would give alone on the first workspace. */
  lemma {:induction false} ResultsAreHistoryIndependent(
      base: Vars, vs: Vars, snapshot: Vars, su: Setup, m: Minimiser, fits: seq<Fit>,
      results: map<string, StudyRes>, f: Fit)
    requires WellPosed(base, snapshot, su) && WellPosed(vs, snapshot, su) && SameFrame(base, vs, snapshot, su)
    requires GoodMinimiser(m) && DistinctKinds(fits) && f in fits
    ensures var r := ResultsOf(vs, snapshot, su, m, fits, results);
            Key(f.kind) in r && r[Key(f.kind)] == Saved(base, snapshot, su, m, f)
    decreases |fits|
  {
    var first, rest := fits[0], fits[1..];
    FitKeepsFrame(vs, snapshot, su, first.kind, m, first.errors);
    var next := After(vs, snapshot, su, m, first);
    var results' := results[Key(first.kind) := Saved(vs, snapshot, su, m, first)];
    if f == first {
      SavedForgets(base, vs, snapshot, su, m, f);
      forall g | g in rest
        ensures Key(g.kind) != Key(f.kind)
      {
        var i :| 0 <= i < |rest| && rest[i] == g;
        assert fits[i + 1] == g;
        if Key(g.kind) == Key(f.kind) {
          KeyInjective(g.kind, f.kind);
        }
      }
      OtherResultsStay(next, snapshot, su, m, rest, results', Key(f.kind));
    } else {
      RestIsDistinct(fits);
      ResultsAreHistoryIndependent(base, next, snapshot, su, m, rest, results', f);
    }
  }

  lemma RestIsDistinct(fits: seq<Fit>)
    requires fits != [] && DistinctKinds(fits)
    ensures DistinctKinds(fits[1..])
  {
    forall i, j | 0 <= i < j < |fits[1..]|
      ensures fits[1..][i].kind != fits[1..][j].kind
    {
      assert fits[1..][i] == fits[i + 1] && fits[1..][j] == fits[j + 1];
    }
  }

  /** The reset fits may run in any order: same results for every permutation. */
  lemma FitsMayRunInAnyOrder(
      vs: Vars, snapshot: Vars, su: Setup, m: Minimiser, a: seq<Fit>, b: seq<Fit>, results: map<string, StudyRes>)
    requires WellPosed(vs, snapshot, su) && GoodMinimiser(m)
    requires DistinctKinds(a) && DistinctKinds(b) && multiset(a) == multiset(b)
    ensures ResultsOf(vs, snapshot, su, m, a, results) == ResultsOf(vs, snapshot, su, m, b, results)
  {
    var r, q := ResultsOf(vs, snapshot, su, m, a, results), ResultsOf(vs, snapshot, su, m, b, results);
    SameMembers(a, b);
    forall k: string
      ensures (k in r <==> k in q) && (k in r ==> r[k] == q[k])
    {
      SameResultUnderKey(vs, snapshot, su, m, a, b, results, k);
    }
    SameMaps(r, q);
  }

  lemma SameMaps<V>(r: map<string, V>, q: map<string, V>)
    requires forall k: string :: (k in r <==> k in q) && (k in r ==> r[k] == q[k])
    ensures r == q
  {
    assert r.Keys == q.Keys;
  }

  lemma SameMembers(a: seq<Fit>, b: seq<Fit>)
    requires multiset(a) == multiset(b)
    ensures forall f :: f in a <==> f in b
  {
    forall f: Fit
      ensures f in a <==> f in b
    {
      assert f in a <==> f in multiset(a);
      assert f in b <==> f in multiset(b);
    }
  }

  lemma SameResultUnderKey(
      vs: Vars, snapshot: Vars, su: Setup, m: Minimiser, a: seq<Fit>, b: seq<Fit>, results: map<string, StudyRes>,
      k: string)
    requires WellPosed(vs, snapshot, su) && GoodMinimiser(m)
    requires DistinctKinds(a) && DistinctKinds(b) && forall f :: f in a <==> f in b
    ensures var r, q := ResultsOf(vs, snapshot, su, m, a, results), ResultsOf(vs, snapshot, su, m, b, results);
            (k in r <==> k in q) && (k in r ==> r[k] == q[k])
  {
    if f :| f in a && Key(f.kind) == k {
      ResultsAreHistoryIndependent(vs, vs, snapshot, su, m, a, results, f);
      ResultsAreHistoryIndependent(vs, vs, snapshot, su, m, b, results, f);
    } else {
      OtherResultsStay(vs, snapshot, su, m, a, results, k);
      OtherResultsStay(vs, snapshot, su, m, b, results, k);
    }
  }
}

/** The workspace, the manager of one nuisance parameter, and the worker that runs its six fits. */
module Ranking {
  import opened RankingFits

  /** A missing variable makes the workspace throw. */
  datatype Outcome = Pass | Missing(name: string)

  const SNAPSHOT: string := "tmp_nps"

  class Workspace {
    var vars: Vars
    var snapshots: map<string, Vars>

    constructor (vars: Vars)
      ensures this.vars == vars && snapshots == map[]
    {
      this.vars := vars;
      snapshots := map[];
    }

    method SetVarVal(name: string, val: real) returns (r: Outcome)
      modifies this`vars
      ensures r.Pass? <==> name in old(vars)
      ensures vars == if r.Pass? then old(vars)[name := old(vars)[name].(val := val)] else old(vars)
    {
      if name !in vars {
        return Missing(name);
      }
      vars := vars[name := vars[name].(val := val)];
      return Pass;
    }

    method SetVarErr(name: string, err: real) returns (r: Outcome)
      modifies this`vars
      ensures r.Pass? <==> name in old(vars)
      ensures vars == if r.Pass? then old(vars)[name := old(vars)[name].(err := err)] else old(vars)
    {
      if name !in vars {
        return Missing(name);
      }
      vars := vars[name := vars[name].(err := err)];
      return Pass;
    }

    method SetConst(name: string, isConst: bool) returns (r: Outcome)
      modifies this`vars
      ensures r.Pass? <==> name in old(vars)
      ensures vars == if r.Pass? then old(vars)[name := old(vars)[name].(isConst := isConst)] else old(vars)
    {
      if name !in vars {
        return Missing(name);
      }
      vars := vars[name := vars[name].(isConst := isConst)];
      return Pass;
    }

    /** Saves the value, error and constness of the given variables. */
    method SaveSnapshot(name: string, args: set<string>)
      requires args <= vars.Keys
      modifies this`snapshots
      ensures snapshots == old(snapshots)[name := SnapshotOf(vars, args)]
    {
      snapshots := snapshots[name := map n | n in args :: vars[n]];
    }

    /** Restores a snapshot; an unknown name changes nothing. */
    method LoadSnapshot(name: string)
      modifies this`vars
      ensures vars == if name in snapshots then RankingFits.LoadSnapshot(old(vars), snapshots[name]) else old(vars)
    {
      if name in snapshots {
        vars := map n | n in vars :: if n in snapshots[name] then snapshots[name][n] else vars[n];
      }
    }
  }

  class OneNpManager {
    const ws: Workspace
    const np: string
    const poi: string
    const pois: seq<string>
    const fitAllPois: bool
    const minimiser: Minimiser
    var npFoundVal: real
    var npFoundErr: real
    var poiInitVal: real
    var poiInitErr: real
    var errors: Errors
    var results: map<string, StudyRes>

    ghost function Su(): Setup
      reads this
    {
      Setup(np, poi, pois, fitAllPois, npFoundVal, npFoundErr, poiInitVal, poiInitErr)
    }

    /** The POI objects belong to the workspace, and the snapshot to load has been saved. */
    ghost predicate Valid()
      reads this, ws
    {
      && GoodMinimiser(minimiser)
      && (forall p :: p in pois ==> p in ws.vars)
      && SNAPSHOT in ws.snapshots
    }

    constructor (ws: Workspace, np: string, poi: string, pois: seq<string>, fitAllPois: bool, errors: Errors,
                 minimiser: Minimiser)
      ensures this.ws == ws && this.np == np && this.poi == poi && this.pois == pois && this.fitAllPois == fitAllPois
      ensures this.errors == errors && this.minimiser == minimiser && results == map[]
      ensures npFoundVal == 0.0 && npFoundErr == 0.0 && poiInitVal == 1.0 && poiInitErr == 0.0
    {
      this.ws, this.np, this.poi, this.pois, this.fitAllPois := ws, np, poi, pois, fitAllPois;
      this.errors, this.minimiser, results := errors, minimiser, map[];
      npFoundVal, npFoundErr, poiInitVal, poiInitErr := 0.0, 0.0, 1.0, 0.0;
    }

    method ResetNp() returns (r: Outcome)
      requires Valid()
      modifies ws`vars
      ensures Valid() && (r.Pass? <==> np in old(ws.vars)) && ws.vars.Keys == old(ws.vars.Keys)
      ensures r.Pass? ==> ws.vars == RankingFits.ResetNp(old(ws.vars), Su())
    {
      r := ws.SetVarVal(np, npFoundVal);
      if r.Missing? {
        return;
      }
      r := ws.SetVarErr(np, npFoundErr);
      r := ws.SetConst(np, true);
    }

    method FixPois()
      requires Valid()
      modifies ws`vars
      ensures Valid() && ws.vars.Keys == old(ws.vars.Keys)
      ensures forall n :: n in ws.vars && n in pois ==> ws.vars[n] == Var(poiInitVal, poiInitErr, true)
      ensures forall n :: n in ws.vars && n !in pois ==> ws.vars[n] == old(ws.vars)[n]
    {
      ghost var was := ws.vars;
      for i := 0 to |pois|
        invariant ws.vars.Keys == was.Keys
        invariant forall n :: n in was && n in pois[..i] ==> ws.vars[n] == Var(poiInitVal, poiInitErr, true)
        invariant forall n :: n in was && n !in pois[..i] ==> ws.vars[n] == was[n]
      {
        ws.vars := ws.vars[pois[i] := Var(poiInitVal, poiInitErr, true)];
        assert pois[..i + 1] == pois[..i] + [pois[i]];
      }
      assert pois[..|pois|] == pois;
    }

    method FloatPois()
      requires Valid()
      modifies ws`vars
      ensures Valid() && ws.vars.Keys == old(ws.vars.Keys)
      ensures forall n :: n in ws.vars && n in pois ==> ws.vars[n] == old(ws.vars)[n].(isConst := false)
      ensures forall n :: n in ws.vars && n !in pois ==> ws.vars[n] == old(ws.vars)[n]
    {
      ghost var was := ws.vars;
      for i := 0 to |pois|
        invariant ws.vars.Keys == was.Keys
        invariant forall n :: n in was && n in pois[..i] ==> ws.vars[n] == was[n].(isConst := false)
        invariant forall n :: n in was && n !in pois[..i] ==> ws.vars[n] == was[n]
      {
        ws.vars := ws.vars[pois[i] := ws.vars[pois[i]].(isConst := false)];
        assert pois[..i + 1] == pois[..i] + [pois[i]];
      }
      assert pois[..|pois|] == pois;
    }

    /** All POIs to their initial value; floating are either all of them or the one studied. */
    method ResetPoi() returns (r: Outcome)
      requires Valid()
      modifies ws`vars
      ensures Valid() && (r.Pass? <==> poi in old(ws.vars)) && ws.vars.Keys == old(ws.vars.Keys)
      ensures r.Pass? ==> ws.vars == RankingFits.ResetPoi(old(ws.vars), Su())
    {
      FixPois();
      if fitAllPois {
        FloatPois();
      } else {
        r := ws.SetConst(poi, false);
        if r.Missing? {
          return;
        }
      }
      r := ws.SetVarVal(poi, poiInitVal);
      if r.Missing? {
        return;
      }
      r := ws.SetVarErr(poi, poiInitErr);
    }

    method ResetToInitState() returns (r: Outcome)
      requires Valid()
      modifies ws`vars
      ensures Valid() && (r.Pass? <==> np in old(ws.vars) && poi in old(ws.vars)) && ws.vars.Keys == old(ws.vars.Keys)
      ensures r.Pass? ==> ws.vars == Reset(old(ws.vars), ws.snapshots[SNAPSHOT], Su())
    {
      ws.LoadSnapshot(SNAPSHOT);
      r := ResetNp();
      if r.Missing? {
        return;
      }
      r := ResetPoi();
    }

    /** Moves the parameter for the given fit; it is present, since a reset came before. */
    method VaryNp(kind: Kind)
      requires Valid() && np in ws.vars
      modifies ws`vars
      ensures Valid() && ws.vars == Vary(old(ws.vars), Su(), kind)
    {
      var r := Pass;
      match kind
      case FixedNp =>
      case PreFit(sign) =>
        if sign == '+' {
          r := ws.SetVarVal(np, npFoundVal + 1.0);
        } else if sign == '-' {
          r := ws.SetVarVal(np, npFoundVal - 1.0);
        }
      case PostFit(sign) =>
        if sign == '+' {
          r := ws.SetVarVal(np, npFoundVal + npFoundErr);
        } else if sign == '-' {
          r := ws.SetVarVal(np, npFoundVal - npFoundErr);
        }
    }

    method RunFit()
      requires Valid()
      modifies ws`vars
      ensures Valid() && ws.vars == minimiser(errors, old(ws.vars)) && ws.vars.Keys == old(ws.vars.Keys)
    {
      ws.vars := minimiser(errors, ws.vars);
    }

    method SaveResAs(key: string)
      requires poi in ws.vars
      modifies this`results
      ensures results == old(results)[key := Result(ws.vars, Su())]
      ensures results[key].poiName == poi && results[key].npName == np
      ensures results[key].poiVal == ws.vars[poi].val && results[key].poiErr == ws.vars[poi].err
    {
      results := results[key := StudyRes(poi, np, ws.vars[poi].val, ws.vars[poi].err, 0.0)];
    }

    /** RunPreFit, RunPostFit and RunFitFixingNpAtCentralValue: reset, vary, fit, save. */
    method RunResetFit(kind: Kind) returns (r: Outcome)
      requires Valid()
      modifies ws`vars, this`results
      ensures Valid() && ws.vars.Keys == old(ws.vars.Keys)
      ensures r.Pass? <==> np in old(ws.vars) && poi in old(ws.vars)
      ensures r.Pass? ==>
                && ws.vars == After(old(ws.vars), ws.snapshots[SNAPSHOT], Su(), minimiser, Fit(errors, kind))
                && results == old(results)[Key(kind) := Result(ws.vars, Su())]
    {
      r := ResetToInitState();
      if r.Missing? {
        return;
      }
      VaryNp(kind);
      RunFit();
      SaveResAs(Key(kind));
      return Pass;
    }

    /** The free fit resets only the POIs, since nothing is known about the parameter yet. */
    method RunFreeFit() returns (r: Outcome)
      requires Valid()
      modifies ws`vars, this`results
      ensures Valid() && ws.vars.Keys == old(ws.vars.Keys) && (r.Pass? <==> poi in old(ws.vars))
      ensures r.Pass? ==>
                && ws.vars == minimiser(errors, RankingFits.ResetPoi(old(ws.vars), Su()))
                && results == old(results)["free_fit" := Result(ws.vars, Su())]
    {
      r := ResetPoi();
      if r.Missing? {
        return;
      }
      RunFit();
      SaveResAs("free_fit");
      return Pass;
    }
  }

  /** The ranking record of one worker. */
  datatype RankingRes = RankingRes(
    npVal: real, npErr: real, free: StudyRes, fixedNp: StudyRes,
    plusOne: StudyRes, minusOne: StudyRes, plusSigma: StudyRes, minusSigma: StudyRes)

  /** Variables after the free fit of a worker. */
  function FreeVars(vs: Vars, su: Setup, m: Minimiser, errors: Errors): Vars
    requires su.poi in vs
  {
    m(errors, RankingFits.ResetPoi(vs, su))
  }

  lemma FreeFitKeepsFrame(vs: Vars, snapshot: Vars, su: Setup, m: Minimiser, e: Errors)
    requires WellPosed(vs, snapshot, su) && GoodMinimiser(m)
    ensures var after := FreeVars(vs, su, m, e);
            WellPosed(after, snapshot, su) && SameFrame(vs, after, snapshot, su)
  {
    var p := RankingFits.ResetPoi(vs, su);
    assert m(e, p).Keys == p.Keys == vs.Keys;
    forall n | n in vs && !Governed(n, snapshot, su)
      ensures m(e, p)[n] == vs[n] && m(e, p)[n].isConst
    {
      assert p[n] == vs[n];
    }
  }

  /** Both workspaces are well posed and agree outside the reset. */
  ghost predicate Framed(base: Vars, vs: Vars, snapshot: Vars, su: Setup) {
    WellPosed(base, snapshot, su) && WellPosed(vs, snapshot, su) && SameFrame(base, vs, snapshot, su)
  }

  /** What the manager is set up with, as the snapshot to load and the values to reset to. */
  ghost predicate SetUp(manager: OneNpManager, snapshot: Vars, su: Setup)
    reads manager, manager.ws
  {
    manager.Valid() && manager.ws.snapshots[SNAPSHOT] == snapshot && manager.Su() == su
  }

  /** A reset fit saves what it would have saved on the first workspace. */
  method RunNext(manager: OneNpManager, kind: Kind, ghost base: Vars, ghost snapshot: Vars, ghost su: Setup)
    requires SetUp(manager, snapshot, su) && Framed(base, manager.ws.vars, snapshot, su)
    modifies manager.ws`vars, manager`results
    ensures SetUp(manager, snapshot, su) && Framed(base, manager.ws.vars, snapshot, su)
    ensures manager.results ==
              WithSaved(old(manager.results), base, snapshot, su, manager.minimiser, Fit(manager.errors, kind))
  {
    StepOfRun(base, manager.ws.vars, snapshot, su, manager.minimiser, Fit(manager.errors, kind));
    var _ := manager.RunResetFit(kind);
  }

  /** The results with the record of one more fit, as made on the first workspace. */
  ghost function WithSaved(
      results: map<string, StudyRes>, base: Vars, snapshot: Vars, su: Setup, m: Minimiser, f: Fit): map<string, StudyRes>
    requires WellPosed(base, snapshot, su) && GoodMinimiser(m)
  {
    results[Key(f.kind) := Saved(base, snapshot, su, m, f)]
  }

  /** The results with the records of the five fits, each as made on the first workspace. */
  ghost function AllSaved(
      base: Vars, snapshot: Vars, su: Setup, m: Minimiser, errors: Errors, results: map<string, StudyRes>)
    : map<string, StudyRes>
    requires WellPosed(base, snapshot, su) && GoodMinimiser(m)
  {
    var r1 := WithSaved(results, base, snapshot, su, m, Fit(errors, FixedNp));
    var r2 := WithSaved(r1, base, snapshot, su, m, Fit(DefaultErrors, PreFit('+')));
    var r3 := WithSaved(r2, base, snapshot, su, m, Fit(DefaultErrors, PreFit('-')));
    var r4 := WithSaved(r3, base, snapshot, su, m, Fit(DefaultErrors, PostFit('+')));
    WithSaved(r4, base, snapshot, su, m, Fit(DefaultErrors, PostFit('-')))
  }

  lemma KeysDiffer()
    ensures Key(FixedNp) == "fixed_np_fit"
    ensures Key(PreFit('+')) == "prefit_+" && Key(PreFit('-')) == "prefit_-"
    ensures Key(PostFit('+')) == "postfit_+" && Key(PostFit('-')) == "postfit_-"
    ensures Distinct(["free_fit", Key(FixedNp), Key(PreFit('+')), Key(PreFit('-')), Key(PostFit('+')), Key(PostFit('-'))])
  {
    assert "prefit_+"[7] != "prefit_-"[7] && "postfit_+"[8] != "postfit_-"[8];
    assert "free_fit"[0] != "prefit_+"[0] && "free_fit"[0] != "prefit_-"[0];
  }

  predicate Distinct(keys: seq<string>) {
    forall i, j :: 0 <= i < j < |keys| ==> keys[i] != keys[j]
  }

  lemma ReadFive<V>(results: map<string, V>, k: seq<string>, v: seq<V>)
    requires |k| == 6 && |v| == 6 && Distinct(k) && k[0] in results && results[k[0]] == v[0]
    ensures var all := results[k[1] := v[1]][k[2] := v[2]][k[3] := v[3]][k[4] := v[4]][k[5] := v[5]];
            && k[0] in all && k[1] in all && k[2] in all && k[3] in all && k[4] in all && k[5] in all
            && all[k[0]] == v[0] && all[k[1]] == v[1] && all[k[2]] == v[2]
            && all[k[3]] == v[3] && all[k[4]] == v[4] && all[k[5]] == v[5]
  {
  }

  lemma ReadSaved(
      base: Vars, snapshot: Vars, su: Setup, m: Minimiser, errors: Errors, results: map<string, StudyRes>)
    requires WellPosed(base, snapshot, su) && GoodMinimiser(m)
    requires "free_fit" in results
    ensures var all := AllSaved(base, snapshot, su, m, errors, results);
            && "free_fit" in all && all["free_fit"] == results["free_fit"]
            && "fixed_np_fit" in all && all["fixed_np_fit"] == Saved(base, snapshot, su, m, Fit(errors, FixedNp))
            && "prefit_+" in all && all["prefit_+"] == Saved(base, snapshot, su, m, Fit(DefaultErrors, PreFit('+')))
            && "prefit_-" in all && all["prefit_-"] == Saved(base, snapshot, su, m, Fit(DefaultErrors, PreFit('-')))
            && "postfit_+" in all && all["postfit_+"] == Saved(base, snapshot, su, m, Fit(DefaultErrors, PostFit('+')))
            && "postfit_-" in all && all["postfit_-"] == Saved(base, snapshot, su, m, Fit(DefaultErrors, PostFit('-')))
  {
    KeysDiffer();
    ReadFive(results, ["free_fit", Key(FixedNp), Key(PreFit('+')), Key(PreFit('-')), Key(PostFit('+')), Key(PostFit('-'))],
             [results["free_fit"], Saved(base, snapshot, su, m, Fit(errors, FixedNp)),
              Saved(base, snapshot, su, m, Fit(DefaultErrors, PreFit('+'))),
              Saved(base, snapshot, su, m, Fit(DefaultErrors, PreFit('-'))),
              Saved(base, snapshot, su, m, Fit(DefaultErrors, PostFit('+'))),
              Saved(base, snapshot, su, m, Fit(DefaultErrors, PostFit('-')))]);
  }

  /** The five reset fits of one worker; every record is the one a manager would make on the first workspace. */
  method RunResetFits(manager: OneNpManager, ghost base: Vars, ghost snapshot: Vars, ghost su: Setup)
    requires SetUp(manager, snapshot, su) && Framed(base, manager.ws.vars, snapshot, su)
    modifies manager.ws`vars, manager`results, manager`errors
    ensures SetUp(manager, snapshot, su) && Framed(base, manager.ws.vars, snapshot, su)
    ensures manager.results ==
              AllSaved(base, snapshot, su, manager.minimiser, old(manager.errors), old(manager.results))
  {
    RunNext(manager, FixedNp, base, snapshot, su);
    manager.errors := DefaultErrors;
    RunNext(manager, PreFit('+'), base, snapshot, su);
    RunNext(manager, PreFit('-'), base, snapshot, su);
    RunNext(manager, PostFit('+'), base, snapshot, su);
    RunNext(manager, PostFit('-'), base, snapshot, su);
  }

  /** The ranking record is a function of the first workspace alone: the free fit gives the preferred value, and each
      other entry is what its fit gives on the first workspace. */
  ghost predicate RecordOf(res: RankingRes, vs: Vars, snapshot: Vars, su0: Setup, m: Minimiser, errors: Errors)
    requires WellPosed(vs, snapshot, su0) && GoodMinimiser(m)
  {
    var free := FreeVars(vs, su0, m, errors);
    var su := su0.(npVal := res.npVal, npErr := res.npErr);
    && WellPosed(free, snapshot, su0) && WellPosed(vs, snapshot, su)
    && res.npVal == free[su0.np].val && res.npErr == free[su0.np].err
    && res.free == Result(free, su)
    && res.fixedNp == Saved(vs, snapshot, su, m, Fit(errors, FixedNp))
    && res.plusOne == Saved(vs, snapshot, su, m, Fit(DefaultErrors, PreFit('+')))
    && res.minusOne == Saved(vs, snapshot, su, m, Fit(DefaultErrors, PreFit('-')))
    && res.plusSigma == Saved(vs, snapshot, su, m, Fit(DefaultErrors, PostFit('+')))
    && res.minusSigma == Saved(vs, snapshot, su, m, Fit(DefaultErrors, PostFit('-')))
  }

  /** The entry names the study and shows value and error of the studied POI. */
  predicate Entry(r: StudyRes, v: Var, su: Setup) {
    r.poiName == su.poi && r.npName == su.np && r.poiVal == v.val && r.poiErr == v.err
  }

  /** What the six entries show, fit by fit: the POI as the minimiser leaves it when it starts from the given variables. */
  ghost predicate EntriesOf(res: RankingRes, vs: Vars, snapshot: Vars, su0: Setup, m: Minimiser, errors: Errors)
    requires WellPosed(vs, snapshot, su0) && GoodMinimiser(m)
  {
    var free := m(errors, RankingFits.ResetPoi(vs, su0));
    && su0.poi in free && su0.np in free
    && res.npVal == free[su0.np].val && res.npErr == free[su0.np].err
    && Entry(res.free, free[su0.poi], su0)
    && var su := su0.(npVal := res.npVal, npErr := res.npErr);
       && EntryOf(res.fixedNp, vs, snapshot, su, m, errors, FixedNp)
       && EntryOf(res.plusOne, vs, snapshot, su, m, DefaultErrors, PreFit('+'))
       && EntryOf(res.minusOne, vs, snapshot, su, m, DefaultErrors, PreFit('-'))
       && EntryOf(res.plusSigma, vs, snapshot, su, m, DefaultErrors, PostFit('+'))
       && EntryOf(res.minusSigma, vs, snapshot, su, m, DefaultErrors, PostFit('-'))
  }

  ghost predicate EntryOf(
      r: StudyRes, vs: Vars, snapshot: Vars, su: Setup, m: Minimiser, errors: Errors, kind: Kind)
    requires su.np in vs && su.poi in vs
  {
    var after := m(errors, Prepared(vs, snapshot, su, kind));
    su.poi in after && Entry(r, after[su.poi], su)
  }

  lemma SavedShows(vs: Vars, snapshot: Vars, su: Setup, m: Minimiser, f: Fit)
    requires WellPosed(vs, snapshot, su) && GoodMinimiser(m)
    ensures EntryOf(Saved(vs, snapshot, su, m, f), vs, snapshot, su, m, f.errors, f.kind)
  {
    FitKeepsFrame(vs, snapshot, su, f.kind, m, f.errors);
  }

  lemma RecordShows(res: RankingRes, vs: Vars, snapshot: Vars, su0: Setup, m: Minimiser, errors: Errors)
    requires WellPosed(vs, snapshot, su0) && GoodMinimiser(m) && RecordOf(res, vs, snapshot, su0, m, errors)
    ensures EntriesOf(res, vs, snapshot, su0, m, errors)
  {
    var su := su0.(npVal := res.npVal, npErr := res.npErr);
    SavedShows(vs, snapshot, su, m, Fit(errors, FixedNp));
    SavedShows(vs, snapshot, su, m, Fit(DefaultErrors, PreFit('+')));
    SavedShows(vs, snapshot, su, m, Fit(DefaultErrors, PreFit('-')));
    SavedShows(vs, snapshot, su, m, Fit(DefaultErrors, PostFit('+')));
    SavedShows(vs, snapshot, su, m, Fit(DefaultErrors, PostFit('-')));
  }

  /** The free fit starts with all POIs at the initial value, the studied one or all of them floating, and everything
      else, the parameter included, as it was. */
  lemma FreeFitStart(vs: Vars, snapshot: Vars, su: Setup, n: string)
    requires WellPosed(vs, snapshot, su) && n in vs
    ensures n in RankingFits.ResetPoi(vs, su)
    ensures var v := RankingFits.ResetPoi(vs, su)[n];
            if n in su.pois then
              v.val == su.poiVal && v.err == su.poiErr && (v.isConst <==> !su.fitAllPois && n != su.poi)
            else v == vs[n]
  {
  }

  /** One ranking worker: snapshot, free fit, then the five reset fits at the parameter value the free fit found. */
  method RankOneNp(
      ws: Workspace, args: set<string>, np: string, poi: string, pois: seq<string>, fitAllPois: bool,
      poiInitVal: real, errors: Errors, minimiser: Minimiser)
    returns (res: RankingRes)
    requires GoodMinimiser(minimiser) && args <= ws.vars.Keys && forall p :: p in pois ==> p in ws.vars
    requires WellPosed(ws.vars, SnapshotOf(ws.vars, args), Setup(np, poi, pois, fitAllPois, 0.0, 0.0, poiInitVal, 0.0))
    modifies ws
    ensures RecordOf(res, old(ws.vars), SnapshotOf(old(ws.vars), args),
                     Setup(np, poi, pois, fitAllPois, 0.0, 0.0, poiInitVal, 0.0), minimiser, errors)
    ensures EntriesOf(res, old(ws.vars), SnapshotOf(old(ws.vars), args),
                      Setup(np, poi, pois, fitAllPois, 0.0, 0.0, poiInitVal, 0.0), minimiser, errors)
  {
    ghost var vs, snapshot := ws.vars, SnapshotOf(ws.vars, args);
    ws.SaveSnapshot(SNAPSHOT, args);
    var manager := new OneNpManager(ws, np, poi, pois, fitAllPois, errors, minimiser);
    manager.poiInitVal, manager.poiInitErr := poiInitVal, 0.0;
    ghost var su0 := manager.Su();
    res := RunAllFits(manager, snapshot, su0);
    RecordShows(res, vs, snapshot, su0, minimiser, errors);
  }

  /** The fits of a worker and the reading of their results. */
  method RunAllFits(manager: OneNpManager, ghost snapshot: Vars, ghost su0: Setup) returns (res: RankingRes)
    requires SetUp(manager, snapshot, su0) && WellPosed(manager.ws.vars, snapshot, su0)
    modifies manager, manager.ws`vars
    ensures RecordOf(res, old(manager.ws.vars), snapshot, su0, manager.minimiser, old(manager.errors))
  {
    ghost var vs, results0, errors := manager.ws.vars, manager.results, manager.errors;
    ghost var free;
    ghost var su;
    var npVal, npErr;
    npVal, npErr, free, su := FindPreferredValue(manager, snapshot);
    RunResetFits(manager, vs, snapshot, su);
    ReadSaved(vs, snapshot, su, manager.minimiser, errors, results0["free_fit" := Result(free, su)]);
    var results := manager.results;
    res := RankingRes(npVal, npErr, results["free_fit"], results["fixed_np_fit"], results["prefit_+"],
                      results["prefit_-"], results["postfit_+"], results["postfit_-"]);
  }

  /** The free fit; the value and error it finds become the preferred ones. */
  method FindPreferredValue(manager: OneNpManager, ghost snapshot: Vars)
    returns (npVal: real, npErr: real, ghost free: Vars, ghost su: Setup)
    requires SetUp(manager, snapshot, manager.Su()) && WellPosed(manager.ws.vars, snapshot, manager.Su())
    modifies manager.ws`vars, manager`results, manager`npFoundVal, manager`npFoundErr
    ensures free == manager.ws.vars == FreeVars(old(manager.ws.vars), old(manager.Su()), manager.minimiser, manager.errors)
    ensures manager.np in free && npVal == free[manager.np].val && npErr == free[manager.np].err
    ensures su == old(manager.Su()).(npVal := npVal, npErr := npErr)
    ensures SetUp(manager, snapshot, su) && Framed(old(manager.ws.vars), manager.ws.vars, snapshot, su)
    ensures manager.results == old(manager.results)["free_fit" := Result(free, su)]
  {
    ghost var vs, su0 := manager.ws.vars, manager.Su();
    FreeFitKeepsFrame(vs, snapshot, su0, manager.minimiser, manager.errors);
    var _ := manager.RunFreeFit();
    free := manager.ws.vars;
    npVal, npErr := manager.ws.vars[manager.np].val, manager.ws.vars[manager.np].err;
    manager.npFoundVal, manager.npFoundErr := npVal, npErr;
    su := manager.Su();
    PreferredValueKeepsFrame(vs, manager.ws.vars, snapshot, su0, npVal, npErr);
  }

  lemma PreferredValueKeepsFrame(base: Vars, vs: Vars, snapshot: Vars, su: Setup, npVal: real, npErr: real)
    requires WellPosed(base, snapshot, su) && WellPosed(vs, snapshot, su) && SameFrame(base, vs, snapshot, su)
    ensures Framed(base, vs, snapshot, su.(npVal := npVal, npErr := npErr))
  {
    var found := su.(npVal := npVal, npErr := npErr);
    assert forall n :: Governed(n, snapshot, found) <==> Governed(n, snapshot, su);
  }

  lemma StepOfRun(base: Vars, vs: Vars, snapshot: Vars, su: Setup, m: Minimiser, f: Fit)
    requires WellPosed(base, snapshot, su) && WellPosed(vs, snapshot, su) && SameFrame(base, vs, snapshot, su)
    requires GoodMinimiser(m)
    ensures var after := After(vs, snapshot, su, m, f);
            && WellPosed(after, snapshot, su) && SameFrame(base, after, snapshot, su)
            && Result(after, su) == Saved(base, snapshot, su, m, f)
  {
    FitKeepsFrame(vs, snapshot, su, f.kind, m, f.errors);
    SavedForgets(base, vs, snapshot, su, m, f);
  }
}
