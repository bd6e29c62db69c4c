/** One ranking worker: the choice of the nuisance parameter, the set-up of the workspace, and the fits. */
module RankingWorker {
  import opened RankingFits
  import opened Ranking

  datatype PrePostFit = Observed | Prefit | Postfit

  /** PastTheEnd stands for reading behind the end of a list. */
  datatype Choice = Chosen(np: string) | NotFound | PastTheEnd

  /** The parameter is the one with the worker's number, or the one named. */
  method ChooseNp(npName: string, nps: seq<string>, workerId: nat) returns (c: Choice)
    ensures npName == "" ==> c == if workerId < |nps| then Chosen(nps[workerId]) else PastTheEnd
    ensures npName != "" ==>
              && (c.Chosen? <==> npName in nps && nps[0] != npName)
              && (c.Chosen? ==> c.np == npName)
              && (c.NotFound? <==> npName in nps && nps[0] == npName)
  {
    if npName == "" {
      return if workerId < |nps| then Chosen(nps[workerId]) else PastTheEnd;
    }
    var id := 0;
    var isFound := false;
    while id < |nps| && nps[id] != npName
      invariant id <= |nps| && npName !in nps[..id] && (isFound <==> id > 0)
    {
      id := id + 1;
      isFound := true;
    }
    if id == |nps| {
      assert nps[..id] == nps;
      return PastTheEnd;
    }
    return if isFound then Chosen(npName) else NotFound;
  }

  // ---------------------------------------------------------------- set-up

  /** What the set-up makes of one variable. */
  function SetUpVar(n: string, v: Var, pois: seq<string>, globs: seq<string>, poiInitVal: real): Var {
    if n in globs then v.(val := 0.0, err := 0.0)
    else if n in pois then v.(val := poiInitVal, err := 0.0)
    else v
  }

  /** The workspace at the time of the snapshot: POIs at their initial value and global observables at zero, unless the
      study is done after a fit. */
  function SetUpVars(
      vs: Vars, pois: seq<string>, globs: seq<string>, poiInitVal: real, prePostFit: PrePostFit): Vars
  {
    if prePostFit.Postfit? then vs else map n | n in vs :: SetUpVar(n, vs[n], pois, globs, poiInitVal)
  }

  method SetAllTo(ws: Workspace, names: seq<string>, val: real, err: real)
    requires forall n :: n in names ==> n in ws.vars
    modifies ws`vars
    ensures ws.vars.Keys == old(ws.vars.Keys)
    ensures forall n :: n in ws.vars && n in names ==> ws.vars[n] == old(ws.vars)[n].(val := val, err := err)
    ensures forall n :: n in ws.vars && n !in names ==> ws.vars[n] == old(ws.vars)[n]
  {
    for i := 0 to |names|
      invariant ws.vars.Keys == old(ws.vars.Keys)
      invariant forall n :: n in ws.vars && n in names[..i] ==>
                  ws.vars[n] == old(ws.vars)[n].(val := val, err := err)
      invariant forall n :: n in ws.vars && n !in names[..i] ==> ws.vars[n] == old(ws.vars)[n]
    {
      var _ := ws.SetVarVal(names[i], val);
      var _ := ws.SetVarErr(names[i], err);
      assert names[..i + 1] == names[..i] + [names[i]];
    }
    assert names[..|names|] == names;
  }

  /** `globs` are the global observables whose title does not contain "gamma". */
  method SetUpWorkspace(
      ws: Workspace, pois: seq<string>, globs: seq<string>, poiInitVal: real, prePostFit: PrePostFit)
    requires (forall n :: n in pois ==> n in ws.vars) && forall n :: n in globs ==> n in ws.vars
    modifies ws`vars
    ensures ws.vars == SetUpVars(old(ws.vars), pois, globs, poiInitVal, prePostFit)
  {
    if prePostFit != Postfit {
      SetAllTo(ws, pois, poiInitVal, 0.0);
      SetAllTo(ws, globs, 0.0, 0.0);
    }
  }

  /** The set-up floats and fixes nothing, so that a well-posed ranking stays well posed. */
  lemma SetUpKeepsWellPosed(
      vs: Vars, args: set<string>, su: Setup, pois: seq<string>, globs: seq<string>, poiInitVal: real,
      prePostFit: PrePostFit)
    requires args <= vs.Keys && WellPosed(vs, SnapshotOf(vs, args), su)
    ensures var vs' := SetUpVars(vs, pois, globs, poiInitVal, prePostFit);
            vs'.Keys == vs.Keys && WellPosed(vs', SnapshotOf(vs', args), su)
  {
    var vs' := SetUpVars(vs, pois, globs, poiInitVal, prePostFit);
    assert vs'.Keys == vs.Keys;
    assert forall n :: Governed(n, SnapshotOf(vs', args), su) <==> Governed(n, SnapshotOf(vs, args), su);
    assert forall n :: n in vs ==> vs'[n].isConst == vs[n].isConst;
  }

  /** Every fit of a worker starts with the global observables at zero, unless the study is done after a fit, and with
      every other variable that is neither POI nor ranked as it was before the set-up; constness is never touched. */
  lemma FitsStartFromSetUp(
      vs: Vars, args: set<string>, su: Setup, kind: Kind, globs: seq<string>, poiInitVal: real, prePostFit: PrePostFit,
      n: string)
    requires args <= vs.Keys && WellPosed(vs, SnapshotOf(vs, args), su)
    requires n in vs && n !in su.pois && n != su.np
    ensures var at := SetUpVars(vs, su.pois, globs, poiInitVal, prePostFit);
            su.np in at && su.poi in at &&
            var v, free := Prepared(at, SnapshotOf(at, args), su, kind)[n], RankingFits.ResetPoi(at, su)[n];
            && v == free && v.isConst == vs[n].isConst
            && (n in globs && prePostFit != Postfit ==> v.val == 0.0 && v.err == 0.0)
            && (n !in globs || prePostFit == Postfit ==> v == vs[n])
  {
    var at := SetUpVars(vs, su.pois, globs, poiInitVal, prePostFit);
    SetUpKeepsWellPosed(vs, args, su, su.pois, globs, poiInitVal, prePostFit);
    WhatFloats(at, SnapshotOf(at, args), su, kind, n);
  }

  // ---------------------------------------------------------------- the worker

  datatype Settings = Settings(
    npName: string, poi: string, fitAllPois: bool, poiInitVal: real, prePostFit: PrePostFit, errors: Errors)

  function SetupOf(np: string, pois: seq<string>, s: Settings): Setup {
    Setup(np, s.poi, pois, s.fitAllPois, 0.0, 0.0, s.poiInitVal, 0.0)
  }

  datatype Ranked = Ranked(np: string, res: RankingRes) | Refused(choice: Choice)

  /** The whole work of one worker. The record is a function of the workspace after the set-up, and each of its entries
      is the result of its fit alone; a parameter that cannot be chosen is refused with nothing changed. */
  method ComputeNpRankingOneWorker(
      ws: Workspace, args: set<string>, s: Settings, workerId: nat, nps: seq<string>, pois: seq<string>,
      globs: seq<string>, minimiser: Minimiser)
    returns (r: Ranked)
    requires GoodMinimiser(minimiser) && args <= ws.vars.Keys
    requires (forall n :: n in pois ==> n in ws.vars) && forall n :: n in globs ==> n in ws.vars
    requires forall n :: n in nps ==> WellPosed(ws.vars, SnapshotOf(ws.vars, args), SetupOf(n, pois, s))
    modifies ws
    ensures r.Ranked? <==>
              if s.npName == "" then workerId < |nps| else s.npName in nps && nps[0] != s.npName
    ensures r.Refused? ==> ws.vars == old(ws.vars)
    ensures r.Ranked? ==>
              && r.np == (if s.npName == "" then nps[workerId] else s.npName)
              && var vs := SetUpVars(old(ws.vars), pois, globs, s.poiInitVal, s.prePostFit);
                 && args <= vs.Keys && WellPosed(vs, SnapshotOf(vs, args), SetupOf(r.np, pois, s))
                 && RecordOf(r.res, vs, SnapshotOf(vs, args), SetupOf(r.np, pois, s), minimiser, s.errors)
                 && EntriesOf(r.res, vs, SnapshotOf(vs, args), SetupOf(r.np, pois, s), minimiser, s.errors)
  {
    var c := ChooseNp(s.npName, nps, workerId);
    if !c.Chosen? {
      return Refused(c);
    }
    SetUpKeepsWellPosed(ws.vars, args, SetupOf(c.np, pois, s), pois, globs, s.poiInitVal, s.prePostFit);
    SetUpWorkspace(ws, pois, globs, s.poiInitVal, s.prePostFit);
    var res := RankOneNp(ws, args, c.np, s.poi, pois, s.fitAllPois, s.poiInitVal, s.errors, minimiser);
    return Ranked(c.np, res);
  }

  /** The first parameter of the list cannot be ranked by its name, though its number works. */
  method FirstNpNeedsItsNumber(nps: seq<string>) returns (byName: Choice, byNumber: Choice)
    requires nps != [] && nps[0] != ""
    ensures byName == NotFound && byNumber == Chosen(nps[0])
  {
    byName := ChooseNp(nps[0], nps, 0);
    byNumber := ChooseNp("", nps, 0);
  }
}
