/**
 Runs of the thread pool: what holds in every one of them, and how the destructor ends them.
 */
module PoolShutdown {
  import opened BlockingQueue
  import opened ThreadPool

  // ---------------------------------------------------------------- runs

  ghost predicate PoolRun(p: Pool, run: seq<PoolAction>)
    decreases |run|
  {
    run == [] || (CanStep(p, run[0]) && PoolRun(Step(p, run[0]), run[1..]))
  }

  ghost function PoolFinal(p: Pool, run: seq<PoolAction>): Pool
    requires PoolRun(p, run)
    decreases |run|
  {
    if run == [] then p else PoolFinal(Step(p, run[0]), run[1..])
  }

  lemma {:induction false} PoolInvariantEver(p: Pool, run: seq<PoolAction>)
    requires Inv(p) && PoolRun(p, run)
    ensures Inv(PoolFinal(p, run))
    ensures var f := PoolFinal(p, run);
            N(f) == N(p) && |f.clients| == |p.clients| && f.q.capacity == p.q.capacity
    ensures !p.dtor.NotStarted? ==> !PoolFinal(p, run).dtor.NotStarted?
    decreases |run|
  {
    if run != [] {
      InvStep(p, run[0]);
      ShapeStep(p, run[0]);
      PoolInvariantEver(Step(p, run[0]), run[1..]);
    }
  }

  /** No step changes the number of threads or the capacity, or un-starts the destructor. */
  lemma ShapeStep(p: Pool, a: PoolAction)
    requires Inv(p) && CanStep(p, a)
    ensures var r := Step(p, a);
            N(r) == N(p) && |r.clients| == |p.clients| && r.q.capacity == p.q.capacity
    ensures !p.dtor.NotStarted? ==> !Step(p, a).dtor.NotStarted?
  {
  }

  // ---------------------------------------------------------------- after the last release nobody posts

  predicate ClientAction(a: PoolAction) {
    a.Lock? || a.Post? || a.Release? || a.ReleaseOwner?
  }

  /** Once the destructor has begun the weak pointer can no longer be locked and no post is under way. */
  lemma NoPostOnceDestroyed(p: Pool, a: PoolAction)
    requires Inv(p) && !p.dtor.NotStarted? && CanStep(p, a)
    ensures !ClientAction(a)
    ensures forall t :: N(p) <= t < DtorThread(p) ==> p.q.threads[t].Idle?
    ensures QueueAction(p, a) != [] && Entering(p.q, QueueAction(p, a)[0]) != [] ==>
              Entering(p.q, QueueAction(p, a)[0]) == [Terminate]
  {
    forall t | N(p) <= t < DtorThread(p)
      ensures p.q.threads[t].Idle?
    {
      assert RoleOk(p.workers, p.clients, p.dtor, t, p.q.threads[t]);
      assert !p.clients[t - N(p)].Holding?;
    }
    if a.Internal? && a.step.ResumePush? {
      assert RoleOk(p.workers, p.clients, p.dtor, a.step.t, p.q.threads[a.step.t]);
    }
  }

  // ---------------------------------------------------------------- no deadlock

  /** A timeout or a spurious wake-up: may happen, never needed. */
  predicate Stray(a: PoolAction) {
    a.Internal? && (a.step.TimeOut? || a.step.Spurious?)
  }

  predicate Productive(a: PoolAction) {
    !ClientAction(a) && !Stray(a)
  }

  ghost predicate Settled(p: Pool)
    requires |p.q.threads| == N(p) + |p.clients| + 1
  {
    && (p.dtor.NotStarted? || p.dtor.Finished?)
    && p.q.items == []
    && (forall t :: N(p) <= t < |p.q.threads| ==> p.q.threads[t].Idle?)
    && (forall w :: 0 <= w < N(p) ==> p.workers[w].Exited? || (p.workers[w].Looping? && p.q.threads[w].ParkedPop?))
  }

  /** A thread whose next step inside the queue depends on nobody else. */
  ghost predicate Running(t: Thread<AsyncMsg>) {
    t.AwakePush? || t.PushNotify? || t.AwakePop? || t.PopNotify?
  }

  lemma SomeWakeUp(threads: seq<Thread<AsyncMsg>>, kind: Kind) returns (woken: Woken)
    ensures LegalWakeUp(threads, woken, kind)
  {
    if j :| 0 <= j < |threads| && KindOf(threads[j]) == kind {
      woken := Somebody(j);
    } else {
      woken := Nobody;
    }
  }

  lemma RunningThreadMoves(p: Pool, t: nat) returns (a: PoolAction)
    requires Inv(p) && t < |p.q.threads| && Running(p.q.threads[t])
    ensures CanStep(p, a) && Productive(a)
  {
    assert RoleOk(p.workers, p.clients, p.dtor, t, p.q.threads[t]);
    match p.q.threads[t]
    case AwakePush(_) => a := Internal(ResumePush(t));
    case AwakePop(_) => a := Internal(ResumePop(t));
    case PushNotify =>
      var woken := SomeWakeUp(p.q.threads, KParkedPop);
      a := Internal(NotifyPushCv(t, woken));
    case PopNotify(_) =>
      var woken := SomeWakeUp(p.q.threads, KParkedPush);
      a := Receive(t, woken);
  }

  /** Nobody running: the queue is empty if a worker is parked, and full if a producer is. */
  lemma AllParked(p: Pool)
    requires Inv(p)
    requires forall t :: 0 <= t < |p.q.threads| ==> !Running(p.q.threads[t])
    ensures (exists w :: 0 <= w < |p.q.threads| && p.q.threads[w].ParkedPop?) ==> p.q.items == []
    ensures (exists t :: 0 <= t < |p.q.threads| && p.q.threads[t].ParkedPush?) ==> |p.q.items| == p.q.capacity
  {
    forall k | k in {KPushNotify, KAwakePop, KPopNotify, KAwakePush}
      ensures Count(p.q.threads, k) == 0
    {
      CountZero(p.q.threads, k);
    }
    forall t | 0 <= t < |p.q.threads|
      ensures Count(p.q.threads, KindOf(p.q.threads[t])) >= 1
    {
      CountPositive(p.q.threads, t, KindOf(p.q.threads[t]));
    }
  }

  /** Nobody running and every worker gone: the terminate messages account for everything. */
  lemma AllExited(p: Pool)
    requires Inv(p) && N(p) >= 1
    ensures (forall w :: 0 <= w < N(p) ==> p.workers[w].Exited?) ==>
              |p.q.items| == TerminatesPosted(p) - N(p)
    ensures (forall t :: 0 <= t < |p.q.threads| ==> !Running(p.q.threads[t]))
            && p.q.items == []
            && TerminatesPosted(p) == N(p)
            ==> forall w :: 0 <= w < N(p) ==> p.workers[w].Exited?
  {
    StoppedBounds(p, N(p));
    if forall w :: 0 <= w < N(p) ==> p.workers[w].Exited? {
      assert forall w :: 0 <= w < N(p) ==> Stopped(p, w);
    }
    if p.q.items == [] && TerminatesPosted(p) == N(p) {
      forall w | 0 <= w < N(p)
        ensures p.workers[w].Exited? || Running(p.q.threads[w])
      {
        assert Stopped(p, w);
      }
    }
  }

  /** In every state that is not settled some thread has a productive step. */
  lemma Progress(p: Pool) returns (a: PoolAction)
    requires Inv(p) && N(p) >= 1 && p.q.capacity >= 1 && !Settled(p)
    ensures CanStep(p, a) && Productive(a)
  {
    var d := DtorThread(p);
    assert forall t :: 0 <= t < |p.q.threads| ==> RoleOk(p.workers, p.clients, p.dtor, t, p.q.threads[t]);
    if t :| 0 <= t < |p.q.threads| && Running(p.q.threads[t]) {
      a := RunningThreadMoves(p, t);
    } else if w :| 0 <= w < N(p) && p.workers[w].Processing? {
      a := Processed(w);
    } else if w :| 0 <= w < N(p) && p.workers[w].Looping? && p.q.threads[w].Idle? {
      a := LoopTop(w);
    } else {
      a := StuckPool(p);
    }
  }

  /** With no worker able to move, the destructor is. */
  lemma StuckPool(p: Pool) returns (a: PoolAction)
    requires Inv(p) && N(p) >= 1 && p.q.capacity >= 1 && !Settled(p)
    requires forall t :: 0 <= t < |p.q.threads| ==> RoleOk(p.workers, p.clients, p.dtor, t, p.q.threads[t])
    requires forall t :: 0 <= t < |p.q.threads| ==> !Running(p.q.threads[t])
    requires forall w :: 0 <= w < N(p) ==> p.workers[w].Exited? || (p.workers[w].Looping? && p.q.threads[w].ParkedPop?)
    ensures CanStep(p, a) && Productive(a)
  {
    AllParked(p);
    AllExited(p);
    var d := DtorThread(p);
    assert TerminatesPosted(p) <= N(p);
    assert p.q.items == [];
    assert forall t :: N(p) <= t < |p.q.threads| ==> p.q.threads[t].Idle?;
    match p.dtor
    case Posting(k) => a := if k < N(p) then PostTerminate else StartJoin;
    case Joining(j) => a := if j < N(p) then Join else Finish;
  }

  /** A destructor blocked on a full queue always has a worker left that has not taken a terminate message. */
  lemma BlockedDestructorHasLiveWorker(p: Pool)
    requires Inv(p) && N(p) >= 1 && p.q.threads[DtorThread(p)].ParkedPush?
    ensures exists w :: 0 <= w < N(p) && !Stopped(p, w)
  {
    assert RoleOk(p.workers, p.clients, p.dtor, DtorThread(p), p.q.threads[DtorThread(p)]);
    StoppedBounds(p, N(p));
  }

  // ---------------------------------------------------------------- the decreasing measure

  ghost function ThreadWeight(t: Thread<AsyncMsg>): nat {
    match t
    case Idle => 1
    case ParkedPop => 0
    case AwakePop(_) => 2
    case PopNotify(_) => 4
    case PushNotify => 4
    case ParkedPush(_) => 8
    case AwakePush(_) => 9
  }

  ghost function WorkerWeight(w: Worker): nat {
    match w
    case Looping => 1
    case Processing(_) => 2
    case Exited => 0
  }

  ghost function ThreadWeights(s: seq<Thread<AsyncMsg>>): nat {
    if s == [] then 0 else ThreadWeight(s[0]) + ThreadWeights(s[1..])
  }

  ghost function WorkerWeights(s: seq<Worker>): nat {
    if s == [] then 0 else WorkerWeight(s[0]) + WorkerWeights(s[1..])
  }

  ghost function DtorWeight(p: Pool): int {
    match p.dtor
    case NotStarted => 0
    case Posting(k) => 8 * (N(p) - k) + N(p) + 2
    case Joining(j) => N(p) + 1 - j
    case Finished => 0
  }

  ghost function Measure(p: Pool): int {
    DtorWeight(p) + 4 * |p.q.items| + ThreadWeights(p.q.threads) + WorkerWeights(p.workers)
  }

  lemma {:induction false} ThreadWeightsUpdate(s: seq<Thread<AsyncMsg>>, i: nat, x: Thread<AsyncMsg>)
    requires i < |s|
    ensures ThreadWeights(s[i := x]) + ThreadWeight(s[i]) == ThreadWeights(s) + ThreadWeight(x)
  {
    if i == 0 {
      assert s[i := x][1..] == s[1..];
    } else {
      ThreadWeightsUpdate(s[1..], i - 1, x);
      assert s[i := x][1..] == s[1..][i - 1 := x];
    }
  }

  lemma {:induction false} WorkerWeightsUpdate(s: seq<Worker>, i: nat, x: Worker)
    requires i < |s|
    ensures WorkerWeights(s[i := x]) + WorkerWeight(s[i]) == WorkerWeights(s) + WorkerWeight(x)
  {
    if i == 0 {
      assert s[i := x][1..] == s[1..];
    } else {
      WorkerWeightsUpdate(s[1..], i - 1, x);
      assert s[i := x][1..] == s[1..][i - 1 := x];
    }
  }

  lemma NotifyWeight(threads: seq<Thread<AsyncMsg>>, t: nat, woken: Woken, kind: Kind)
    requires t < |threads| && LegalWakeUp(threads, woken, kind) && kind in {KParkedPop, KParkedPush}
    requires KindOf(threads[t]) in {KPushNotify, KPopNotify}
    ensures ThreadWeights(AfterNotify(threads, t, woken))
            <= ThreadWeights(threads) - 3 + if kind == KParkedPop then 2 else 1
  {
    var done := threads[t := Idle];
    ThreadWeightsUpdate(threads, t, Idle);
    assert ThreadWeight(threads[t]) - ThreadWeight(Idle) == 3;
    if woken.Somebody? {
      assert done[woken.thread] == threads[woken.thread];
      UnblockedWeight(done, woken.thread, kind);
    }
  }

  lemma UnblockedWeight(threads: seq<Thread<AsyncMsg>>, j: nat, kind: Kind)
    requires j < |threads| && KindOf(threads[j]) == kind && kind in {KParkedPop, KParkedPush}
    ensures ThreadWeights(threads[j := Unblocked(threads[j])])
            == ThreadWeights(threads) + if kind == KParkedPop then 2 else 1
  {
    ThreadWeightsUpdate(threads, j, Unblocked(threads[j]));
  }

  /** A step of one thread that leaves workers and destructor alone. */
  lemma OneThreadMeasure(p: Pool, r: Pool, t: nat)
    requires t < |p.q.threads| && |r.q.threads| == |p.q.threads|
    requires r.q.threads == p.q.threads[t := r.q.threads[t]] && r.workers == p.workers && r.dtor == p.dtor
    ensures Measure(r) == Measure(p) + 4 * (|r.q.items| - |p.q.items|)
                          + ThreadWeight(r.q.threads[t]) - ThreadWeight(p.q.threads[t])
  {
    ThreadWeightsUpdate(p.q.threads, t, r.q.threads[t]);
  }

  lemma NotifyMeasure(p: Pool, a: PoolAction)
    requires Inv(p) && CanStep(p, a) && a.Internal? && a.step.NotifyPushCv?
    ensures Measure(Step(p, a)) < Measure(p)
  {
    NotifyWeight(p.q.threads, a.step.t, a.step.woken, KParkedPop);
  }

  lemma ResumePushMeasure(p: Pool, a: PoolAction)
    requires Inv(p) && CanStep(p, a) && a.Internal? && a.step.ResumePush?
    ensures Measure(Step(p, a)) < Measure(p)
  {
    OneThreadMeasure(p, Step(p, a), a.step.t);
  }

  lemma ResumePopMeasure(p: Pool, a: PoolAction)
    requires Inv(p) && CanStep(p, a) && a.Internal? && a.step.ResumePop?
    ensures Measure(Step(p, a)) < Measure(p)
  {
    OneThreadMeasure(p, Step(p, a), a.step.t);
  }

  lemma StrayMeasure(p: Pool, a: PoolAction)
    requires Inv(p) && CanStep(p, a) && Stray(a)
    ensures Measure(Step(p, a)) <= Measure(p) + 2
  {
    OneThreadMeasure(p, Step(p, a), a.step.t);
  }

  lemma InternalMeasure(p: Pool, a: PoolAction)
    requires Inv(p) && CanStep(p, a) && a.Internal?
    ensures Measure(Step(p, a)) <= Measure(p) + if Stray(a) then 2 else -1
  {
    if a.step.NotifyPushCv? {
      NotifyMeasure(p, a);
    } else if a.step.ResumePush? {
      ResumePushMeasure(p, a);
    } else if a.step.ResumePop? {
      ResumePopMeasure(p, a);
    } else {
      StrayMeasure(p, a);
    }
  }

  /** Every step but a client's and a stray one lowers the measure; a stray one raises it by at most two. */
  lemma MeasureStep(p: Pool, a: PoolAction)
    requires Inv(p) && CanStep(p, a) && !ClientAction(a)
    ensures Measure(Step(p, a)) <= Measure(p) + if Stray(a) then 2 else -1
  {
    if a.Internal? {
      InternalMeasure(p, a);
    } else if a.PostTerminate? || a.LoopTop? {
      EntryMeasure(p, a, if a.LoopTop? then a.w else DtorThread(p));
    } else if a.Receive? {
      NotifyWeight(p.q.threads, a.w, a.woken, KParkedPush);
      WorkerWeightsUpdate(p.workers, a.w, Step(p, a).workers[a.w]);
    } else if a.Processed? {
      WorkerWeightsUpdate(p.workers, a.w, Looping);
    }
  }

  /** Entering the queue: posting a terminate message, or looking for a message. */
  lemma EntryMeasure(p: Pool, a: PoolAction, t: nat)
    requires Inv(p) && CanStep(p, a)
    requires (a.PostTerminate? && t == DtorThread(p)) || (a.LoopTop? && t == a.w)
    ensures Measure(Step(p, a)) < Measure(p)
  {
    var r := Step(p, a);
    assert r.q.threads == p.q.threads[t := r.q.threads[t]];
    ThreadWeightsUpdate(p.q.threads, t, r.q.threads[t]);
  }

  ghost function StraySteps(run: seq<PoolAction>): nat {
    if run == [] then 0 else One(Stray(run[0])) + StraySteps(run[1..])
  }

  /** From the start of the destructor a run is at most as long as the measure allows, plus three steps for each
      timeout or spurious wake-up in it. */
  lemma {:induction false} ShutdownIsBounded(p: Pool, run: seq<PoolAction>)
    requires Inv(p) && !p.dtor.NotStarted? && PoolRun(p, run)
    ensures |run| + Measure(PoolFinal(p, run)) <= Measure(p) + 3 * StraySteps(run)
    ensures 0 <= Measure(PoolFinal(p, run))
    decreases |run|
  {
    if run != [] {
      NoPostOnceDestroyed(p, run[0]);
      MeasureStep(p, run[0]);
      InvStep(p, run[0]);
      ShutdownIsBounded(Step(p, run[0]), run[1..]);
    }
  }

  /** A run of the destructor that cannot be continued productively is complete: all joins done, queue empty. */
  lemma ShutdownEndsComplete(p: Pool, run: seq<PoolAction>)
    requires Inv(p) && N(p) >= 1 && p.q.capacity >= 1 && !p.dtor.NotStarted? && PoolRun(p, run)
    requires var f := PoolFinal(p, run); forall a :: Productive(a) ==> !CanStep(f, a)
    ensures var f := PoolFinal(p, run);
            && f.dtor.Finished? && f.q.items == [] && N(f) <= |f.q.threads|
            && forall w :: 0 <= w < N(f) ==> f.workers[w].Exited? && f.q.threads[w].Idle?
  {
    PoolInvariantEver(p, run);
    var f := PoolFinal(p, run);
    if !Settled(f) {
      var a := Progress(f);
      assert false;
    }
    assert forall t :: 0 <= t < |f.q.threads| ==> RoleOk(f.workers, f.clients, f.dtor, t, f.q.threads[t]);
  }

  // ---------------------------------------------------------------- drain, then terminate

  /** The queue actions of a pool run. */
  ghost function QueueRun(p: Pool, run: seq<PoolAction>): seq<Action<AsyncMsg>>
    requires PoolRun(p, run)
    decreases |run|
  {
    if run == [] then [] else QueueAction(p, run[0]) + QueueRun(Step(p, run[0]), run[1..])
  }

  /** A run of the pool is a run of its queue, so everything proved about the queue holds inside the pool. */
  lemma {:induction false} PoolRunsTheQueue(p: Pool, run: seq<PoolAction>)
    requires PoolRun(p, run)
    ensures IsRun(p.q, QueueRun(p, run)) && Final(p.q, QueueRun(p, run)) == PoolFinal(p, run).q
    decreases |run|
  {
    if run != [] {
      PoolRunsTheQueue(Step(p, run[0]), run[1..]);
      var qs := QueueRun(p, run);
      if QueueAction(p, run[0]) == [] {
        assert qs == QueueRun(Step(p, run[0]), run[1..]);
      } else {
        assert qs[0] == QueueAction(p, run[0])[0];
        assert qs[1..] == QueueRun(Step(p, run[0]), run[1..]);
      }
    }
  }

  ghost function Copies(n: nat): seq<AsyncMsg> {
    seq(n, i => Terminate)
  }

  ghost function EnteringPool(p: Pool, a: PoolAction): seq<AsyncMsg>
    requires CanStep(p, a)
  {
    if QueueAction(p, a) == [] then [] else Entering(p.q, QueueAction(p, a)[0])
  }

  lemma EnteredCons(s: Queue<AsyncMsg>, a: Action<AsyncMsg>, rest: seq<Action<AsyncMsg>>)
    requires Enabled(s, a) && IsRun(Apply(s, a), rest)
    ensures IsRun(s, [a] + rest) && Entered(s, [a] + rest) == Entering(s, a) + Entered(Apply(s, a), rest)
  {
    assert ([a] + rest)[1..] == rest;
  }

  lemma EnteredUnfold(p: Pool, run: seq<PoolAction>)
    requires PoolRun(p, run) && run != []
    ensures var next, rest := Step(p, run[0]), run[1..];
            && IsRun(p.q, QueueRun(p, run)) && IsRun(next.q, QueueRun(next, rest))
            && Entered(p.q, QueueRun(p, run)) == EnteringPool(p, run[0]) + Entered(next.q, QueueRun(next, rest))
  {
    var next, rest := Step(p, run[0]), run[1..];
    var action, queueRest := QueueAction(p, run[0]), QueueRun(next, rest);
    PoolRunsTheQueue(next, rest);
    assert QueueRun(p, run) == action + queueRest;
    if action == [] {
      assert action + queueRest == queueRest;
      assert next.q == p.q;
    } else {
      assert action == [action[0]] && next.q == Apply(p.q, action[0]);
      EnteredCons(p.q, action[0], queueRest);
    }
  }

  lemma InternalPosted(p: Pool, a: PoolAction)
    requires Inv(p) && !p.dtor.NotStarted? && CanStep(p, a) && a.Internal?
    ensures |Step(p, a).q.threads| == |p.q.threads|
    ensures TerminatesPosted(Step(p, a)) == TerminatesPosted(p) + |EnteringPool(p, a)|
  {
    NoPostOnceDestroyed(p, a);
    if a.step.NotifyPushCv? {
      NotifyPosted(p, a);
    } else {
      ResumePosted(p, a);
    }
  }

  lemma NotifyPosted(p: Pool, a: PoolAction)
    requires Inv(p) && CanStep(p, a) && a.Internal? && a.step.NotifyPushCv?
    ensures |Step(p, a).q.threads| == |p.q.threads|
    ensures TerminatesPosted(Step(p, a)) == TerminatesPosted(p) && EnteringPool(p, a) == []
  {
    PushNotifyRoles(p, Step(p, a), a.step.t, a.step.woken);
  }

  lemma ResumePosted(p: Pool, a: PoolAction)
    requires Inv(p) && CanStep(p, a) && a.Internal? && !a.step.NotifyPushCv?
    requires forall t :: N(p) <= t < DtorThread(p) ==> p.q.threads[t].Idle?
    ensures |Step(p, a).q.threads| == |p.q.threads|
    ensures TerminatesPosted(Step(p, a)) == TerminatesPosted(p) + |EnteringPool(p, a)|
  {
    assert RoleOk(p.workers, p.clients, p.dtor, a.step.t, p.q.threads[a.step.t]);
    assert RoleOk(p.workers, p.clients, p.dtor, DtorThread(p), p.q.threads[DtorThread(p)]);
  }

  lemma EntryPosted(p: Pool, a: PoolAction)
    requires Inv(p) && CanStep(p, a) && (a.PostTerminate? || a.LoopTop?)
    ensures |Step(p, a).q.threads| == |p.q.threads|
    ensures TerminatesPosted(Step(p, a)) == TerminatesPosted(p) + |EnteringPool(p, a)|
  {
    assert RoleOk(p.workers, p.clients, p.dtor, DtorThread(p), p.q.threads[DtorThread(p)]);
  }

  lemma ReceivePosted(p: Pool, a: PoolAction)
    requires Inv(p) && CanStep(p, a) && a.Receive?
    ensures |Step(p, a).q.threads| == |p.q.threads|
    ensures TerminatesPosted(Step(p, a)) == TerminatesPosted(p) && EnteringPool(p, a) == []
  {
    assert RoleOk(p.workers, p.clients, p.dtor, DtorThread(p), p.q.threads[DtorThread(p)]);
  }

  lemma JoinPosted(p: Pool, a: PoolAction)
    requires Inv(p) && CanStep(p, a) && (a.StartJoin? || a.Join? || a.Finish? || a.Processed?)
    ensures Step(p, a).q == p.q
    ensures TerminatesPosted(Step(p, a)) == TerminatesPosted(p) && EnteringPool(p, a) == []
  {
  }

  /** A destructor step stores at most a terminate message, and then one more has been posted. */
  lemma PostedStep(p: Pool, a: PoolAction)
    requires Inv(p) && !p.dtor.NotStarted? && CanStep(p, a)
    ensures |Step(p, a).q.threads| == |p.q.threads|
    ensures TerminatesPosted(Step(p, a)) == TerminatesPosted(p) + |EnteringPool(p, a)|
    ensures EnteringPool(p, a) == [] || EnteringPool(p, a) == [Terminate]
  {
    NoPostOnceDestroyed(p, a);
    if a.Internal? {
      InternalPosted(p, a);
    } else if a.PostTerminate? || a.LoopTop? {
      EntryPosted(p, a);
    } else if a.Receive? {
      ReceivePosted(p, a);
    } else {
      JoinPosted(p, a);
    }
  }

  lemma BlocksStep(p: Pool, a: PoolAction)
    requires Inv(p) && !p.dtor.NotStarted? && CanStep(p, a)
    ensures forall i :: 0 <= i < |QueueAction(p, a)| ==> !QueueAction(p, a)[i].EnqueueNowait?
  {
    NoPostOnceDestroyed(p, a);
  }

  /** A destructor run uses only the blocking operation. */
  lemma {:induction false} DestructorBlocks(p: Pool, run: seq<PoolAction>)
    requires Inv(p) && !p.dtor.NotStarted? && PoolRun(p, run)
    ensures forall i :: 0 <= i < |QueueRun(p, run)| ==> !QueueRun(p, run)[i].EnqueueNowait?
    decreases |run|
  {
    if run != [] {
      BlocksStep(p, run[0]);
      InvStep(p, run[0]);
      ShapeStep(p, run[0]);
      DestructorBlocks(Step(p, run[0]), run[1..]);
    }
  }

  predicate AllTerminate(items: seq<AsyncMsg>) {
    forall i :: 0 <= i < |items| ==> items[i] == Terminate
  }

  /** In a destructor run only terminate messages are stored, and their number is the number of posts completed. */
  lemma {:induction false} OnlyTerminatesEnter(p: Pool, run: seq<PoolAction>)
    requires Inv(p) && !p.dtor.NotStarted? && PoolRun(p, run)
    ensures IsRun(p.q, QueueRun(p, run)) && |PoolFinal(p, run).q.threads| == |p.q.threads|
    ensures N(PoolFinal(p, run)) == N(p) && |PoolFinal(p, run).clients| == |p.clients|
    ensures |Entered(p.q, QueueRun(p, run))| == TerminatesPosted(PoolFinal(p, run)) - TerminatesPosted(p)
    ensures AllTerminate(Entered(p.q, QueueRun(p, run)))
    decreases |run|
  {
    PoolRunsTheQueue(p, run);
    PoolInvariantEver(p, run);
    if run != [] {
      PostedStep(p, run[0]);
      InvStep(p, run[0]);
      ShapeStep(p, run[0]);
      OnlyTerminatesEnter(Step(p, run[0]), run[1..]);
      EnteredUnfold(p, run);
      AllTerminateAppend(EnteringPool(p, run[0]), Entered(Step(p, run[0]).q, QueueRun(Step(p, run[0]), run[1..])));
    }
  }

  lemma AllTerminateAppend(a: seq<AsyncMsg>, b: seq<AsyncMsg>)
    requires AllTerminate(a) && AllTerminate(b)
    ensures AllTerminate(a + b)
  {
  }

  /** The whole shutdown. From the moment the destructor starts until it is finished, what the workers take is
      everything that was queued, in order, followed by one terminate message per worker; nothing else. */
  lemma DrainThenTerminate(p: Pool, run: seq<PoolAction>)
    requires Inv(p) && N(p) >= 1 && p.dtor == Posting(0) && PoolRun(p, run) && PoolFinal(p, run).dtor.Finished?
    ensures IsRun(p.q, QueueRun(p, run))
    ensures Taken(Left(p.q, QueueRun(p, run))) == p.q.items + Copies(N(p))
    ensures PoolFinal(p, run).q.items == []
  {
    var f, qs := PoolFinal(p, run), QueueRun(p, run);
    PoolInvariantEver(p, run);
    OnlyTerminatesEnter(p, run);
    DestructorBlocks(p, run);
    PoolRunsTheQueue(p, run);
    FifoEver(p.q, qs);
    NoOverruns(p.q, qs);
    TakenCount(Left(p.q, qs));
    assert RoleOk(p.workers, p.clients, p.dtor, DtorThread(p), p.q.threads[DtorThread(p)]);
    StoppedBounds(f, N(f));
    TerminatesBounds(f.q.items);
    assert Entered(p.q, qs) == Copies(N(p));
    assert Items(Left(p.q, qs)) + [] == Items(Left(p.q, qs));
  }

  /** Worker w takes a terminate message in this step. */
  predicate TakesTerminate(p: Pool, a: PoolAction, w: nat) {
    && p.q.items != [] && p.q.items[0].Terminate?
    && (a == LoopTop(w) || a == Internal(ResumePop(w)))
  }

  /** How many terminate messages worker w takes in a run. */
  ghost function TerminatesTakenBy(p: Pool, run: seq<PoolAction>, w: nat): nat
    requires PoolRun(p, run)
    decreases |run|
  {
    if run == [] then 0
    else One(TakesTerminate(p, run[0], w)) + TerminatesTakenBy(Step(p, run[0]), run[1..], w)
  }

  /** What is counted is what leaves the queue by that worker's hand. */
  lemma TakesWhatLeaves(p: Pool, a: PoolAction, w: nat)
    requires Inv(p) && CanStep(p, a) && TakesTerminate(p, a, w)
    ensures QueueAction(p, a) != [] && Leaving(p.q, QueueAction(p, a)[0]) == [Departure(Terminate, false)]
    ensures w < |p.q.threads| && w < |Step(p, a).q.threads| && Step(p, a).q.threads[w] == PopNotify(Terminate)
  {
  }

  /** Taking a terminate message is what stops a worker, and it never takes another one. */
  lemma StopsByTaking(p: Pool, a: PoolAction, w: nat)
    requires Inv(p) && CanStep(p, a) && w < N(p)
    ensures N(Step(p, a)) == N(p) <= |Step(p, a).q.threads|
    ensures One(Stopped(Step(p, a), w)) == One(Stopped(p, w)) + One(TakesTerminate(p, a, w))
  {
    assert RoleOk(p.workers, p.clients, p.dtor, w, p.q.threads[w]);
    InvStep(p, a);
    ShapeStep(p, a);
    if a.Internal? {
      StopsInside(p, a, w);
    } else if a.Post? || a.PostTerminate? || a.LoopTop? {
      StopsAtEntry(p, a, w);
    } else if a.Receive? {
      StopsAtReceive(p, a, w);
    }
  }

  lemma StopsInside(p: Pool, a: PoolAction, w: nat)
    requires Inv(p) && CanStep(p, a) && w < N(p) && a.Internal?
    ensures w < |Step(p, a).q.threads| && w < N(Step(p, a)) <= |Step(p, a).q.threads|
    ensures One(Stopped(Step(p, a), w)) == One(Stopped(p, w)) + One(TakesTerminate(p, a, w))
  {
    if a.step.ResumePop? {
      StopsAtResume(p, a, w);
    } else {
      StopsNobody(p, a, w);
    }
  }

  lemma StopsAtResume(p: Pool, a: PoolAction, w: nat)
    requires Inv(p) && CanStep(p, a) && w < N(p) && a.Internal? && a.step.ResumePop?
    ensures w < |Step(p, a).q.threads| && w < N(Step(p, a)) <= |Step(p, a).q.threads|
    ensures One(Stopped(Step(p, a), w)) == One(Stopped(p, w)) + One(TakesTerminate(p, a, w))
  {
    assert RoleOk(p.workers, p.clients, p.dtor, w, p.q.threads[w]);
  }

  lemma StopsNobody(p: Pool, a: PoolAction, w: nat)
    requires Inv(p) && CanStep(p, a) && w < N(p) && a.Internal? && !a.step.ResumePop?
    ensures w < |Step(p, a).q.threads| && w < N(Step(p, a)) <= |Step(p, a).q.threads|
    ensures One(Stopped(Step(p, a), w)) == One(Stopped(p, w)) && !TakesTerminate(p, a, w)
  {
    assert RoleOk(p.workers, p.clients, p.dtor, w, p.q.threads[w]);
  }

  lemma StopsAtEntry(p: Pool, a: PoolAction, w: nat)
    requires Inv(p) && CanStep(p, a) && w < N(p) && (a.Post? || a.PostTerminate? || a.LoopTop?)
    ensures w < |Step(p, a).q.threads| && w < N(Step(p, a)) <= |Step(p, a).q.threads|
    ensures One(Stopped(Step(p, a), w)) == One(Stopped(p, w)) + One(TakesTerminate(p, a, w))
  {
  }

  lemma StopsAtReceive(p: Pool, a: PoolAction, w: nat)
    requires Inv(p) && CanStep(p, a) && w < N(p) && a.Receive?
    ensures w < |Step(p, a).q.threads| && w < N(Step(p, a)) <= |Step(p, a).q.threads|
    ensures One(Stopped(Step(p, a), w)) == One(Stopped(p, w)) + One(TakesTerminate(p, a, w))
  {
    assert RoleOk(p.workers, p.clients, p.dtor, w, p.q.threads[w]);
  }

  lemma {:induction false} TakenByCounts(p: Pool, run: seq<PoolAction>, w: nat)
    requires Inv(p) && PoolRun(p, run) && w < N(p)
    ensures N(PoolFinal(p, run)) == N(p) <= |PoolFinal(p, run).q.threads|
    ensures One(Stopped(PoolFinal(p, run), w)) == One(Stopped(p, w)) + TerminatesTakenBy(p, run, w)
    decreases |run|
  {
    if run != [] {
      InvStep(p, run[0]);
      StopsByTaking(p, run[0], w);
      TakenByCounts(Step(p, run[0]), run[1..], w);
    }
  }

  /** In a run from the start of the destructor to its end, every worker takes exactly one terminate message. */
  lemma EachWorkerTakesOne(p: Pool, run: seq<PoolAction>, w: nat)
    requires Inv(p) && p.dtor == Posting(0) && PoolRun(p, run) && PoolFinal(p, run).dtor.Finished? && w < N(p)
    ensures TerminatesTakenBy(p, run, w) == 1
  {
    PoolInvariantEver(p, run);
    TakenByCounts(p, run, w);
    StoppedBounds(p, N(p));
    assert !Stopped(p, w);
    assert Stopped(PoolFinal(p, run), w);
  }

  /** A whole life of the pool, with blocking posts only: workers take the posted messages in the order they were
      stored; when the destructor has finished they have taken all of them and every worker has exited. */
  lemma PoolLife(capacity: nat, threads: nat, clients: nat, run: seq<PoolAction>)
    requires 1 <= threads <= 1000
    requires PoolRun(Construct(capacity, threads, clients).pool, run)
    requires forall i :: 0 <= i < |run| && run[i].Post? ==> run[i].block
    ensures var p := Construct(capacity, threads, clients).pool;
            var qs, f := QueueRun(p, run), PoolFinal(p, run);
            && IsRun(p.q, qs) && Taken(Left(p.q, qs)) + f.q.items == Entered(p.q, qs)
            && (f.dtor.Finished? ==>
                  f.q.items == [] && forall w :: 0 <= w < |f.workers| ==> f.workers[w].Exited?)
  {
    var p := Construct(capacity, threads, clients).pool;
    InitialInv(capacity, threads, clients);
    PoolInvariantEver(p, run);
    AllExited(PoolFinal(p, run));
    PoolRunsTheQueue(p, run);
    BlockingPosts(p, run);
    BlockingQueueIsLossless(p.q, QueueRun(p, run));
  }

  lemma {:induction false} BlockingPosts(p: Pool, run: seq<PoolAction>)
    requires PoolRun(p, run) && forall i :: 0 <= i < |run| && run[i].Post? ==> run[i].block
    ensures forall i :: 0 <= i < |QueueRun(p, run)| ==> !QueueRun(p, run)[i].EnqueueNowait?
    decreases |run|
  {
    if run != [] {
      BlockingPosts(Step(p, run[0]), run[1..]);
    }
  }

  // ---------------------------------------------------------------- why the queue must have room for one message

  /** No worker has taken anything. */
  ghost predicate NothingTaken(p: Pool) {
    && (forall t :: 0 <= t < |p.q.threads| ==> !p.q.threads[t].PopNotify?)
    && (forall w :: 0 <= w < N(p) ==> p.workers[w].Looping?)
  }

  lemma NothingPopped(s: Queue<AsyncMsg>, a: Action<AsyncMsg>)
    requires Enabled(s, a) && s.capacity == 0 && forall t :: 0 <= t < |s.threads| ==> !s.threads[t].PopNotify?
    ensures forall t :: 0 <= t < |Apply(s, a).threads| ==> !Apply(s, a).threads[t].PopNotify?
  {
  }

  lemma NothingTakenStep(p: Pool, a: PoolAction)
    requires CanStep(p, a) && p.q.capacity == 0 && NothingTaken(p)
    ensures NothingTaken(Step(p, a))
  {
    if QueueAction(p, a) != [] {
      NothingPopped(p.q, QueueAction(p, a)[0]);
    }
  }

  /** With a queue of size 0 the first terminate message never finds room, so no destructor run ever finishes: the
      size requirement in `ShutdownEndsComplete` cannot be dropped. */
  lemma {:induction false} ZeroCapacityNeverFinishes(p: Pool, run: seq<PoolAction>)
    requires Inv(p) && N(p) >= 1 && p.q.capacity == 0 && NothingTaken(p) && PoolRun(p, run)
    requires !p.dtor.Finished?
    ensures NothingTaken(PoolFinal(p, run)) && !PoolFinal(p, run).dtor.Finished?
    decreases |run|
  {
    if run != [] {
      InvStep(p, run[0]);
      var next := Step(p, run[0]);
      NothingTakenStep(p, run[0]);
      assert next.workers[0].Looping?;
      ZeroCapacityNeverFinishes(next, run[1..]);
    }
  }
}
