/**
 The multi-producer multi-consumer blocking queue as a state machine.

 Every lock-protected body is one atomic step; parking on a condition variable, being unblocked
 (by a notification, spuriously or by a timeout), re-acquiring the mutex and calling notify_one after the mutex
 has been released are separate steps of each thread, so all their interleavings are runs of this machine.
 */
module BlockingQueue {
  import opened CircularQueue

  /** Where a thread is inside an operation of the queue. */
  datatype Thread<T> =
    | Idle                      // outside any queue operation
    | ParkedPush(item: T)       // blocked on pop_cv in enqueue
    | AwakePush(item: T)        // unblocked, about to re-check "not full" under the mutex
    | PushNotify                // item stored, mutex released, push_cv not notified yet
    | ParkedPop                 // blocked on push_cv in dequeue_for
    | AwakePop(timedOut: bool)  // unblocked, about to re-check "not empty" under the mutex
    | PopNotify(popped: T)      // item taken, mutex released, pop_cv not notified yet

  datatype Kind = KIdle | KParkedPush | KAwakePush | KPushNotify | KParkedPop | KAwakePop | KPopNotify

  function KindOf<T>(t: Thread<T>): Kind {
    match t
    case Idle => KIdle
    case ParkedPush(_) => KParkedPush
    case AwakePush(_) => KAwakePush
    case PushNotify => KPushNotify
    case ParkedPop => KParkedPop
    case AwakePop(_) => KAwakePop
    case PopNotify(_) => KPopNotify
  }

  datatype Queue<T> = Queue(capacity: nat, items: seq<T>, overrun: nat, threads: seq<Thread<T>>)

  datatype Woken = Nobody | Somebody(thread: nat)

  datatype Action<T> =
    | Enqueue(t: nat, item: T)         // enqueue up to the push or the first wait
    | EnqueueNowait(t: nat, item: T)
    | ResumePush(t: nat)               // mutex re-acquired after the wait in enqueue
    | Dequeue(t: nat)                  // dequeue_for up to the pop or the first wait
    | ResumePop(t: nat)                // mutex re-acquired after the wait in dequeue_for
    | NotifyPushCv(t: nat, woken: Woken)
    | NotifyPopCv(t: nat, woken: Woken)
    | TimeOut(t: nat)
    | Spurious(t: nat)
    | ResetOverrun(t: nat)

  // ---------------------------------------------------------------- lock-protected bodies

  /** Body of enqueue once the mutex is held: store and go on to notify, or wait on pop_cv. */
  function PushOrPark<T>(s: Queue<T>, t: nat, item: T): Queue<T>
    requires t < |s.threads| && |s.items| <= s.capacity
  {
    if |s.items| == s.capacity then s.(threads := s.threads[t := ParkedPush(item)])
    else s.(items := Push(s.items, s.capacity, item), threads := s.threads[t := PushNotify])
  }

  /** Body of enqueue_nowait: store, losing the oldest item when full. */
  function PushNow<T>(s: Queue<T>, t: nat, item: T): Queue<T>
    requires t < |s.threads| && |s.items| <= s.capacity
  {
    s.(items := Push(s.items, s.capacity, item),
       overrun := s.overrun + if |s.items| == s.capacity then 1 else 0,
       threads := s.threads[t := PushNotify])
  }

  /** Body of dequeue_for: take the front item; else give up after a timeout, else wait on push_cv. */
  function PopOrPark<T>(s: Queue<T>, t: nat, timedOut: bool): Queue<T>
    requires t < |s.threads|
  {
    if s.items != [] then s.(items := s.items[1..], threads := s.threads[t := PopNotify(s.items[0])])
    else s.(threads := s.threads[t := if timedOut then Idle else ParkedPop])
  }

  // ---------------------------------------------------------------- transitions

  /** notify_one unblocks one blocked thread if there is any. */
  ghost predicate LegalWakeUp<T>(threads: seq<Thread<T>>, woken: Woken, kind: Kind) {
    match woken
    case Nobody => forall i :: 0 <= i < |threads| ==> KindOf(threads[i]) != kind
    case Somebody(j) => j < |threads| && KindOf(threads[j]) == kind
  }

  ghost predicate Enabled<T>(s: Queue<T>, a: Action<T>) {
    && a.t < |s.threads|
    && |s.items| <= s.capacity
    && var me := s.threads[a.t];
       match a
       case Enqueue(_, _) => me.Idle?
       case EnqueueNowait(_, _) => me.Idle?
       case ResumePush(_) => me.AwakePush?
       case Dequeue(_) => me.Idle?
       case ResumePop(_) => me.AwakePop?
       case NotifyPushCv(_, woken) => me.PushNotify? && LegalWakeUp(s.threads, woken, KParkedPop)
       case NotifyPopCv(_, woken) => me.PopNotify? && LegalWakeUp(s.threads, woken, KParkedPush)
       case TimeOut(_) => me.ParkedPop?
       case Spurious(_) => me.ParkedPop? || me.ParkedPush?
       case ResetOverrun(_) => me.Idle?
  }

  ghost function Unblocked<T>(t: Thread<T>): Thread<T> {
    if t.ParkedPush? then AwakePush(t.item) else AwakePop(false)
  }

  ghost function AfterNotify<T>(threads: seq<Thread<T>>, t: nat, woken: Woken): seq<Thread<T>>
    requires t < |threads| && (woken.Somebody? ==> woken.thread < |threads|)
  {
    var done := threads[t := Idle];
    if woken.Nobody? then done else done[woken.thread := Unblocked(threads[woken.thread])]
  }

  ghost function Apply<T>(s: Queue<T>, a: Action<T>): Queue<T>
    requires Enabled(s, a)
  {
    match a
    case Enqueue(t, item) => PushOrPark(s, t, item)
    case EnqueueNowait(t, item) => PushNow(s, t, item)
    case ResumePush(t) => PushOrPark(s, t, s.threads[t].item)
    case Dequeue(t) => PopOrPark(s, t, false)
    case ResumePop(t) => PopOrPark(s, t, s.threads[t].timedOut)
    case NotifyPushCv(t, woken) => s.(threads := AfterNotify(s.threads, t, woken))
    case NotifyPopCv(t, woken) => s.(threads := AfterNotify(s.threads, t, woken))
    case TimeOut(t) => s.(threads := s.threads[t := AwakePop(true)])
    case Spurious(t) => s.(threads := s.threads[t := Unblocked(s.threads[t])])
    case ResetOverrun(_) => s.(overrun := 0)
  }

  // ---------------------------------------------------------------- counting threads

  ghost function Count<T>(threads: seq<Thread<T>>, k: Kind): nat {
    if threads == [] then 0
    else Count(threads[1..], k) + if KindOf(threads[0]) == k then 1 else 0
  }

  ghost function One(b: bool): nat {
    if b then 1 else 0
  }

  lemma {:induction false} CountUpdate<T>(threads: seq<Thread<T>>, i: nat, x: Thread<T>, k: Kind)
    requires i < |threads|
    ensures Count(threads[i := x], k) + One(KindOf(threads[i]) == k) == Count(threads, k) + One(KindOf(x) == k)
  {
    if i == 0 {
      assert threads[i := x][1..] == threads[1..];
    } else {
      CountUpdate(threads[1..], i - 1, x, k);
      assert threads[i := x][1..] == threads[1..][i - 1 := x];
    }
  }

  lemma CountUpdateAll<T>(threads: seq<Thread<T>>, i: nat, x: Thread<T>)
    requires i < |threads|
    ensures forall k :: Count(threads[i := x], k) + One(KindOf(threads[i]) == k)
                        == Count(threads, k) + One(KindOf(x) == k)
  {
    forall k
      ensures Count(threads[i := x], k) + One(KindOf(threads[i]) == k) == Count(threads, k) + One(KindOf(x) == k)
    {
      CountUpdate(threads, i, x, k);
    }
  }

  lemma {:induction false} CountPositive<T>(threads: seq<Thread<T>>, i: nat, k: Kind)
    requires i < |threads| && KindOf(threads[i]) == k
    ensures Count(threads, k) >= 1
  {
    if i > 0 {
      CountPositive(threads[1..], i - 1, k);
    }
  }

  lemma {:induction false} CountZero<T>(threads: seq<Thread<T>>, k: Kind)
    requires forall i :: 0 <= i < |threads| ==> KindOf(threads[i]) != k
    ensures Count(threads, k) == 0
  {
    if threads != [] {
      CountZero(threads[1..], k);
    }
  }

  // ---------------------------------------------------------------- no lost wake-up

  ghost predicate Initial<T>(s: Queue<T>) {
    s.items == [] && s.overrun == 0 && forall i :: 0 <= i < |s.threads| ==> s.threads[i] == Idle
  }

  /** While a consumer is parked, every stored item is matched by an in-flight push notification or an awakened
      consumer; and symmetrically for parked producers and free cells. */
  ghost predicate NoLostWakeup<T>(s: Queue<T>) {
    && |s.items| <= s.capacity
    && (Count(s.threads, KParkedPop) > 0 ==>
          |s.items| <= Count(s.threads, KPushNotify) + Count(s.threads, KAwakePop))
    && (Count(s.threads, KParkedPush) > 0 ==>
          s.capacity - |s.items| <= Count(s.threads, KPopNotify) + Count(s.threads, KAwakePush))
  }

  lemma NotifyCounts<T>(threads: seq<Thread<T>>, t: nat, woken: Woken, kind: Kind)
    requires t < |threads| && LegalWakeUp(threads, woken, kind) && KindOf(threads[t]) != kind
    requires kind == KParkedPop || kind == KParkedPush
    ensures var after := AfterNotify(threads, t, woken);
            forall k :: Count(after, k) + One(KindOf(threads[t]) == k) + One(woken.Somebody? && kind == k)
                        == Count(threads, k) + One(k == KIdle)
                           + One(woken.Somebody? && k == if kind == KParkedPush then KAwakePush else KAwakePop)
    ensures woken.Nobody? ==> Count(AfterNotify(threads, t, woken), kind) == 0
  {
    var done := threads[t := Idle];
    CountUpdateAll(threads, t, Idle);
    if woken.Somebody? {
      CountUpdateAll(done, woken.thread, Unblocked(threads[woken.thread]));
    } else {
      CountZero(done, kind);
    }
  }

  lemma PushStep<T>(s: Queue<T>, t: nat, item: T)
    requires t < |s.threads| && NoLostWakeup(s) && KindOf(s.threads[t]) in {KIdle, KAwakePush}
    ensures NoLostWakeup(PushOrPark(s, t, item)) && NoLostWakeup(PushNow(s, t, item))
  {
    CountUpdateAll(s.threads, t, ParkedPush(item));
    CountUpdateAll(s.threads, t, PushNotify);
  }

  lemma PopStep<T>(s: Queue<T>, t: nat, timedOut: bool)
    requires t < |s.threads| && NoLostWakeup(s) && KindOf(s.threads[t]) in {KIdle, KAwakePop}
    ensures NoLostWakeup(PopOrPark(s, t, timedOut))
  {
    CountUpdateAll(s.threads, t, PopOrPark(s, t, timedOut).threads[t]);
  }

  lemma NotifyStep<T>(s: Queue<T>, t: nat, woken: Woken, kind: Kind)
    requires t < |s.threads| && NoLostWakeup(s) && LegalWakeUp(s.threads, woken, kind)
    requires (kind == KParkedPop && s.threads[t].PushNotify?) || (kind == KParkedPush && s.threads[t].PopNotify?)
    ensures NoLostWakeup(s.(threads := AfterNotify(s.threads, t, woken)))
  {
    NotifyCounts(s.threads, t, woken, kind);
  }

  lemma UnblockStep<T>(s: Queue<T>, t: nat, awake: Thread<T>)
    requires t < |s.threads| && NoLostWakeup(s)
    requires (s.threads[t].ParkedPop? && awake.AwakePop?) || (s.threads[t].ParkedPush? && awake.AwakePush?)
    ensures NoLostWakeup(s.(threads := s.threads[t := awake]))
  {
    CountUpdateAll(s.threads, t, awake);
  }

  lemma NoLostWakeupStep<T>(s: Queue<T>, a: Action<T>)
    requires Enabled(s, a) && NoLostWakeup(s)
    ensures NoLostWakeup(Apply(s, a))
  {
    match a
    case Enqueue(t, item) => PushStep(s, t, item);
    case EnqueueNowait(t, item) => PushStep(s, t, item);
    case ResumePush(t) => PushStep(s, t, s.threads[t].item);
    case Dequeue(t) => PopStep(s, t, false);
    case ResumePop(t) => PopStep(s, t, s.threads[t].timedOut);
    case NotifyPushCv(t, woken) => NotifyStep(s, t, woken, KParkedPop);
    case NotifyPopCv(t, woken) => NotifyStep(s, t, woken, KParkedPush);
    case TimeOut(t) => UnblockStep(s, t, AwakePop(true));
    case Spurious(t) => UnblockStep(s, t, Unblocked(s.threads[t]));
    case ResetOverrun(_) =>
  }

  // ---------------------------------------------------------------- runs

  ghost predicate IsRun<T>(s: Queue<T>, run: seq<Action<T>>)
    decreases |run|
  {
    run == [] || (Enabled(s, run[0]) && IsRun(Apply(s, run[0]), run[1..]))
  }

  ghost function Final<T>(s: Queue<T>, run: seq<Action<T>>): Queue<T>
    requires IsRun(s, run)
    decreases |run|
  {
    if run == [] then s else Final(Apply(s, run[0]), run[1..])
  }

  /** In every reachable state, for any number of producers and consumers. */
  lemma {:induction false} NoLostWakeupEver<T>(s: Queue<T>, run: seq<Action<T>>)
    requires IsRun(s, run) && (Initial(s) || NoLostWakeup(s))
    ensures NoLostWakeup(Final(s, run))
    decreases |run|
  {
    if Initial(s) {
      CountZero(s.threads, KParkedPop);
      CountZero(s.threads, KParkedPush);
    }
    if run != [] {
      NoLostWakeupStep(s, run[0]);
      NoLostWakeupEver(Apply(s, run[0]), run[1..]);
    }
  }

  /** Once every notification is delivered and every awakened thread has run, a parked consumer means an empty
      queue and a parked producer means a full one. */
  lemma QuiescentMeansNothingToDo<T>(s: Queue<T>, run: seq<Action<T>>, i: nat)
    requires IsRun(s, run) && Initial(s)
    requires var f := Final(s, run);
             i < |f.threads| && (f.threads[i].ParkedPop? || f.threads[i].ParkedPush?) &&
             forall j :: 0 <= j < |f.threads| ==>
               f.threads[j].Idle? || f.threads[j].ParkedPop? || f.threads[j].ParkedPush?
    ensures var f := Final(s, run);
            && (f.threads[i].ParkedPop? ==> f.items == [])
            && (f.threads[i].ParkedPush? ==> |f.items| == f.capacity)
  {
    NoLostWakeupEver(s, run);
    var f := Final(s, run);
    CountPositive(f.threads, i, KindOf(f.threads[i]));
    forall k | k in {KPushNotify, KAwakePop, KPopNotify, KAwakePush}
      ensures Count(f.threads, k) == 0
    {
      CountZero(f.threads, k);
    }
  }

  // ---------------------------------------------------------------- giving up

  /** dequeue_for ends without an item in this step. */
  ghost predicate GivesUp<T>(s: Queue<T>, a: Action<T>)
    requires Enabled(s, a)
  {
    (a.Dequeue? || a.ResumePop?) && Apply(s, a).threads[a.t].Idle?
  }

  /** It does so only when the queue is empty and the wait has timed out. */
  lemma GivesUpExactly<T>(s: Queue<T>, a: Action<T>)
    requires Enabled(s, a)
    ensures GivesUp(s, a) <==> a.ResumePop? && s.items == [] && s.threads[a.t] == AwakePop(true)
  {
  }

  /** Thread t takes a step of its own. */
  predicate ActsAs<T>(a: Action<T>, t: nat) {
    a.t == t
  }

  /** A thread whose wait counts as timed out has had a timeout, and has done nothing since. */
  lemma {:induction false} TimedOutEver<T>(s: Queue<T>, run: seq<Action<T>>, t: nat)
    requires IsRun(s, run) && t < |s.threads|
    ensures t < |Final(s, run).threads|
    ensures Final(s, run).threads[t] == AwakePop(true) ==>
              || (s.threads[t] == AwakePop(true) && forall j :: 0 <= j < |run| ==> !ActsAs(run[j], t))
              || exists i :: 0 <= i < |run| && run[i] == TimeOut(t)
                             && forall j :: i < j < |run| ==> !ActsAs(run[j], t)
    decreases |run|
  {
    if run != [] {
      var next, rest := Apply(s, run[0]), run[1..];
      ThreadsStay(s, run[0]);
      TimedOutStep(s, run[0], t);
      TimedOutEver(next, rest, t);
      assert forall j :: 0 <= j < |rest| ==> rest[j] == run[j + 1];
      if Final(s, run).threads[t] == AwakePop(true) {
        if i :| 0 <= i < |rest| && rest[i] == TimeOut(t) && forall j :: i < j < |rest| ==> !ActsAs(rest[j], t) {
          LaterSteps(run, i + 1, t);
        } else {
          LaterSteps(run, 0, t);
        }
      }
    }
  }

  lemma ThreadsStay<T>(s: Queue<T>, a: Action<T>)
    requires Enabled(s, a)
    ensures |Apply(s, a).threads| == |s.threads|
  {
  }

  lemma TimedOutStep<T>(s: Queue<T>, a: Action<T>, t: nat)
    requires Enabled(s, a) && t < |s.threads|
    ensures t < |Apply(s, a).threads|
    ensures Apply(s, a).threads[t] == AwakePop(true) ==>
              a == TimeOut(t) || (s.threads[t] == AwakePop(true) && !ActsAs(a, t))
  {
    ThreadsStay(s, a);
  }

  lemma LaterSteps<T>(run: seq<Action<T>>, i: nat, t: nat)
    requires i < |run| && forall j :: i <= j < |run[1..]| ==> !ActsAs(run[1..][j], t)
    ensures forall j :: i < j < |run| ==> !ActsAs(run[j], t)
  {
    forall j | i < j < |run|
      ensures !ActsAs(run[j], t)
    {
      assert run[j] == run[1..][j - 1];
    }
  }

  /** A consumer gives up only after a timeout of its own wait, and after that it did nothing else; a notification or a
      spurious wake-up never makes it give up. */
  lemma GivesUpOnlyAfterTimeOut<T>(s: Queue<T>, run: seq<Action<T>>, a: Action<T>)
    requires IsRun(s, run) && Initial(s) && Enabled(Final(s, run), a) && GivesUp(Final(s, run), a)
    ensures Final(s, run).items == []
    ensures exists i :: 0 <= i < |run| && run[i] == TimeOut(a.t)
                        && forall j :: i < j < |run| ==> !ActsAs(run[j], a.t)
  {
    GivesUpExactly(Final(s, run), a);
    SameThreads(s, run);
    TimedOutEver(s, run, a.t);
  }

  lemma {:induction false} SameThreads<T>(s: Queue<T>, run: seq<Action<T>>)
    requires IsRun(s, run)
    ensures |Final(s, run).threads| == |s.threads|
    decreases |run|
  {
    if run != [] {
      ThreadsStay(s, run[0]);
      SameThreads(Apply(s, run[0]), run[1..]);
    }
  }

  // ---------------------------------------------------------------- conservation and order

  /** An item leaves from the front, either taken by a consumer or overrun by a producer that does not wait. */
  datatype Departure<T> = Departure(item: T, overrun: bool)

  ghost predicate Stores<T>(s: Queue<T>, a: Action<T>)
    requires Enabled(s, a)
  {
    a.EnqueueNowait? || ((a.Enqueue? || a.ResumePush?) && Apply(s, a).threads[a.t] == PushNotify)
  }

  ghost function Entering<T>(s: Queue<T>, a: Action<T>): seq<T>
    requires Enabled(s, a)
  {
    if !Stores(s, a) then [] else [if a.ResumePush? then s.threads[a.t].item else a.item]
  }

  ghost function Leaving<T>(s: Queue<T>, a: Action<T>): seq<Departure<T>>
    requires Enabled(s, a)
  {
    if (a.Dequeue? || a.ResumePop?) && s.items != [] then [Departure(s.items[0], false)]
    else if a.EnqueueNowait? && |s.items| == s.capacity then [Departure((s.items + [a.item])[0], true)]
    else []
  }

  ghost function Entered<T>(s: Queue<T>, run: seq<Action<T>>): seq<T>
    requires IsRun(s, run)
    decreases |run|
  {
    if run == [] then [] else Entering(s, run[0]) + Entered(Apply(s, run[0]), run[1..])
  }

  ghost function Left<T>(s: Queue<T>, run: seq<Action<T>>): seq<Departure<T>>
    requires IsRun(s, run)
    decreases |run|
  {
    if run == [] then [] else Leaving(s, run[0]) + Left(Apply(s, run[0]), run[1..])
  }

  ghost function Items<T>(log: seq<Departure<T>>): seq<T> {
    seq(|log|, i requires 0 <= i < |log| => log[i].item)
  }

  ghost function Overruns<T>(log: seq<Departure<T>>): nat {
    if log == [] then 0 else One(log[0].overrun) + Overruns(log[1..])
  }

  ghost function Taken<T>(log: seq<Departure<T>>): seq<T> {
    if log == [] then [] else (if log[0].overrun then [] else [log[0].item]) + Taken(log[1..])
  }

  lemma {:induction false} OverrunsConcat<T>(a: seq<Departure<T>>, b: seq<Departure<T>>)
    ensures Overruns(a + b) == Overruns(a) + Overruns(b)
  {
    if a == [] {
      assert a + b == b;
    } else {
      OverrunsConcat(a[1..], b);
      assert (a + b)[1..] == a[1..] + b;
    }
  }

  /** One step: what was stored followed by what enters is what leaves followed by what is stored then. */
  lemma FifoStep<T>(s: Queue<T>, a: Action<T>)
    requires Enabled(s, a)
    ensures s.items + Entering(s, a) == Items(Leaving(s, a)) + Apply(s, a).items
    ensures !a.ResetOverrun? ==> Apply(s, a).overrun == s.overrun + Overruns(Leaving(s, a))
  {
    var out := Leaving(s, a);
    assert out != [] ==> Items(out) == [out[0].item];
  }

  /** Chaining two "stored ++ entering == leaving ++ stored" equations. */
  lemma Chain<T>(s0: seq<T>, in1: seq<T>, out1: seq<T>, s1: seq<T>, in2: seq<T>, out2: seq<T>, s2: seq<T>)
    requires s0 + in1 == out1 + s1 && s1 + in2 == out2 + s2
    ensures s0 + (in1 + in2) == (out1 + out2) + s2
  {
    assert s0 + (in1 + in2) == (s0 + in1) + in2;
    assert (out1 + s1) + in2 == out1 + (s1 + in2);
    assert out1 + (out2 + s2) == (out1 + out2) + s2;
  }

  lemma ItemsConcat<T>(a: seq<Departure<T>>, b: seq<Departure<T>>)
    ensures Items(a + b) == Items(a) + Items(b)
  {
  }

  /** Over a whole run: first in, first out, nothing lost and nothing invented. */
  lemma {:induction false} FifoEver<T>(s: Queue<T>, run: seq<Action<T>>)
    requires IsRun(s, run)
    ensures s.items + Entered(s, run) == Items(Left(s, run)) + Final(s, run).items
    decreases |run|
  {
    if run == [] {
      assert Items(Left(s, run)) == [];
    } else {
      var next := Apply(s, run[0]);
      var one, rest := Leaving(s, run[0]), Left(next, run[1..]);
      FifoStep(s, run[0]);
      FifoEver(next, run[1..]);
      ItemsConcat(one, rest);
      Chain(s.items, Entering(s, run[0]), Items(one), next.items,
            Entered(next, run[1..]), Items(rest), Final(next, run[1..]).items);
    }
  }

  /** Without a reset the counter grows by exactly the number of overrun items. */
  lemma {:induction false} OverrunCounterEver<T>(s: Queue<T>, run: seq<Action<T>>)
    requires IsRun(s, run) && forall i :: 0 <= i < |run| ==> !run[i].ResetOverrun?
    ensures Final(s, run).overrun == s.overrun + Overruns(Left(s, run))
    decreases |run|
  {
    if run != [] {
      FifoStep(s, run[0]);
      OverrunCounterEver(Apply(s, run[0]), run[1..]);
      OverrunsConcat(Leaving(s, run[0]), Left(Apply(s, run[0]), run[1..]));
    }
  }

  lemma {:induction false} TakenCount<T>(log: seq<Departure<T>>)
    ensures |Taken(log)| + Overruns(log) == |log|
    ensures Overruns(log) == 0 ==> Taken(log) == Items(log)
  {
    if log != [] {
      TakenCount(log[1..]);
      assert Overruns(log) == 0 ==> Items(log) == [log[0].item] + Items(log[1..]);
    }
  }

  /** enqueued = dequeued + stored + overrun, and what is stored is a suffix of what was enqueued. */
  lemma Conservation<T>(s: Queue<T>, run: seq<Action<T>>)
    requires Initial(s) && IsRun(s, run) && forall i :: 0 <= i < |run| ==> !run[i].ResetOverrun?
    ensures var f := Final(s, run);
            var entered := Entered(s, run);
            && |entered| == |Taken(Left(s, run))| + |f.items| + f.overrun
            && |f.items| <= |entered| && f.items == entered[|entered| - |f.items|..]
  {
    FifoEver(s, run);
    OverrunCounterEver(s, run);
    TakenCount(Left(s, run));
    assert s.items + Entered(s, run) == Entered(s, run);
  }

  lemma {:induction false} NoOverruns<T>(s: Queue<T>, run: seq<Action<T>>)
    requires IsRun(s, run) && forall i :: 0 <= i < |run| ==> !run[i].EnqueueNowait?
    ensures Overruns(Left(s, run)) == 0
    decreases |run|
  {
    if run != [] {
      NoOverruns(Apply(s, run[0]), run[1..]);
      OverrunsConcat(Leaving(s, run[0]), Left(Apply(s, run[0]), run[1..]));
    }
  }

  /** With the blocking operation alone, consumers take exactly what was enqueued, in that order. */
  lemma BlockingQueueIsLossless<T>(s: Queue<T>, run: seq<Action<T>>)
    requires Initial(s) && IsRun(s, run) && forall i :: 0 <= i < |run| ==> !run[i].EnqueueNowait?
    ensures Taken(Left(s, run)) + Final(s, run).items == Entered(s, run)
  {
    FifoEver(s, run);
    NoOverruns(s, run);
    TakenCount(Left(s, run));
    assert s.items + Entered(s, run) == Entered(s, run);
  }

  // ---------------------------------------------------------------- the class behind the machine

  datatype Popped<T> = Nothing | Item(value: T)

  /** The queue object. Each method is what one call does while it holds the mutex; it decides the next state of the
      calling thread exactly as the functions above do. */
  class MpmcBlockingQueue<T(0)> {
    var q: CircularQ<T>

    ghost predicate Valid()
      reads this, q
    {
      q.Valid() && q.maxItems > 0
    }

    /** The abstract queue, for a given set of threads. */
    ghost function Abs(threads: seq<Thread<T>>): Queue<T>
      reads this, q, q.v
      requires Valid()
    {
      Queue(q.Capacity(), q.Contents(), q.overrunCounter, threads)
    }

    constructor (maxItems: nat)
      ensures Valid() && fresh(q) && fresh(q.v)
      ensures forall threads :: Abs(threads) == Queue(maxItems, [], 0, threads)
    {
      q := new CircularQ<T>(maxItems);
    }

    /** Under the mutex in enqueue: `waits` tells that the predicate failed and the thread blocks on pop_cv. */
    method EnqueueLocked(item: T, ghost threads: seq<Thread<T>>, ghost t: nat) returns (waits: bool)
      requires Valid() && t < |threads|
      modifies q, q.v
      ensures Valid()
      ensures Abs(threads[t := if waits then ParkedPush(item) else PushNotify])
              == PushOrPark(old(Abs(threads)), t, item)
    {
      waits := q.Full();
      if !waits {
        q.PushBack(item);
      }
    }

    method EnqueueNowaitLocked(item: T, ghost threads: seq<Thread<T>>, ghost t: nat)
      requires Valid() && t < |threads|
      modifies q, q.v
      ensures Valid() && Abs(threads[t := PushNotify]) == PushNow(old(Abs(threads)), t, item)
    {
      q.PushBack(item);
    }

    /** Under the mutex in dequeue_for: take the front item, or nothing when the predicate fails. */
    method DequeueLocked(timedOut: bool, ghost threads: seq<Thread<T>>, ghost t: nat) returns (r: Popped<T>)
      requires Valid() && t < |threads|
      modifies q`head
      ensures Valid()
      ensures Abs(threads[t := if r.Item? then PopNotify(r.value) else if timedOut then Idle else ParkedPop])
              == PopOrPark(old(Abs(threads)), t, timedOut)
    {
      var isEmpty := q.Empty();
      if isEmpty {
        return Nothing;
      }
      var front := q.Front();
      q.PopFront();
      return Item(front);
    }

    method ResetOverrunCounter(ghost threads: seq<Thread<T>>)
      requires Valid()
      modifies q`overrunCounter
      ensures Valid() && Abs(threads) == old(Abs(threads)).(overrun := 0)
    {
      q.ResetOverrunCounter();
    }
  }
}
