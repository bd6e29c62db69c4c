/** What becomes of a message: from the call that posts it, through the queue, to the worker that has processed it. */
module PoolMessages {
  import opened BlockingQueue
  import opened ThreadPool
  import opened PoolShutdown

  // ---------------------------------------------------------------- where a message can be

  /** Threads that wait for room to store message m. */
  ghost function Waiting(threads: seq<Thread<AsyncMsg>>, m: AsyncMsg): nat {
    if threads == [] then 0
    else One(threads[0] == ParkedPush(m) || threads[0] == AwakePush(m)) + Waiting(threads[1..], m)
  }

  /** Threads that have taken message m from the queue and are still inside dequeue_for. */
  ghost function Popped(threads: seq<Thread<AsyncMsg>>, m: AsyncMsg): nat {
    if threads == [] then 0 else One(threads[0] == PopNotify(m)) + Popped(threads[1..], m)
  }

  /** Workers that are processing message m. */
  ghost function Worked(workers: seq<Worker>, m: AsyncMsg): nat {
    if workers == [] then 0 else One(workers[0] == Processing(m)) + Worked(workers[1..], m)
  }

  ghost function InHand(p: Pool, m: AsyncMsg): nat {
    Popped(p.q.threads, m) + Worked(p.workers, m)
  }

  lemma {:induction false} WaitingUpdate(s: seq<Thread<AsyncMsg>>, i: nat, x: Thread<AsyncMsg>, m: AsyncMsg)
    requires i < |s|
    ensures Waiting(s[i := x], m) + One(s[i] == ParkedPush(m) || s[i] == AwakePush(m))
            == Waiting(s, m) + One(x == ParkedPush(m) || x == AwakePush(m))
  {
    if i == 0 {
      assert s[i := x][1..] == s[1..];
    } else {
      WaitingUpdate(s[1..], i - 1, x, m);
      assert s[i := x][1..] == s[1..][i - 1 := x];
    }
  }

  lemma {:induction false} PoppedUpdate(s: seq<Thread<AsyncMsg>>, i: nat, x: Thread<AsyncMsg>, m: AsyncMsg)
    requires i < |s|
    ensures Popped(s[i := x], m) + One(s[i] == PopNotify(m)) == Popped(s, m) + One(x == PopNotify(m))
  {
    if i == 0 {
      assert s[i := x][1..] == s[1..];
    } else {
      PoppedUpdate(s[1..], i - 1, x, m);
      assert s[i := x][1..] == s[1..][i - 1 := x];
    }
  }

  lemma {:induction false} WorkedUpdate(s: seq<Worker>, i: nat, x: Worker, m: AsyncMsg)
    requires i < |s|
    ensures Worked(s[i := x], m) + One(s[i] == Processing(m)) == Worked(s, m) + One(x == Processing(m))
  {
    if i == 0 {
      assert s[i := x][1..] == s[1..];
    } else {
      WorkedUpdate(s[1..], i - 1, x, m);
      assert s[i := x][1..] == s[1..][i - 1 := x];
    }
  }

  /** A notification moves a waiting thread on, with its message. */
  lemma NotifyKeepsMessages(threads: seq<Thread<AsyncMsg>>, t: nat, woken: Woken, kind: Kind, m: AsyncMsg)
    requires t < |threads| && LegalWakeUp(threads, woken, kind) && kind in {KParkedPop, KParkedPush}
    requires KindOf(threads[t]) in {KPushNotify, KPopNotify}
    ensures Waiting(AfterNotify(threads, t, woken), m) == Waiting(threads, m)
    ensures Popped(AfterNotify(threads, t, woken), m) + One(threads[t] == PopNotify(m)) == Popped(threads, m)
  {
    var done := threads[t := Idle];
    WaitingUpdate(threads, t, Idle, m);
    PoppedUpdate(threads, t, Idle, m);
    if woken.Somebody? {
      assert done[woken.thread] == threads[woken.thread];
      WaitingUpdate(done, woken.thread, Unblocked(threads[woken.thread]), m);
      PoppedUpdate(done, woken.thread, Unblocked(threads[woken.thread]), m);
    }
  }

  // ---------------------------------------------------------------- from the post into the queue

  /** How often message m is posted in a run. */
  ghost function Posted(run: seq<PoolAction>, m: AsyncMsg): nat {
    if run == [] then 0 else One(run[0].Post? && run[0].msg == m) + Posted(run[1..], m)
  }

  ghost function CountIn(items: seq<AsyncMsg>, m: AsyncMsg): nat {
    multiset(items)[m]
  }

  lemma CountInAppend(a: seq<AsyncMsg>, b: seq<AsyncMsg>, m: AsyncMsg)
    ensures CountIn(a + b, m) == CountIn(a, m) + CountIn(b, m)
  {
    assert multiset(a + b) == multiset(a) + multiset(b);
  }

  /** One thread changes and nobody is notified. */
  lemma OneThreadWaits(p: Pool, r: Pool, t: nat, m: AsyncMsg)
    requires t < |p.q.threads| && |r.q.threads| == |p.q.threads|
    requires r.q.threads == p.q.threads[t := r.q.threads[t]]
    ensures Waiting(r.q.threads, m) + One(p.q.threads[t] == ParkedPush(m) || p.q.threads[t] == AwakePush(m))
            == Waiting(p.q.threads, m) + One(r.q.threads[t] == ParkedPush(m) || r.q.threads[t] == AwakePush(m))
    ensures Popped(r.q.threads, m) + One(p.q.threads[t] == PopNotify(m))
            == Popped(p.q.threads, m) + One(r.q.threads[t] == PopNotify(m))
  {
    WaitingUpdate(p.q.threads, t, r.q.threads[t], m);
    PoppedUpdate(p.q.threads, t, r.q.threads[t], m);
  }

  /** The thread a step inside the queue belongs to. */
  function Actor(p: Pool, a: PoolAction): nat {
    match a
    case Post(c, _, _) => ClientThread(p, c)
    case PostTerminate => DtorThread(p)
    case LoopTop(w) => w
    case Receive(w, _) => w
    case Internal(step) => step.t
    case _ => 0
  }

  predicate Notifies(a: PoolAction) {
    a.Receive? || (a.Internal? && a.step.NotifyPushCv?)
  }

  predicate InQueue(a: PoolAction) {
    a.Post? || a.PostTerminate? || a.LoopTop? || a.Internal?
  }

  lemma ActorChanges(p: Pool, a: PoolAction)
    requires Inv(p) && CanStep(p, a) && InQueue(a) && !Notifies(a)
    ensures var r, t := Step(p, a), Actor(p, a);
            t < |p.q.threads| && |r.q.threads| == |p.q.threads| && r.q.threads == p.q.threads[t := r.q.threads[t]]
            && r.workers == p.workers
  {
  }

  lemma NotifyPostStep(p: Pool, a: PoolAction, m: AsyncMsg)
    requires Inv(p) && CanStep(p, a) && Notifies(a)
    ensures EnteringPool(p, a) == [] && Waiting(p.q.threads, m) == Waiting(Step(p, a).q.threads, m)
  {
    NotifyKeepsMessages(p.q.threads, Actor(p, a), if a.Receive? then a.woken else a.step.woken,
                        if a.Receive? then KParkedPush else KParkedPop, m);
  }

  /** A client's post: the message is stored, or the thread waits with it. */
  lemma ClientPostStep(p: Pool, a: PoolAction, m: AsyncMsg)
    requires Inv(p) && CanStep(p, a) && a.Post?
    ensures One(a.msg == m) + Waiting(p.q.threads, m)
            == CountIn(EnteringPool(p, a), m) + Waiting(Step(p, a).q.threads, m)
  {
    ActorChanges(p, a);
    OneThreadWaits(p, Step(p, a), Actor(p, a), m);
  }

  lemma ResumePostStep(p: Pool, a: PoolAction, m: AsyncMsg)
    requires Inv(p) && CanStep(p, a) && a.Internal? && a.step.ResumePush?
    ensures Waiting(p.q.threads, m) == CountIn(EnteringPool(p, a), m) + Waiting(Step(p, a).q.threads, m)
  {
    ActorChanges(p, a);
    OneThreadWaits(p, Step(p, a), Actor(p, a), m);
  }

  lemma InsidePostStep(p: Pool, a: PoolAction, m: AsyncMsg)
    requires Inv(p) && CanStep(p, a) && a.Internal? && !Notifies(a)
    ensures Waiting(p.q.threads, m) == CountIn(EnteringPool(p, a), m) + Waiting(Step(p, a).q.threads, m)
  {
    if a.step.ResumePush? {
      ResumePostStep(p, a, m);
    } else {
      ActorChanges(p, a);
      OneThreadWaits(p, Step(p, a), Actor(p, a), m);
      assert EnteringPool(p, a) == [];
    }
  }

  lemma EntryPostStep(p: Pool, a: PoolAction, m: AsyncMsg)
    requires Inv(p) && CanStep(p, a) && (a.PostTerminate? || a.LoopTop?) && !m.Terminate?
    ensures Waiting(p.q.threads, m) == CountIn(EnteringPool(p, a), m) + Waiting(Step(p, a).q.threads, m)
  {
    ActorChanges(p, a);
    OneThreadWaits(p, Step(p, a), Actor(p, a), m);
  }

  /** A step posts, stores, or leaves a message waiting: posted + waiting before = stored + waiting after. */
  lemma PostStep(p: Pool, a: PoolAction, m: AsyncMsg)
    requires Inv(p) && CanStep(p, a) && !m.Terminate?
    ensures One(a.Post? && a.msg == m) + Waiting(p.q.threads, m)
            == CountIn(EnteringPool(p, a), m) + Waiting(Step(p, a).q.threads, m)
  {
    if Notifies(a) {
      NotifyPostStep(p, a, m);
    } else if a.Post? {
      ClientPostStep(p, a, m);
    } else if a.Internal? {
      InsidePostStep(p, a, m);
    } else if InQueue(a) {
      EntryPostStep(p, a, m);
    }
  }

  /** Over any run: what is posted is stored or still waits for room. */
  lemma {:induction false} PostedIsStored(p: Pool, run: seq<PoolAction>, m: AsyncMsg)
    requires Inv(p) && PoolRun(p, run) && !m.Terminate?
    ensures IsRun(p.q, QueueRun(p, run))
    ensures Posted(run, m) + Waiting(p.q.threads, m)
            == CountIn(Entered(p.q, QueueRun(p, run)), m) + Waiting(PoolFinal(p, run).q.threads, m)
    decreases |run|
  {
    PoolRunsTheQueue(p, run);
    if run != [] {
      var next, rest := Step(p, run[0]), run[1..];
      PostStep(p, run[0], m);
      InvStep(p, run[0]);
      PostedIsStored(next, rest, m);
      EnteredUnfold(p, run);
      CountInAppend(EnteringPool(p, run[0]), Entered(next.q, QueueRun(next, rest)), m);
    }
  }

  /** A post that must not block stores its message at once; only a blocking one may be left waiting, and then with its
      message, because the queue is full. */
  lemma OnlyBlockingPostsWait(p: Pool, a: PoolAction)
    requires Inv(p) && CanStep(p, a) && a.Post?
    ensures Actor(p, a) < |Step(p, a).q.threads|
    ensures var me := Step(p, a).q.threads[Actor(p, a)];
            if a.block && |p.q.items| == p.q.capacity then me == ParkedPush(a.msg) && EnteringPool(p, a) == []
            else me == PushNotify && EnteringPool(p, a) == [a.msg]
  {
  }

  // ---------------------------------------------------------------- from the queue to the end of its processing

  /** How often the processing of message m is completed in a run. */
  ghost function Processed(p: Pool, run: seq<PoolAction>, m: AsyncMsg): nat
    requires PoolRun(p, run)
    decreases |run|
  {
    if run == [] then 0
    else One(Completes(p, run[0], m)) + Processed(Step(p, run[0]), run[1..], m)
  }

  ghost predicate Completes(p: Pool, a: PoolAction, m: AsyncMsg) {
    a.Processed? && a.w < N(p) && p.workers[a.w] == Processing(m)
  }

  ghost function TakenInStep(p: Pool, a: PoolAction): seq<AsyncMsg>
    requires CanStep(p, a)
  {
    if QueueAction(p, a) == [] then [] else Taken(Leaving(p.q, QueueAction(p, a)[0]))
  }

  lemma {:induction false} TakenAppend(a: seq<Departure<AsyncMsg>>, b: seq<Departure<AsyncMsg>>)
    ensures Taken(a + b) == Taken(a) + Taken(b)
  {
    if a == [] {
      assert a + b == b;
    } else {
      assert (a + b)[0] == a[0] && (a + b)[1..] == a[1..] + b;
      TakenAppend(a[1..], b);
      var one: seq<AsyncMsg> := if a[0].overrun then [] else [a[0].item];
      assert one + (Taken(a[1..]) + Taken(b)) == (one + Taken(a[1..])) + Taken(b);
    }
  }

  lemma TakenUnfold(p: Pool, run: seq<PoolAction>)
    requires PoolRun(p, run) && run != []
    ensures var next, rest := Step(p, run[0]), run[1..];
            && IsRun(p.q, QueueRun(p, run)) && IsRun(next.q, QueueRun(next, rest))
            && Taken(Left(p.q, QueueRun(p, run))) == TakenInStep(p, run[0]) + Taken(Left(next.q, QueueRun(next, rest)))
  {
    var next, rest := Step(p, run[0]), run[1..];
    var action, queueRest := QueueAction(p, run[0]), QueueRun(next, rest);
    PoolRunsTheQueue(p, run);
    PoolRunsTheQueue(next, rest);
    assert QueueRun(p, run) == action + queueRest;
    if action == [] {
      assert action + queueRest == queueRest;
      assert next.q == p.q;
    } else {
      assert action == [action[0]] && next.q == Apply(p.q, action[0]);
      assert (action + queueRest)[1..] == queueRest;
      TakenAppend(Leaving(p.q, action[0]), Left(next.q, queueRest));
    }
  }

  lemma TakingStep(p: Pool, a: PoolAction, m: AsyncMsg)
    requires Inv(p) && CanStep(p, a) && InQueue(a) && !Notifies(a)
    ensures CountIn(TakenInStep(p, a), m) + InHand(p, m) == InHand(Step(p, a), m)
  {
    ActorChanges(p, a);
    OneThreadWaits(p, Step(p, a), Actor(p, a), m);
    assert RoleOk(p.workers, p.clients, p.dtor, Actor(p, a), p.q.threads[Actor(p, a)]);
    WhatIsTaken(p, a);
  }

  /** Only a worker's step takes, and then the first item, which is in its hands afterwards. */
  lemma WhatIsTaken(p: Pool, a: PoolAction)
    requires Inv(p) && CanStep(p, a) && InQueue(a) && !Notifies(a)
    ensures Actor(p, a) < |Step(p, a).q.threads|
    ensures var r := Step(p, a).q.threads[Actor(p, a)];
            TakenInStep(p, a) == if r.PopNotify? then [r.popped] else []
  {
    var action := QueueAction(p, a)[0];
    var left := Leaving(p.q, action);
    if left != [] {
      TakenOfOne(left[0]);
      assert left == [left[0]];
    }
  }

  lemma TakenOfOne(d: Departure<AsyncMsg>)
    ensures Taken([d]) == if d.overrun then [] else [d.item]
  {
    assert [d][1..] == [];
  }

  /** Receiving moves the message from the queue's hands into the worker's, unless it is a terminate message. */
  lemma ReceivingStep(p: Pool, a: PoolAction, m: AsyncMsg)
    requires Inv(p) && CanStep(p, a) && a.Receive? && !m.Terminate?
    ensures TakenInStep(p, a) == [] && InHand(Step(p, a), m) == InHand(p, m)
  {
    NotifyKeepsMessages(p.q.threads, a.w, a.woken, KParkedPush, m);
    WorkedUpdate(p.workers, a.w, Step(p, a).workers[a.w], m);
    assert Leaving(p.q, QueueAction(p, a)[0]) == [];
  }

  lemma NotifyingStep(p: Pool, a: PoolAction, m: AsyncMsg)
    requires Inv(p) && CanStep(p, a) && a.Internal? && a.step.NotifyPushCv?
    ensures TakenInStep(p, a) == [] && InHand(Step(p, a), m) == InHand(p, m)
  {
    NotifyKeepsMessages(p.q.threads, a.step.t, a.step.woken, KParkedPop, m);
    assert Leaving(p.q, QueueAction(p, a)[0]) == [];
  }

  lemma OutsideStep(p: Pool, a: PoolAction, m: AsyncMsg)
    requires Inv(p) && CanStep(p, a) && !InQueue(a) && !a.Receive?
    ensures TakenInStep(p, a) == []
    ensures InHand(p, m) == InHand(Step(p, a), m) + One(Completes(p, a, m))
  {
    if a.Processed? {
      WorkedUpdate(p.workers, a.w, Looping, m);
    }
  }

  /** A step takes a message, or completes one: taken + in hand before = completed + in hand after. */
  lemma HandStep(p: Pool, a: PoolAction, m: AsyncMsg)
    requires Inv(p) && CanStep(p, a) && !m.Terminate?
    ensures CountIn(TakenInStep(p, a), m) + InHand(p, m) == One(Completes(p, a, m)) + InHand(Step(p, a), m)
  {
    if a.Receive? {
      ReceivingStep(p, a, m);
    } else if Notifies(a) {
      NotifyingStep(p, a, m);
    } else if InQueue(a) {
      TakingStep(p, a, m);
    } else {
      OutsideStep(p, a, m);
    }
  }

  /** Over any run: what the workers take from the queue they have processed or still have in hand. */
  lemma {:induction false} TakenIsProcessed(p: Pool, run: seq<PoolAction>, m: AsyncMsg)
    requires Inv(p) && PoolRun(p, run) && !m.Terminate?
    ensures IsRun(p.q, QueueRun(p, run))
    ensures CountIn(Taken(Left(p.q, QueueRun(p, run))), m) + InHand(p, m)
            == Processed(p, run, m) + InHand(PoolFinal(p, run), m)
    decreases |run|
  {
    PoolRunsTheQueue(p, run);
    if run != [] {
      var next, rest := Step(p, run[0]), run[1..];
      HandStep(p, run[0], m);
      InvStep(p, run[0]);
      TakenIsProcessed(next, rest, m);
      TakenUnfold(p, run);
      CountInAppend(TakenInStep(p, run[0]), Taken(Left(next.q, QueueRun(next, rest))), m);
    }
  }

  // ---------------------------------------------------------------- nothing is left

  lemma {:induction false} NobodyHolds(threads: seq<Thread<AsyncMsg>>, workers: seq<Worker>, m: AsyncMsg)
    requires forall t :: 0 <= t < |threads| ==> threads[t].Idle?
    requires forall w :: 0 <= w < |workers| ==> !workers[w].Processing?
    ensures Waiting(threads, m) == 0 && Popped(threads, m) == 0 && Worked(workers, m) == 0
    decreases |threads| + |workers|
  {
    if threads != [] {
      NobodyHolds(threads[1..], workers, m);
    } else if workers != [] {
      NobodyHolds(threads, workers[1..], m);
    }
  }

  /** A pool whose destructor has finished holds no message anywhere. */
  lemma FinishedHoldsNothing(p: Pool, m: AsyncMsg)
    requires Inv(p) && N(p) >= 1 && p.dtor.Finished? && !m.Terminate?
    ensures p.q.items == [] && Waiting(p.q.threads, m) == 0 && InHand(p, m) == 0
  {
    AllExited(p);
    forall t | 0 <= t < |p.q.threads|
      ensures p.q.threads[t].Idle?
    {
      assert RoleOk(p.workers, p.clients, p.dtor, t, p.q.threads[t]);
      if N(p) <= t < DtorThread(p) {
        assert p.clients[t - N(p)] != Holding(true);
      }
    }
    NobodyHolds(p.q.threads, p.workers, m);
  }

  /** The whole shutdown, message by message: whatever was stored or in hand when the destructor started has been
      processed exactly as often when it is finished. */
  lemma ShutdownProcessesEverything(p: Pool, run: seq<PoolAction>, m: AsyncMsg)
    requires Inv(p) && N(p) >= 1 && p.dtor == Posting(0) && PoolRun(p, run) && PoolFinal(p, run).dtor.Finished?
    requires !m.Terminate?
    ensures Processed(p, run, m) == CountIn(p.q.items, m) + InHand(p, m)
  {
    PoolInvariantEver(p, run);
    DrainThenTerminate(p, run);
    TakenIsProcessed(p, run, m);
    FinishedHoldsNothing(PoolFinal(p, run), m);
    CountInAppend(p.q.items, Copies(N(p)), m);
    OnlyTerminates(N(p), m);
  }

  lemma OnlyTerminates(n: nat, m: AsyncMsg)
    requires !m.Terminate?
    ensures CountIn(Copies(n), m) == 0
  {
    assert m !in Copies(n);
  }

  /** At any time in the life of a pool with blocking posts, every posted message has been processed, is in a worker's
      hands, is stored, or waits for room; each exactly as often as it was posted. */
  lemma PostedIsSomewhere(capacity: nat, threads: nat, clients: nat, run: seq<PoolAction>, m: AsyncMsg)
    requires 1 <= threads <= 1000 && !m.Terminate?
    requires PoolRun(Construct(capacity, threads, clients).pool, run)
    requires forall i :: 0 <= i < |run| && run[i].Post? ==> run[i].block
    ensures var p := Construct(capacity, threads, clients).pool;
            var f := PoolFinal(p, run);
            Posted(run, m) ==
              Processed(p, run, m) + InHand(f, m) + CountIn(f.q.items, m) + Waiting(f.q.threads, m)
  {
    var p := Construct(capacity, threads, clients).pool;
    InitialInv(capacity, threads, clients);
    PoolLife(capacity, threads, clients, run);
    NewPoolHoldsNothing(capacity, threads, clients, m);
    SomewhereFrom(p, run, m);
  }

  lemma NewPoolHoldsNothing(capacity: nat, threads: nat, clients: nat, m: AsyncMsg)
    requires 1 <= threads <= 1000
    ensures var p := Construct(capacity, threads, clients).pool;
            InHand(p, m) == 0 && Waiting(p.q.threads, m) == 0
  {
    var p := Construct(capacity, threads, clients).pool;
    NobodyHolds(p.q.threads, p.workers, m);
  }

  lemma SomewhereFrom(p: Pool, run: seq<PoolAction>, m: AsyncMsg)
    requires Inv(p) && PoolRun(p, run) && !m.Terminate?
    requires InHand(p, m) == 0 && Waiting(p.q.threads, m) == 0
    requires IsRun(p.q, QueueRun(p, run))
    requires Taken(Left(p.q, QueueRun(p, run))) + PoolFinal(p, run).q.items == Entered(p.q, QueueRun(p, run))
    ensures var f := PoolFinal(p, run);
            Posted(run, m) ==
              Processed(p, run, m) + InHand(f, m) + CountIn(f.q.items, m) + Waiting(f.q.threads, m)
  {
    PostedIsStored(p, run, m);
    TakenIsProcessed(p, run, m);
    CountInAppend(Taken(Left(p.q, QueueRun(p, run))), PoolFinal(p, run).q.items, m);
  }

  /** When the destructor has finished, every message was processed exactly as often as it was posted. */
  lemma PostedIsProcessed(capacity: nat, threads: nat, clients: nat, run: seq<PoolAction>, m: AsyncMsg)
    requires 1 <= threads <= 1000 && !m.Terminate?
    requires PoolRun(Construct(capacity, threads, clients).pool, run)
    requires forall i :: 0 <= i < |run| && run[i].Post? ==> run[i].block
    requires PoolFinal(Construct(capacity, threads, clients).pool, run).dtor.Finished?
    ensures Processed(Construct(capacity, threads, clients).pool, run, m) == Posted(run, m)
  {
    var p := Construct(capacity, threads, clients).pool;
    InitialInv(capacity, threads, clients);
    PoolInvariantEver(p, run);
    PostedIsSomewhere(capacity, threads, clients, run, m);
    FinishedHoldsNothing(PoolFinal(p, run), m);
  }

  // ---------------------------------------------------------------- one worker

  /** The messages among the items of the queue. */
  function Messages(items: seq<AsyncMsg>): seq<AsyncMsg> {
    if items == [] then []
    else (if items[0].Terminate? then [] else [items[0]]) + Messages(items[1..])
  }

  lemma {:induction false} MessagesAppend(a: seq<AsyncMsg>, b: seq<AsyncMsg>)
    ensures Messages(a + b) == Messages(a) + Messages(b)
  {
    if a == [] {
      assert a + b == b;
    } else {
      assert (a + b)[0] == a[0] && (a + b)[1..] == a[1..] + b;
      MessagesAppend(a[1..], b);
      var one: seq<AsyncMsg> := if a[0].Terminate? then [] else [a[0]];
      assert one + (Messages(a[1..]) + Messages(b)) == (one + Messages(a[1..])) + Messages(b);
    }
  }

  /** What the only worker has in hand. */
  ghost function Hand(p: Pool): seq<AsyncMsg>
    requires N(p) == 1 <= |p.q.threads|
  {
    if p.workers[0].Processing? then [p.workers[0].msg]
    else if p.q.threads[0].PopNotify? then Messages([p.q.threads[0].popped])
    else []
  }

  ghost function CompletedInStep(p: Pool, a: PoolAction): seq<AsyncMsg> {
    if a.Processed? && a.w < N(p) && p.workers[a.w].Processing? then [p.workers[a.w].msg] else []
  }

  /** The messages processed in a run, in the order of their completion. */
  ghost function Completed(p: Pool, run: seq<PoolAction>): seq<AsyncMsg>
    requires PoolRun(p, run)
    decreases |run|
  {
    if run == [] then [] else CompletedInStep(p, run[0]) + Completed(Step(p, run[0]), run[1..])
  }

  lemma HandTakes(p: Pool, a: PoolAction)
    requires Inv(p) && CanStep(p, a) && N(p) == 1 && InQueue(a) && !Notifies(a)
    ensures N(Step(p, a)) == 1 <= |Step(p, a).q.threads|
    ensures Hand(p) + Messages(TakenInStep(p, a)) == Hand(Step(p, a))
  {
    ActorChanges(p, a);
    WhatIsTaken(p, a);
    assert RoleOk(p.workers, p.clients, p.dtor, Actor(p, a), p.q.threads[Actor(p, a)]);
    assert RoleOk(p.workers, p.clients, p.dtor, 0, p.q.threads[0]);
  }

  lemma HandReceives(p: Pool, a: PoolAction)
    requires Inv(p) && CanStep(p, a) && N(p) == 1 && a.Receive?
    ensures N(Step(p, a)) == 1 <= |Step(p, a).q.threads|
    ensures TakenInStep(p, a) == [] && Hand(p) == Hand(Step(p, a))
  {
    assert Leaving(p.q, QueueAction(p, a)[0]) == [];
    MessagesOfOne(p.q.threads[0].popped);
    assert a.w == 0 && Step(p, a).q.threads[0].Idle?;
  }

  lemma HandNotifies(p: Pool, a: PoolAction)
    requires Inv(p) && CanStep(p, a) && N(p) == 1 && a.Internal? && a.step.NotifyPushCv?
    ensures N(Step(p, a)) == 1 <= |Step(p, a).q.threads|
    ensures TakenInStep(p, a) == [] && Hand(p) == Hand(Step(p, a))
  {
    assert Leaving(p.q, QueueAction(p, a)[0]) == [];
    assert RoleOk(p.workers, p.clients, p.dtor, 0, p.q.threads[0]);
  }

  lemma MessagesOfOne(m: AsyncMsg)
    ensures Messages([m]) == if m.Terminate? then [] else [m]
  {
    assert [m][1..] == [];
  }

  lemma HandCompletes(p: Pool, a: PoolAction)
    requires Inv(p) && CanStep(p, a) && N(p) == 1 && !InQueue(a) && !a.Receive?
    ensures N(Step(p, a)) == 1 <= |Step(p, a).q.threads|
    ensures TakenInStep(p, a) == [] && Hand(p) == CompletedInStep(p, a) + Hand(Step(p, a))
  {
    assert RoleOk(p.workers, p.clients, p.dtor, 0, p.q.threads[0]);
  }

  lemma HandKeepsOrder(p: Pool, a: PoolAction)
    requires Inv(p) && CanStep(p, a) && N(p) == 1
    ensures N(Step(p, a)) == 1 <= |Step(p, a).q.threads|
    ensures Hand(p) + Messages(TakenInStep(p, a)) == CompletedInStep(p, a) + Hand(Step(p, a))
  {
    if a.Receive? {
      HandReceives(p, a);
    } else if Notifies(a) {
      HandNotifies(p, a);
    } else if InQueue(a) {
      HandTakes(p, a);
    } else {
      HandCompletes(p, a);
    }
  }

  /** The only worker processes messages in the order in which it takes them. */
  lemma {:induction false} OneWorkerInOrder(p: Pool, run: seq<PoolAction>)
    requires Inv(p) && PoolRun(p, run) && N(p) == 1
    ensures IsRun(p.q, QueueRun(p, run))
    ensures N(PoolFinal(p, run)) == 1 <= |PoolFinal(p, run).q.threads|
    ensures Hand(p) + Messages(Taken(Left(p.q, QueueRun(p, run)))) == Completed(p, run) + Hand(PoolFinal(p, run))
    decreases |run|
  {
    PoolRunsTheQueue(p, run);
    PoolInvariantEver(p, run);
    if run == [] {
      assert QueueRun(p, run) == [] && Messages(Taken(Left(p.q, []))) == [];
      assert PoolFinal(p, run) == p && Completed(p, run) == [];
      assert Hand(p) + [] == [] + Hand(p);
    } else {
      var next, rest := Step(p, run[0]), run[1..];
      HandKeepsOrder(p, run[0]);
      InvStep(p, run[0]);
      OneWorkerInOrder(next, rest);
      TakenUnfold(p, run);
      MessagesAppend(TakenInStep(p, run[0]), Taken(Left(next.q, QueueRun(next, rest))));
      Chain(Hand(p), Messages(TakenInStep(p, run[0])), CompletedInStep(p, run[0]), Hand(next),
            Messages(Taken(Left(next.q, QueueRun(next, rest)))), Completed(next, rest), Hand(PoolFinal(next, rest)));
    }
  }

  /** A pool with one worker and blocking posts keeps the order: processed ++ in hand ++ stored is the order in which the
      messages were stored. */
  lemma OneWorkerKeepsOrder(capacity: nat, clients: nat, run: seq<PoolAction>)
    requires PoolRun(Construct(capacity, 1, clients).pool, run)
    requires forall i :: 0 <= i < |run| && run[i].Post? ==> run[i].block
    ensures var p := Construct(capacity, 1, clients).pool;
            var f := PoolFinal(p, run);
            && N(f) == 1 <= |f.q.threads| && IsRun(p.q, QueueRun(p, run))
            && Completed(p, run) + Hand(f) + Messages(f.q.items) == Messages(Entered(p.q, QueueRun(p, run)))
  {
    var p := Construct(capacity, 1, clients).pool;
    InitialInv(capacity, 1, clients);
    PoolLife(capacity, 1, clients, run);
    OrderFrom(p, run);
  }

  lemma OrderFrom(p: Pool, run: seq<PoolAction>)
    requires Inv(p) && PoolRun(p, run) && N(p) == 1 && Hand(p) == []
    requires IsRun(p.q, QueueRun(p, run))
    requires Taken(Left(p.q, QueueRun(p, run))) + PoolFinal(p, run).q.items == Entered(p.q, QueueRun(p, run))
    ensures var f := PoolFinal(p, run);
            && N(f) == 1 <= |f.q.threads|
            && Completed(p, run) + Hand(f) + Messages(f.q.items) == Messages(Entered(p.q, QueueRun(p, run)))
  {
    OneWorkerInOrder(p, run);
    MessagesAppend(Taken(Left(p.q, QueueRun(p, run))), PoolFinal(p, run).q.items);
    assert [] + Messages(Taken(Left(p.q, QueueRun(p, run)))) == Messages(Taken(Left(p.q, QueueRun(p, run))));
  }
}
