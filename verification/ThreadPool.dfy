/**
 The thread pool over the blocking queue: client threads that post through a shared pool pointer, workers that loop on
 the queue, and the destructor that posts one terminate message per worker and joins them.

 Threads of the queue: 0..n-1 are the workers, then the clients, and the last one is the thread that runs the
 destructor.
 */
module ThreadPool {
  import opened BlockingQueue

  /** The payload (sink list, text, flush) is abstracted to an identity. */
  datatype AsyncMsg = Log(id: nat) | Flush(id: nat) | Terminate

  datatype Worker = Looping | Processing(msg: AsyncMsg) | Exited

  /** A call to sink_it_ or flush_: lock the weak pointer, post once, release. */
  datatype Client = NoPool | Holding(posted: bool)

  datatype Destructor = NotStarted | Posting(started: nat) | Joining(joined: nat) | Finished

  datatype Pool = Pool(
    q: Queue<AsyncMsg>,
    workers: seq<Worker>,
    clients: seq<Client>,
    owner: bool,            // whether the owner still holds its shared pointer
    dtor: Destructor)

  datatype PoolAction =
    | Lock(c: nat)                                        // thread_pool_.lock()
    | Post(c: nat, msg: AsyncMsg, block: bool)            // post_async_msg_ with the chosen overflow policy
    | Release(c: nat)
    | ReleaseOwner
    | PostTerminate                                       // one iteration of the first destructor loop
    | StartJoin
    | Join                                                // one iteration of the second destructor loop
    | Finish
    | LoopTop(w: nat)                                     // process_next_msg_ calls dequeue_for
    | Receive(w: nat, woken: Woken)                       // dequeue_for notifies and returns true
    | Processed(w: nat)                                   // backend_sink_it_ / backend_flush_ returned
    | Internal(step: Action<AsyncMsg>)                    // a step inside enqueue or dequeue_for

  function N(p: Pool): nat { |p.workers| }

  function ClientThread(p: Pool, c: nat): nat { |p.workers| + c }

  function DtorThread(p: Pool): nat { |p.workers| + |p.clients| }

  predicate InUse(p: Pool) {
    p.owner || exists c :: 0 <= c < |p.clients| && p.clients[c].Holding?
  }

  /** The last release of the shared pointer runs the destructor. */
  function Released(p: Pool): Pool {
    if InUse(p) then p else p.(dtor := Posting(0))
  }

  /** Steps a thread takes on its own inside a queue operation. */
  predicate IsInternal(a: Action<AsyncMsg>) {
    a.ResumePush? || a.ResumePop? || a.NotifyPushCv? || a.TimeOut? || a.Spurious?
  }

  /** The queue action, if any, that a pool action performs. */
  function QueueAction(p: Pool, a: PoolAction): seq<Action<AsyncMsg>> {
    match a
    case Post(c, msg, block) =>
      [if block then Enqueue(ClientThread(p, c), msg) else EnqueueNowait(ClientThread(p, c), msg)]
    case PostTerminate => [Enqueue(DtorThread(p), Terminate)]
    case LoopTop(w) => [Dequeue(w)]
    case Receive(w, woken) => [NotifyPopCv(w, woken)]
    case Internal(step) => [step]
    case _ => []
  }

  ghost predicate CanStep(p: Pool, a: PoolAction) {
    && |p.q.threads| == N(p) + |p.clients| + 1
    && (QueueAction(p, a) != [] ==> Enabled(p.q, QueueAction(p, a)[0]))
    && match a
       case Lock(c) => c < |p.clients| && p.clients[c].NoPool? && InUse(p)
       case Post(c, msg, _) => c < |p.clients| && p.clients[c] == Holding(false) && !msg.Terminate?
       case Release(c) => c < |p.clients| && p.clients[c] == Holding(true) && p.q.threads[ClientThread(p, c)].Idle?
       case ReleaseOwner => p.owner
       case PostTerminate => p.dtor.Posting? && p.dtor.started < N(p)
       case StartJoin => p.dtor == Posting(N(p)) && p.q.threads[DtorThread(p)].Idle?
       case Join => p.dtor.Joining? && p.dtor.joined < N(p) && p.workers[p.dtor.joined].Exited?
       case Finish => p.dtor == Joining(N(p))
       case LoopTop(w) => w < N(p) && p.workers[w].Looping?
       case Receive(w, _) => w < N(p) && p.workers[w].Looping?
       case Processed(w) => w < N(p) && p.workers[w].Processing?
       case Internal(step) => IsInternal(step)
  }

  ghost function Step(p: Pool, a: PoolAction): Pool
    requires CanStep(p, a)
  {
    var moved := if QueueAction(p, a) == [] then p else p.(q := Apply(p.q, QueueAction(p, a)[0]));
    match a
    case Lock(c) => moved.(clients := p.clients[c := Holding(false)])
    case Post(c, _, _) => moved.(clients := p.clients[c := Holding(true)])
    case Release(c) => Released(moved.(clients := p.clients[c := NoPool]))
    case ReleaseOwner => Released(moved.(owner := false))
    case PostTerminate => moved.(dtor := Posting(p.dtor.started + 1))
    case StartJoin => moved.(dtor := Joining(0))
    case Join => moved.(dtor := Joining(p.dtor.joined + 1))
    case Finish => moved.(dtor := Finished)
    case Receive(w, _) =>
      var msg := p.q.threads[w].popped;
      moved.(workers := p.workers[w := if msg.Terminate? then Exited else Processing(msg)])
    case Processed(w) => moved.(workers := p.workers[w := Looping])
    case _ => moved
  }

  // ---------------------------------------------------------------- invariant

  ghost function Terminates(items: seq<AsyncMsg>): nat {
    if items == [] then 0 else One(items[0].Terminate?) + Terminates(items[1..])
  }

  /** Whether worker w has taken its terminate message. */
  ghost predicate Stopped(p: Pool, w: nat)
    requires w < N(p) && N(p) <= |p.q.threads|
  {
    p.workers[w].Exited? || p.q.threads[w] == PopNotify(Terminate)
  }

  ghost function StoppedBelow(p: Pool, w: nat): nat
    requires w <= N(p) && N(p) <= |p.q.threads|
  {
    if w == 0 then 0 else StoppedBelow(p, w - 1) + One(Stopped(p, w - 1))
  }

  /** Terminate messages stored so far: posts begun, except one still waiting for room. */
  ghost function TerminatesPosted(p: Pool): nat
    requires |p.q.threads| == N(p) + |p.clients| + 1
  {
    match p.dtor
    case NotStarted => 0
    case Posting(k) =>
      var waiting := p.q.threads[DtorThread(p)].ParkedPush? || p.q.threads[DtorThread(p)].AwakePush?;
      if waiting && k > 0 then k - 1 else k
    case _ => N(p)
  }

  ghost predicate TerminatesLast(items: seq<AsyncMsg>) {
    forall i, j :: 0 <= i < j < |items| && items[i].Terminate? ==> items[j].Terminate?
  }

  /** What each thread may be doing, given its role and the state of the pool. */
  ghost predicate RoleOk(workers: seq<Worker>, clients: seq<Client>, dtor: Destructor, t: nat, me: Thread<AsyncMsg>)
    requires t <= |workers| + |clients|
  {
    if t < |workers| then
      && KindOf(me) in {KIdle, KParkedPop, KAwakePop, KPopNotify}
      && (!workers[t].Looping? ==> me.Idle?)
    else if t < |workers| + |clients| then
      && KindOf(me) in {KIdle, KParkedPush, KAwakePush, KPushNotify}
      && (me.ParkedPush? || me.AwakePush? ==> !me.item.Terminate?)
      && (clients[t - |workers|] != Holding(true) ==> me.Idle?)
    else
      && KindOf(me) in {KIdle, KParkedPush, KAwakePush, KPushNotify}
      && (me.ParkedPush? || me.AwakePush? ==> me.item.Terminate?)
      && (!me.Idle? ==> dtor.Posting? && dtor.started > 0)
  }

  ghost predicate Roles(p: Pool)
    requires |p.q.threads| == N(p) + |p.clients| + 1
  {
    forall t :: 0 <= t < |p.q.threads| ==> RoleOk(p.workers, p.clients, p.dtor, t, p.q.threads[t])
  }

  ghost predicate DtorOk(p: Pool) {
    && (p.dtor.NotStarted? <==> InUse(p))
    && (p.dtor.Posting? ==> p.dtor.started <= N(p))
    && (p.dtor.Joining? ==> p.dtor.joined <= N(p) && forall w :: 0 <= w < p.dtor.joined ==> p.workers[w].Exited?)
    && (p.dtor.Finished? ==> forall w :: 0 <= w < N(p) ==> p.workers[w].Exited?)
  }

  ghost predicate Drains(p: Pool)
    requires |p.q.threads| == N(p) + |p.clients| + 1
  {
    && TerminatesLast(p.q.items)
    && Terminates(p.q.items) + StoppedBelow(p, N(p)) == TerminatesPosted(p)
    && (StoppedBelow(p, N(p)) > 0 ==> Terminates(p.q.items) == |p.q.items|)
  }

  ghost predicate Inv(p: Pool) {
    && |p.q.threads| == N(p) + |p.clients| + 1
    && NoLostWakeup(p.q)
    && Roles(p) && DtorOk(p) && Drains(p)
  }

  /** The constructor accepts 1 to 1000 worker threads; the queue capacity is the caller's. */
  datatype Created = InvalidThreads | Ready(pool: Pool)

  function Construct(capacity: nat, threads: nat, clients: nat): (r: Created)
    ensures r.Ready? <==> 1 <= threads <= 1000
  {
    if threads == 0 || threads > 1000 then InvalidThreads
    else Ready(Pool(Queue(capacity, [], 0, seq(threads + clients + 1, _ => Idle)),
                    seq(threads, _ => Looping), seq(clients, _ => NoPool), true, NotStarted))
  }

  // ---------------------------------------------------------------- lemmas on the counters

  lemma {:induction false} TerminatesConcat(a: seq<AsyncMsg>, b: seq<AsyncMsg>)
    ensures Terminates(a + b) == Terminates(a) + Terminates(b)
  {
    if a == [] {
      assert a + b == b;
    } else {
      TerminatesConcat(a[1..], b);
      assert (a + b)[1..] == a[1..] + b;
    }
  }

  lemma {:induction false} TerminatesBounds(items: seq<AsyncMsg>)
    ensures Terminates(items) <= |items|
    ensures Terminates(items) == |items| <==> forall i :: 0 <= i < |items| ==> items[i].Terminate?
    ensures Terminates(items) == 0 <==> forall i :: 0 <= i < |items| ==> !items[i].Terminate?
  {
    if items != [] {
      TerminatesBounds(items[1..]);
    }
  }

  /** Two pools that agree on who has stopped, except possibly at worker w. */
  lemma {:induction false} StoppedUpdate(p: Pool, q: Pool, w: nat, upTo: nat)
    requires N(p) == N(q) <= |p.q.threads| && N(q) <= |q.q.threads| && upTo <= N(p)
    requires forall i :: 0 <= i < N(p) && i != w ==> Stopped(p, i) == Stopped(q, i)
    ensures StoppedBelow(q, upTo) == StoppedBelow(p, upTo)
            + if w < upTo then One(Stopped(q, w)) - One(Stopped(p, w)) else 0
  {
    if upTo > 0 {
      StoppedUpdate(p, q, w, upTo - 1);
    }
  }

  lemma {:induction false} StoppedBounds(p: Pool, upTo: nat)
    requires N(p) <= |p.q.threads| && upTo <= N(p)
    ensures StoppedBelow(p, upTo) <= upTo
    ensures StoppedBelow(p, upTo) == upTo <==> forall w :: 0 <= w < upTo ==> Stopped(p, w)
    ensures StoppedBelow(p, upTo) == 0 <==> forall w :: 0 <= w < upTo ==> !Stopped(p, w)
  {
    if upTo > 0 {
      StoppedBounds(p, upTo - 1);
    }
  }

  // ---------------------------------------------------------------- the invariant holds in every run

  lemma InitialInv(capacity: nat, threads: nat, clients: nat)
    requires 1 <= threads <= 1000
    ensures Inv(Construct(capacity, threads, clients).pool)
  {
    var p := Construct(capacity, threads, clients).pool;
    CountZero(p.q.threads, KParkedPop);
    CountZero(p.q.threads, KParkedPush);
    StoppedBounds(p, N(p));
  }

  /** A terminate message can only be stored by the destructor, and then every client is idle. */
  lemma StoringTerminates(p: Pool, t: nat, item: AsyncMsg)
    requires |p.q.items| < p.q.capacity || (!item.Terminate? && p.dtor.NotStarted?)
    requires Inv(p) && |p.q.items| <= p.q.capacity
    requires if item.Terminate? then !p.dtor.NotStarted? else p.dtor.NotStarted?
    ensures var after := CircularQueue.Push(p.q.items, p.q.capacity, item);
            && TerminatesLast(after)
            && Terminates(after) == Terminates(p.q.items) + One(item.Terminate?)
            && (StoppedBelow(p, N(p)) > 0 ==> Terminates(after) == |after|)
  {
    var items := p.q.items;
    TerminatesBounds(items);
    TerminatesConcat(items, [item]);
    if p.dtor.NotStarted? {
      var all := items + [item];
      TerminatesBounds(all);
      TerminatesBounds(all[1..]);
    }
  }

  lemma TakingTerminates(items: seq<AsyncMsg>)
    requires items != [] && TerminatesLast(items)
    ensures TerminatesLast(items[1..])
    ensures Terminates(items) == One(items[0].Terminate?) + Terminates(items[1..])
    ensures items[0].Terminate? <==> Terminates(items) == |items|
  {
    TerminatesBounds(items);
  }

  /** A step that stores and takes nothing and stops no worker keeps the counting part of the invariant. */
  lemma SameCounts(p: Pool, r: Pool)
    requires Inv(p) && r.q.items == p.q.items && N(r) == N(p) && |r.clients| == |p.clients|
    requires |r.q.threads| == |p.q.threads|
    requires forall w :: 0 <= w < N(p) ==> Stopped(r, w) == Stopped(p, w)
    requires TerminatesPosted(r) == TerminatesPosted(p)
    ensures Drains(r)
  {
    StoppedUpdate(p, r, N(p), N(p));
  }

  /** What the steps outside the queue have in common, as far as the threads are concerned. */
  ghost predicate SameThreads(p: Pool, r: Pool)
    requires |p.q.threads| == N(p) + |p.clients| + 1
  {
    && r.q == p.q && N(r) == N(p) && |r.clients| == |p.clients|
    && Roles(r) && TerminatesPosted(r) == TerminatesPosted(p)
    && forall w :: 0 <= w < N(p) ==> Stopped(r, w) == Stopped(p, w)
  }

  lemma LockRoles(p: Pool, a: PoolAction)
    requires Inv(p) && CanStep(p, a) && a.Lock?
    ensures SameThreads(p, Step(p, a))
  {
  }

  lemma ReleaseRoles(p: Pool, a: PoolAction)
    requires Inv(p) && CanStep(p, a) && (a.Release? || a.ReleaseOwner?)
    ensures SameThreads(p, Step(p, a))
  {
    assert InUse(p);
    assert RoleOk(p.workers, p.clients, p.dtor, DtorThread(p), p.q.threads[DtorThread(p)]);
  }

  lemma ProcessedRoles(p: Pool, a: PoolAction)
    requires Inv(p) && CanStep(p, a) && a.Processed?
    ensures SameThreads(p, Step(p, a))
  {
  }

  lemma ClientSideUse(p: Pool, a: PoolAction)
    requires Inv(p) && CanStep(p, a)
    requires a.Lock? || a.Release? || a.ReleaseOwner? || a.Processed?
    ensures DtorOk(Step(p, a))
  {
    var r := Step(p, a);
    if a.Lock? {
      assert r.clients[a.c].Holding?;
      assert InUse(r);
    } else if a.Processed? {
      assert InUse(r) == InUse(p);
    } else {
      var idle := p.(clients := r.clients, owner := r.owner);
      assert InUse(p) && InUse(r) == InUse(idle);
    }
  }

  lemma ClientSideStep(p: Pool, a: PoolAction)
    requires Inv(p) && CanStep(p, a)
    requires a.Lock? || a.Release? || a.ReleaseOwner? || a.Processed?
    ensures Inv(Step(p, a))
  {
    if a.Lock? {
      LockRoles(p, a);
    } else if a.Processed? {
      ProcessedRoles(p, a);
    } else {
      ReleaseRoles(p, a);
    }
    ClientSideUse(p, a);
    SameCounts(p, Step(p, a));
  }

  lemma JoiningStep(p: Pool, a: PoolAction)
    requires Inv(p) && CanStep(p, a)
    requires a.StartJoin? || a.Join? || a.Finish?
    ensures Inv(Step(p, a))
  {
    var r := Step(p, a);
    assert InUse(r) == InUse(p);
    SameCounts(p, r);
  }

  /** A producer's body: thread t parks or stores its item; nobody else changes. */
  ghost predicate Produces(p: Pool, r: Pool, t: nat, item: AsyncMsg, nowait: bool)
    requires Inv(p)
  {
    && N(p) <= t < |p.q.threads|
    && (p.q.threads[t].Idle? || p.q.threads[t] == AwakePush(item))
    && r.q == (if nowait then PushNow(p.q, t, item) else PushOrPark(p.q, t, item))
    && r.workers == p.workers && r.owner == p.owner
    && if t < DtorThread(p) then
         && p.clients[t - N(p)].Holding? && !item.Terminate?
         && r.clients == p.clients[t - N(p) := Holding(true)] && r.dtor == p.dtor
       else
         && item.Terminate? && !nowait && r.clients == p.clients && p.dtor.Posting?
         && r.dtor == (if p.q.threads[t].Idle? then Posting(p.dtor.started + 1) else p.dtor)
         && r.dtor.started <= N(p)
  }

  lemma ProducesUse(p: Pool, r: Pool, t: nat, item: AsyncMsg, nowait: bool)
    requires Inv(p) && Produces(p, r, t, item, nowait)
    ensures InUse(r) == InUse(p) && (t < DtorThread(p) ==> InUse(p))
  {
    if t < DtorThread(p) {
      assert p.clients[t - N(p)].Holding? && r.clients[t - N(p)].Holding?;
    }
  }

  lemma ProducesRoles(p: Pool, r: Pool, t: nat, item: AsyncMsg, nowait: bool)
    requires Inv(p) && Produces(p, r, t, item, nowait)
    ensures |r.q.threads| == |p.q.threads| && Roles(r)
    ensures TerminatesPosted(r) == TerminatesPosted(p) + One(item.Terminate? && r.q.threads[t].PushNotify?)
  {
    assert RoleOk(p.workers, p.clients, p.dtor, t, p.q.threads[t]);
  }

  lemma ProducesDrains(p: Pool, r: Pool, t: nat, item: AsyncMsg, nowait: bool)
    requires Inv(p) && Produces(p, r, t, item, nowait)
    ensures |r.q.threads| == |p.q.threads| && Drains(r)
  {
    ProducesUse(p, r, t, item, nowait);
    ProducesRoles(p, r, t, item, nowait);
    StoppedUpdate(p, r, N(p), N(p));
    if r.q.threads[t].PushNotify? {
      StoringTerminates(p, t, item);
    }
  }

  lemma ProducerStep(p: Pool, r: Pool, t: nat, item: AsyncMsg, nowait: bool)
    requires Inv(p) && Produces(p, r, t, item, nowait)
    ensures Inv(r)
  {
    ProducesUse(p, r, t, item, nowait);
    ProducesRoles(p, r, t, item, nowait);
    ProducesDrains(p, r, t, item, nowait);
    PushStep(p.q, t, item);
  }

  /** A consumer's body: the worker takes the front item, parks, or gives up after a timeout. */
  ghost predicate Consumes(p: Pool, r: Pool, w: nat, timedOut: bool)
    requires Inv(p)
  {
    && w < N(p) && p.workers[w].Looping? && KindOf(p.q.threads[w]) in {KIdle, KAwakePop}
    && r == p.(q := PopOrPark(p.q, w, timedOut))
  }

  lemma ConsumesRoles(p: Pool, r: Pool, w: nat, timedOut: bool)
    requires Inv(p) && Consumes(p, r, w, timedOut)
    ensures |r.q.threads| == |p.q.threads| && Roles(r) && DtorOk(r)
    ensures TerminatesPosted(r) == TerminatesPosted(p)
  {
    assert InUse(r) == InUse(p);
  }

  lemma ConsumesDrains(p: Pool, r: Pool, w: nat, timedOut: bool)
    requires Inv(p) && Consumes(p, r, w, timedOut)
    ensures |r.q.threads| == |p.q.threads| && Drains(r)
  {
    ConsumesRoles(p, r, w, timedOut);
    StoppedUpdate(p, r, w, N(p));
    if p.q.items != [] {
      TakingTerminates(p.q.items);
    }
  }

  lemma ConsumerStep(p: Pool, r: Pool, w: nat, timedOut: bool)
    requires Inv(p) && Consumes(p, r, w, timedOut)
    ensures Inv(r)
  {
    PopStep(p.q, w, timedOut);
    ConsumesRoles(p, r, w, timedOut);
    ConsumesDrains(p, r, w, timedOut);
  }

  lemma PushNotifyRoles(p: Pool, r: Pool, t: nat, woken: Woken)
    requires Inv(p) && t < |p.q.threads| && p.q.threads[t].PushNotify? && LegalWakeUp(p.q.threads, woken, KParkedPop)
    requires r == p.(q := p.q.(threads := AfterNotify(p.q.threads, t, woken)))
    ensures Roles(r) && TerminatesPosted(r) == TerminatesPosted(p)
    ensures forall w :: 0 <= w < N(p) ==> Stopped(r, w) == Stopped(p, w)
  {
    assert RoleOk(p.workers, p.clients, p.dtor, t, p.q.threads[t]);
    if woken.Somebody? {
      assert RoleOk(p.workers, p.clients, p.dtor, woken.thread, p.q.threads[woken.thread]);
    }
  }

  /** One thread finishes its notification and possibly another one is unblocked; nothing is stored or taken. */
  lemma PushNotifyStep(p: Pool, r: Pool, t: nat, woken: Woken)
    requires Inv(p) && t < |p.q.threads| && p.q.threads[t].PushNotify? && LegalWakeUp(p.q.threads, woken, KParkedPop)
    requires r == p.(q := p.q.(threads := AfterNotify(p.q.threads, t, woken)))
    ensures Inv(r)
  {
    NotifyStep(p.q, t, woken, KParkedPop);
    PushNotifyRoles(p, r, t, woken);
    assert InUse(r) == InUse(p);
    SameCounts(p, r);
  }

  lemma ReceiveRoles(p: Pool, r: Pool, w: nat, woken: Woken)
    requires Inv(p) && w < N(p) && p.q.threads[w].PopNotify? && LegalWakeUp(p.q.threads, woken, KParkedPush)
    requires r.q == p.q.(threads := AfterNotify(p.q.threads, w, woken))
    requires r.clients == p.clients && r.owner == p.owner && r.dtor == p.dtor
    requires |r.workers| == N(p) && forall i :: 0 <= i < N(p) && i != w ==> r.workers[i] == p.workers[i]
    ensures Roles(r) && TerminatesPosted(r) == TerminatesPosted(p)
  {
    if woken.Somebody? {
      assert RoleOk(p.workers, p.clients, p.dtor, woken.thread, p.q.threads[woken.thread]);
    }
  }

  lemma ReceiveStep(p: Pool, r: Pool, w: nat, woken: Woken)
    requires Inv(p) && w < N(p) && p.q.threads[w].PopNotify? && LegalWakeUp(p.q.threads, woken, KParkedPush)
    requires var msg := p.q.threads[w].popped;
             r == p.(q := p.q.(threads := AfterNotify(p.q.threads, w, woken)),
                     workers := p.workers[w := if msg.Terminate? then Exited else Processing(msg)])
    ensures Inv(r)
  {
    NotifyStep(p.q, w, woken, KParkedPush);
    assert RoleOk(p.workers, p.clients, p.dtor, w, p.q.threads[w]);
    ReceiveRoles(p, r, w, woken);
    assert InUse(r) == InUse(p);
    if woken.Somebody? {
      assert RoleOk(p.workers, p.clients, p.dtor, woken.thread, p.q.threads[woken.thread]);
    }
    SameCounts(p, r);
  }

  lemma UnblockedStep(p: Pool, r: Pool, t: nat, awake: Thread<AsyncMsg>)
    requires Inv(p) && t < |p.q.threads|
    requires (p.q.threads[t].ParkedPop? && awake.AwakePop?)
             || (p.q.threads[t].ParkedPush? && awake == AwakePush(p.q.threads[t].item))
    requires r == p.(q := p.q.(threads := p.q.threads[t := awake]))
    ensures Inv(r)
  {
    UnblockStep(p.q, t, awake);
    assert RoleOk(p.workers, p.clients, p.dtor, t, p.q.threads[t]);
    assert InUse(r) == InUse(p);
    SameCounts(p, r);
  }

  lemma InternalStep(p: Pool, a: PoolAction)
    requires Inv(p) && CanStep(p, a) && a.Internal?
    ensures Inv(Step(p, a))
  {
    var r, t := Step(p, a), a.step.t;
    assert RoleOk(p.workers, p.clients, p.dtor, t, p.q.threads[t]);
    match a.step
    case ResumePush(_) =>
      assert t < DtorThread(p) ==> p.clients[t - N(p) := Holding(true)] == p.clients;
      ProducerStep(p, r, t, p.q.threads[t].item, false);
    case ResumePop(_) => ConsumerStep(p, r, t, p.q.threads[t].timedOut);
    case NotifyPushCv(_, woken) => PushNotifyStep(p, r, t, woken);
    case TimeOut(_) => UnblockedStep(p, r, t, AwakePop(true));
    case Spurious(_) => UnblockedStep(p, r, t, Unblocked(p.q.threads[t]));
  }

  lemma InvStep(p: Pool, a: PoolAction)
    requires Inv(p) && CanStep(p, a)
    ensures Inv(Step(p, a))
  {
    match a
    case Post(c, msg, block) => ProducerStep(p, Step(p, a), ClientThread(p, c), msg, !block);
    case PostTerminate => ProducerStep(p, Step(p, a), DtorThread(p), Terminate, false);
    case LoopTop(w) => ConsumerStep(p, Step(p, a), w, false);
    case Receive(w, woken) => ReceiveStep(p, Step(p, a), w, woken);
    case Internal(_) => InternalStep(p, a);
    case StartJoin => JoiningStep(p, a);
    case Join => JoiningStep(p, a);
    case Finish => JoiningStep(p, a);
    case _ => ClientSideStep(p, a);
  }
}
