/**
 The periodic worker: a thread that waits on a condition variable with a time limit, and a destructor that clears a
 flag, notifies and joins. The mutex is held from the wake-up to the end of the callback, so the lock-protected parts
 are: test-and-park, test-and-start-the-callback, the callback itself (two steps, mutex held in between), and clearing.
 */
module PeriodicWorker {

  datatype Worker =
    | NoThread
    | Locking               // top of the loop, mutex not acquired yet
    | Parked                // blocked in wait_for, mutex released
    | Awake(timedOut: bool) // unblocked, about to re-acquire the mutex
    | Callback              // running the callback, mutex held
    | Exited

  datatype Destructor = NotCalled | AtMutex | Cleared | Joining | Finished

  datatype State = State(active: bool, worker: Worker, destructor: Destructor, starts: nat, timeouts: nat)

  datatype Action =
    | TestAndPark           // first acquisition of the mutex in an iteration
    | TimeOut
    | Spurious
    | Reacquire             // mutex re-acquired after a wait
    | CallbackEnds
    | Destroy               // the destructor is called
    | Clear                 // ... takes the mutex and clears the flag
    | Notify(late: bool)    // ... notifies; a thread unblocked here may find its time limit passed as well
    | Join

  /** A non-positive interval starts no thread. */
  function Construct(interval: int): State {
    if interval > 0 then State(true, Locking, NotCalled, 0, 0) else State(false, NoThread, NotCalled, 0, 0)
  }

  predicate Enabled(s: State, a: Action) {
    match a
    case TestAndPark => s.worker.Locking?
    case TimeOut => s.worker.Parked?
    case Spurious => s.worker.Parked?
    case Reacquire => s.worker.Awake?
    case CallbackEnds => s.worker.Callback?
    case Destroy => s.destructor.NotCalled?
    case Clear => s.destructor.AtMutex? && !s.worker.Callback?
    case Notify(_) => s.destructor.Cleared?
    case Join => s.destructor.Joining? && s.worker.Exited?
  }

  function Apply(s: State, a: Action): State
    requires Enabled(s, a)
  {
    match a
    case TestAndPark => s.(worker := if s.active then Parked else Exited)
    case TimeOut => s.(worker := Awake(true), timeouts := s.timeouts + 1)
    case Spurious => s.(worker := Awake(false))
    case Reacquire =>
      if !s.active then s.(worker := Exited)
      else if s.worker.timedOut then s.(worker := Callback, starts := s.starts + 1)
      else s.(worker := Parked)
    case CallbackEnds => s.(worker := Locking)
    case Destroy => s.(destructor := if s.worker.NoThread? then Finished else AtMutex)
    case Clear => s.(active := false, destructor := Cleared)
    case Notify(late) =>
      if s.worker.Parked? then
        s.(worker := Awake(late), destructor := Joining, timeouts := s.timeouts + if late then 1 else 0)
      else s.(destructor := Joining)
    case Join => s.(destructor := Finished)
  }

  predicate IsRun(s: State, actions: seq<Action>)
    decreases |actions|
  {
    actions == [] || (Enabled(s, actions[0]) && IsRun(Apply(s, actions[0]), actions[1..]))
  }

  function After(s: State, actions: seq<Action>): State
    requires IsRun(s, actions)
    decreases |actions|
  {
    if actions == [] then s else After(Apply(s, actions[0]), actions[1..])
  }

  // ---------------------------------------------------------------- invariants

  predicate Inv(s: State) {
    && (s.worker.NoThread? ==> !s.active && s.destructor in {NotCalled, Finished})
    && (!s.worker.NoThread? ==> (s.active <==> s.destructor in {NotCalled, AtMutex}))
    && (s.worker.Exited? ==> !s.active)
    && (s.worker.Callback? ==> s.active)
    && (s.destructor.Joining? ==> s.worker.Locking? || s.worker.Awake? || s.worker.Exited?)
    && (s.destructor.Finished? ==> s.worker.NoThread? || s.worker.Exited?)
    && s.starts + (if s.worker == Awake(true) then 1 else 0) <= s.timeouts
    && (s.active ==> s.starts + (if s.worker == Awake(true) then 1 else 0) == s.timeouts)
  }

  lemma InvStep(s: State, a: Action)
    requires Inv(s) && Enabled(s, a)
    ensures Inv(Apply(s, a))
  {
  }

  lemma {:induction false} InvEver(s: State, actions: seq<Action>)
    requires Inv(s) && IsRun(s, actions)
    ensures Inv(After(s, actions))
    decreases |actions|
  {
    if actions != [] {
      InvStep(s, actions[0]);
      InvEver(Apply(s, actions[0]), actions[1..]);
    }
  }

  // ---------------------------------------------------------------- safety

  /** From the moment the flag is cleared no callback runs or starts, whatever happens next. */
  lemma NoCallbackOnceCleared(interval: int, before: seq<Action>, after: seq<Action>)
    requires IsRun(Construct(interval), before) && !After(Construct(interval), before).active
    requires IsRun(After(Construct(interval), before), after)
    ensures var s := After(Construct(interval), before);
            && !After(s, after).worker.Callback?
            && After(s, after).starts == s.starts
            && !After(s, after).active
  {
    InvEver(Construct(interval), before);
    StaysCleared(After(Construct(interval), before), after);
  }

  lemma {:induction false} StaysCleared(s: State, after: seq<Action>)
    requires Inv(s) && !s.active && IsRun(s, after)
    ensures !After(s, after).worker.Callback? && After(s, after).starts == s.starts && !After(s, after).active
    decreases |after|
  {
    if after != [] {
      InvStep(s, after[0]);
      StaysCleared(Apply(s, after[0]), after[1..]);
    }
  }

  /** When the destructor returns, the thread has exited or never existed. */
  lemma NothingRunsAfterJoin(interval: int, actions: seq<Action>)
    requires IsRun(Construct(interval), actions) && After(Construct(interval), actions).destructor.Finished?
    ensures var s := After(Construct(interval), actions);
            (if interval > 0 then s.worker.Exited? else s.worker.NoThread?) && !s.active
  {
    InvEver(Construct(interval), actions);
    ThreadIsThere(Construct(interval), actions);
  }

  lemma {:induction false} ThreadIsThere(s: State, actions: seq<Action>)
    requires IsRun(s, actions)
    ensures After(s, actions).worker.NoThread? <==> s.worker.NoThread?
    decreases |actions|
  {
    if actions != [] {
      ThreadIsThere(Apply(s, actions[0]), actions[1..]);
    }
  }

  /** Every callback is paid for by an expired wait of its own. */
  lemma CallbacksNeedExpiredWaits(interval: int, actions: seq<Action>)
    requires IsRun(Construct(interval), actions)
    ensures After(Construct(interval), actions).starts <= Expired(actions)
    ensures interval <= 0 ==> After(Construct(interval), actions).starts == 0
  {
    InvEver(Construct(interval), actions);
    TimeoutsAreCounted(Construct(interval), actions);
    if interval <= 0 {
      StaysCleared(Construct(interval), actions);
    }
  }

  /** While the worker is active, every expired wait but one still on its way has started a callback. */
  lemma EveryExpiredWaitCalls(interval: int, actions: seq<Action>)
    requires interval > 0 && IsRun(Construct(interval), actions) && After(Construct(interval), actions).active
    ensures var s := After(Construct(interval), actions);
            s.starts + (if s.worker == Awake(true) then 1 else 0) == Expired(actions)
  {
    InvEver(Construct(interval), actions);
    TimeoutsAreCountedExactly(Construct(interval), actions);
  }

  lemma {:induction false} TimeoutsAreCountedExactly(s: State, actions: seq<Action>)
    requires Inv(s) && IsRun(s, actions) && After(s, actions).active
    ensures After(s, actions).timeouts == s.timeouts + Expired(actions)
    decreases |actions|
  {
    if actions != [] {
      InvStep(s, actions[0]);
      TimeoutsAreCountedExactly(Apply(s, actions[0]), actions[1..]);
      if !Apply(s, actions[0]).active {
        StaysCleared(Apply(s, actions[0]), actions[1..]);
      }
    }
  }

  /** Re-acquiring the mutex: the callback starts exactly after an expired wait of an active worker; an active one that
      was woken early waits again, and an inactive one exits. */
  lemma ReacquireMeans(s: State)
    requires Inv(s) && Enabled(s, Reacquire)
    ensures var r := Apply(s, Reacquire);
            && (r.worker.Callback? <==> s.active && s.worker.timedOut)
            && (r.worker.Parked? <==> s.active && !s.worker.timedOut)
            && (r.worker.Exited? <==> !s.active)
  {
  }

  function Expired(actions: seq<Action>): nat {
    if actions == [] then 0
    else (if actions[0] in {TimeOut, Notify(true)} then 1 else 0) + Expired(actions[1..])
  }

  lemma {:induction false} TimeoutsAreCounted(s: State, actions: seq<Action>)
    requires IsRun(s, actions)
    ensures After(s, actions).timeouts <= s.timeouts + Expired(actions)
    decreases |actions|
  {
    if actions != [] {
      TimeoutsAreCounted(Apply(s, actions[0]), actions[1..]);
    }
  }

  // ---------------------------------------------------------------- the shutdown completes

  function Left(s: State): nat {
    (match s.destructor case NotCalled => 4 case AtMutex => 3 case Cleared => 2 case Joining => 1 case Finished => 0)
    + (match s.worker
       case NoThread => 0
       case Locking => 1
       case Parked => 2
       case Awake(_) => 1
       case Callback => 2
       case Exited => 0)
  }

  /** Once the flag is cleared every step counts down, so that at most four steps are left. */
  lemma {:induction false} ShutdownIsBounded(s: State, actions: seq<Action>)
    requires Inv(s) && s.destructor in {Cleared, Joining, Finished} && IsRun(s, actions)
    ensures |actions| + Left(After(s, actions)) <= Left(s) <= 4
    ensures After(s, actions).destructor in {Cleared, Joining, Finished}
    decreases |actions|
  {
    if actions != [] {
      InvStep(s, actions[0]);
      ShutdownIsBounded(Apply(s, actions[0]), actions[1..]);
    }
  }

  predicate NeedsTheClock(a: Action) {
    a.TimeOut? || a.Spurious?
  }

  /** Until the destructor is finished there is always a next step, and it never needs the interval to elapse: the
      thread is not left parked, however the notification and its wait interleave. */
  lemma ShutdownProgresses(s: State)
    requires Inv(s) && s.destructor in {Cleared, Joining}
    ensures exists a :: Enabled(s, a) && !NeedsTheClock(a)
  {
    if s.destructor.Cleared? {
      assert Enabled(s, Notify(false));
    } else if s.worker.Locking? {
      assert Enabled(s, TestAndPark);
    } else if s.worker.Awake? {
      assert Enabled(s, Reacquire);
    } else {
      assert Enabled(s, Join);
    }
  }

  /** Every run that is not cut short ends with the destructor finished. */
  lemma StopsCleanly(interval: int, before: seq<Action>, after: seq<Action>)
    requires interval > 0 && IsRun(Construct(interval), before)
    requires var s := After(Construct(interval), before); s.destructor.Cleared? && IsRun(s, after)
    requires forall a :: Enabled(After(After(Construct(interval), before), after), a) ==> NeedsTheClock(a)
    ensures var end := After(After(Construct(interval), before), after);
            end.destructor.Finished? && end.worker.Exited? && |after| <= 4
  {
    var s := After(Construct(interval), before);
    InvEver(Construct(interval), before);
    InvEver(s, after);
    ThreadIsThere(Construct(interval), before);
    ThreadIsThere(s, after);
    ShutdownIsBounded(s, after);
    var end := After(s, after);
    if end.destructor in {Cleared, Joining} {
      ShutdownProgresses(end);
    }
  }
}
