/**
 LoggerWorker of twe/src/logging/logger_worker.cpp, once started, as a step system around the linked
 queue: any number of threads calling push, the worker in run, any number of threads in
 wait_until_idle, and one thread calling stop. Waiting on the condition variable may end without a
 notification.
 */
module LoggerModel {
  import opened Common
  import Q = LinkedModel

  // Where a thread stands inside push; while Pushing, the queue knows how far.
  datatype Pusher<T> = Away | CheckAccepting(event: T) | FetchAdd(event: T) | Pushing(event: T)

  // Where the worker stands inside run; draining from the second loop on.
  datatype Worker<T> =
    | LoadRunning
    | Popping(draining: bool)
    | Callback(draining: bool, event: Option<T>)
    | FetchSub(draining: bool)
    | Lock(last: bool)
    | Notify(last: bool)
    | Unlock(last: bool)
    | Exited

  // Where a thread stands inside wait_until_idle; it holds idle_mutex while Testing, Sleepy or Leaving.
  datatype Waiter = Elsewhere | Locking | Testing | Sleepy | Asleep | Leaving

  datatype Holder = TheWorker | OneWaiter(w: nat)

  datatype Stopper = Up | AcceptingCleared | RunningCleared | Joined

  datatype State<T> = State(
    queue: Q.State<T>,
    accepting: bool,
    running: bool,
    inFlight: int,
    mutex: Option<Holder>,
    pushers: map<nat, Pusher<T>>,
    worker: Worker<T>,
    waiters: map<nat, Waiter>,
    stopper: Stopper,
    delivered: seq<Option<T>>)  // what the callback was given so far; no step reads it

  datatype Action<T> =
    | PushEnter(p: nat, event: T)
    | PushCheck(p: nat)
    | PushCount(p: nat)
    | PushQueue(step: Q.Action<T>)
    | WorkLoadRunning
    | WorkPop(step: Q.Action<T>)
    | WorkCallback
    | WorkFetchSub
    | WorkLock
    | WorkNotify
    | WorkUnlock
    | WaitEnter(w: nat)
    | WaitLock(w: nat)
    | WaitTest(w: nat)
    | WaitSleep(w: nat)
    | WaitWake(w: nat)
    | WaitLeave(w: nat)
    | StopAccepting
    | StopRunning
    | StopJoin

  function PusherAt<T>(s: State<T>, p: nat): Pusher<T> {
    if p in s.pushers then s.pushers[p] else Away
  }

  function WaiterAt<T>(s: State<T>, w: nat): Waiter {
    if w in s.waiters then s.waiters[w] else Elsewhere
  }

  function Start<T>(dummy: nat): State<T> {
    State(Q.Start(dummy), true, true, 0, None, map[], LoadRunning, map[], Up, [])
  }

  predicate PushStep<T>(a: Q.Action<T>) {
    a.PushNew? || a.PushExchange? || a.PushLink?
  }

  predicate PopStep<T>(a: Q.Action<T>) {
    a.PopLoadHead? || a.PopLoadNext? || a.PopRead? || a.PopStoreHead? || a.PopDelete?
  }

  ghost predicate Enabled<T>(s: State<T>, a: Action<T>) {
    match a
    case PushEnter(p, _) => PusherAt(s, p).Away?
    case PushCheck(p) => PusherAt(s, p).CheckAccepting?
    case PushCount(p) => PusherAt(s, p).FetchAdd?
    case PushQueue(step) =>
      && PushStep(step) && Q.Enabled(s.queue, step) && PusherAt(s, step.p).Pushing?
      && (step.PushNew? ==> step.value == PusherAt(s, step.p).event)
    case WorkLoadRunning => s.worker.LoadRunning?
    case WorkPop(step) => s.worker.Popping? && PopStep(step) && Q.Enabled(s.queue, step)
    case WorkCallback => s.worker.Callback?
    case WorkFetchSub => s.worker.FetchSub?
    case WorkLock => s.worker.Lock? && s.mutex.None?
    case WorkNotify => s.worker.Notify?
    case WorkUnlock => s.worker.Unlock?
    case WaitEnter(w) => WaiterAt(s, w).Elsewhere?
    case WaitLock(w) => WaiterAt(s, w).Locking? && s.mutex.None?
    case WaitTest(w) => WaiterAt(s, w).Testing?
    case WaitSleep(w) => WaiterAt(s, w).Sleepy?
    case WaitWake(w) => WaiterAt(s, w).Asleep?
    case WaitLeave(w) => WaiterAt(s, w).Leaving?
    case StopAccepting => s.stopper.Up?
    case StopRunning => s.stopper.AcceptingCleared?
    case StopJoin => s.stopper.RunningCleared? && s.worker.Exited?
  }

  // What the worker does next once its try_pop has taken step.
  function AfterPop<T>(draining: bool, before: Q.State<T>, step: Q.Action<T>, after: Q.State<T>): Worker<T> {
    if !after.consumer.Outside? then Popping(draining)
    else if step.PopDelete? && before.consumer.Delete? then Callback(draining, before.consumer.out)
    else if draining then Lock(true)
    else LoadRunning
  }

  ghost function Step<T>(s: State<T>, a: Action<T>): State<T>
    requires Enabled(s, a)
  {
    match a
    case PushEnter(p, event) => s.(pushers := s.pushers[p := CheckAccepting(event)])
    case PushCheck(p) =>
      s.(pushers := s.pushers[p := if s.accepting then FetchAdd(PusherAt(s, p).event) else Away])
    case PushCount(p) =>
      s.(inFlight := s.inFlight + 1, pushers := s.pushers[p := Pushing(PusherAt(s, p).event)])
    case PushQueue(step) =>
      s.(queue := Q.Step(s.queue, step),
         pushers := if step.PushLink? then s.pushers[step.p := Away] else s.pushers)
    case WorkLoadRunning => s.(worker := Popping(!s.running))
    case WorkPop(step) =>
      var after := Q.Step(s.queue, step);
      s.(queue := after, worker := AfterPop(s.worker.draining, s.queue, step, after))
    case WorkCallback =>
      s.(worker := FetchSub(s.worker.draining), delivered := s.delivered + [s.worker.event])
    case WorkFetchSub =>
      s.(inFlight := s.inFlight - 1,
         worker := if s.worker.draining then Popping(true) else if s.inFlight == 1 then Lock(false) else LoadRunning)
    case WorkLock => s.(mutex := Some(TheWorker), worker := Notify(s.worker.last))
    case WorkNotify =>
      s.(worker := Unlock(s.worker.last),
         waiters := map w | w in s.waiters :: if s.waiters[w].Asleep? then Locking else s.waiters[w])
    case WorkUnlock => s.(mutex := None, worker := if s.worker.last then Exited else LoadRunning)
    case WaitEnter(w) => s.(waiters := s.waiters[w := Locking])
    case WaitLock(w) => s.(mutex := Some(OneWaiter(w)), waiters := s.waiters[w := Testing])
    case WaitTest(w) => s.(waiters := s.waiters[w := if s.inFlight == 0 then Leaving else Sleepy])
    case WaitSleep(w) => s.(mutex := None, waiters := s.waiters[w := Asleep])
    case WaitWake(w) => s.(waiters := s.waiters[w := Locking])
    case WaitLeave(w) => s.(mutex := None, waiters := s.waiters[w := Elsewhere])
    case StopAccepting => s.(accepting := false, stopper := AcceptingCleared)
    case StopRunning => s.(running := false, stopper := RunningCleared)
    case StopJoin => s.(stopper := Joined)
  }

  // trace lists the states a run goes through, one step from each to the next.
  ghost predicate Behaviour<T>(trace: seq<State<T>>, run: seq<Action<T>>) {
    && |trace| == |run| + 1
    && forall i | 0 <= i < |run| :: Enabled(trace[i], run[i]) && trace[i + 1] == Step(trace[i], run[i])
  }
}
