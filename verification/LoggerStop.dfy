/**
 Exactly when stop drains the logger. Once running is false the worker can always finish, whatever
 the pushing threads do, so a push that is half-way when stop begins can be left behind for good.
 */
module LoggerStop {
  import opened Common
  import opened LoggerModel
  import opened LoggerSafety
  import opened LoggerTheorems
  import Q = LinkedModel
  import QS = LinkedSafety
  import LinkedQueue

  function AtPop<T>(k: Q.Consumer<T>): nat {
    match k
    case Outside => 120
    case LoadNext(_) => 110
    case Read(_, _) => 100
    case StoreHead(_, _, _) => 90
    case Delete(_, _) => 80
    case Peek(_) => 0
  }

  function HolderSteps<T>(s: State<T>): nat {
    match s.mutex
    case Some(OneWaiter(w)) => if WaiterAt(s, w).Testing? then 2 else 1
    case _ => 0
  }

  // How far the worker is from leaving run once running is false.
  function Rank<T>(s: State<T>): int {
    var place :=
      match s.worker
      case LoadRunning => 10
      case Popping(_) => AtPop(s.queue.consumer)
      case Callback(_, _) => 70
      case FetchSub(_) => 60
      case Lock(_) => 50 + HolderSteps(s)
      case Notify(_) => 40
      case Unlock(_) => 30
      case Exited => 0;
    10000 * (Queued(s) + if Holding(s) then 1 else 0) + (if Stopping(s) then 0 else 1000) + place
  }

  // Nothing the pushing and stopping threads see has moved.
  ghost predicate SamePushes<T>(s: State<T>, s': State<T>) {
    (s'.pushers, s'.queue.producers, s'.queue.history.exchanged, s'.stopper, s'.running)
    == (s.pushers, s.queue.producers, s.queue.history.exchanged, s.stopper, s.running)
  }

  // The next step of the worker, or of the waiter that keeps idle_mutex from it.
  function NextMove<T>(s: State<T>): Action<T> {
    match s.worker
    case LoadRunning => WorkLoadRunning
    case Popping(_) =>
      WorkPop(match s.queue.consumer
              case Outside => Q.PopLoadHead
              case LoadNext(_) => Q.PopLoadNext
              case Read(_, _) => Q.PopRead
              case StoreHead(_, _, _) => Q.PopStoreHead
              case _ => Q.PopDelete)
    case Callback(_, _) => WorkCallback
    case FetchSub(_) => WorkFetchSub
    case Lock(_) =>
      (match s.mutex
       case Some(OneWaiter(w)) =>
         if WaiterAt(s, w).Testing? then WaitTest(w) else if WaiterAt(s, w).Sleepy? then WaitSleep(w) else WaitLeave(w)
       case _ => WorkLock)
    case Notify(_) => WorkNotify
    case _ => WorkUnlock
  }

  lemma MoveProgress<T>(s: State<T>)
    requires Inv(s) && (WillNotify(s) || (!s.running && !s.worker.Exited?))
    ensures Enabled(s, NextMove(s)) && SamePushes(s, Step(s, NextMove(s)))
    ensures 0 <= Rank(Step(s, NextMove(s))) < Rank(s)
  {
    if s.worker.Popping? {
      PopProgress(s);
    } else if s.worker.Lock? {
      LockProgress(s);
    } else {
      OwnProgress(s);
    }
  }

  lemma LockProgress<T>(s: State<T>)
    requires Inv(s) && s.worker.Lock?
    ensures Enabled(s, NextMove(s)) && SamePushes(s, Step(s, NextMove(s)))
    ensures 0 <= Rank(Step(s, NextMove(s))) < Rank(s)
  {
    assert Queued(s) >= 0;
    if s.mutex.Some? && s.mutex.value.OneWaiter? {
      assert s.mutex == Some(OneWaiter(s.mutex.value.w));
    }
  }

  lemma OwnProgress<T>(s: State<T>)
    requires Inv(s) && (WillNotify(s) || (!s.running && !s.worker.Exited?)) && !s.worker.Popping? && !s.worker.Lock?
    ensures Enabled(s, NextMove(s)) && SamePushes(s, Step(s, NextMove(s)))
    ensures 0 <= Rank(Step(s, NextMove(s))) < Rank(s)
  {
    assert Queued(s) >= 0;
  }

  lemma PopProgress<T>(s: State<T>)
    requires Inv(s) && !s.running && s.worker.Popping?
    ensures Enabled(s, NextMove(s)) && SamePushes(s, Step(s, NextMove(s)))
    ensures 0 <= Rank(Step(s, NextMove(s))) < Rank(s)
  {
    assert QS.LinkOk(s.queue, 0);
    PopMovesOn(s);
    PopDescends(s);
  }

  lemma PopMovesOn<T>(s: State<T>)
    requires Inv(s) && s.worker.Popping?
    ensures Enabled(s, NextMove(s)) && SamePushes(s, Step(s, NextMove(s)))
  {
    assert QS.LinkOk(s.queue, 0);
    QS.NoFault(s.queue, NextMove(s).step);
  }

  lemma PopDescends<T>(s: State<T>)
    requires Inv(s) && !s.running && s.worker.Popping? && Enabled(s, NextMove(s))
    ensures 0 <= Rank(Step(s, NextMove(s))) < Rank(s)
  {
    var step := NextMove(s).step;
    assert QS.LinkOk(s.queue, 0);
    QS.NoFault(s.queue, step);
    QS.DeliveryStep(s.queue, step);
  }

  lemma LeadsReachable<T(!new)>(from: State<T>, s: State<T>)
    requires Reachable(from) && Leads(from, s)
    ensures Reachable(s)
  {
    var trace, run :| Behaviour(trace, run) && trace[0] == from && trace[|run|] == s;
    var i := 0;
    while i < |run|
      invariant i <= |run| && Reachable(trace[i])
    {
      ReachableStep(trace[i], run[i]);
      i := i + 1;
    }
  }

  // The worker can finish on its own, with at most the mutex's holder stepping aside.
  lemma {:induction false} WorkerFinishes<T(!new)>(from: State<T>, s: State<T>) returns (end: State<T>)
    requires Reachable(from) && !s.running && Leads(from, s) && 0 <= Rank(s)
    ensures Leads(from, end) && end.worker.Exited? && SamePushes(s, end)
    decreases Rank(s)
  {
    if s.worker.Exited? {
      end := s;
    } else {
      LeadsReachable(from, s);
      ReachableInv(s);
      MoveProgress(s);
      LeadsStep(from, s, NextMove(s));
      end := WorkerFinishes(from, Step(s, NextMove(s)));
    }
  }

  // A sleeper whom the worker is on its way to notify can be woken by the worker's own steps, with at most
  // the mutex's holder stepping aside.
  lemma {:induction false} WakesUp<T(!new)>(from: State<T>, s: State<T>, w: nat)
    requires Reachable(from) && Leads(from, s) && WillNotify(s)
    ensures exists end :: Leads(from, end) && SamePushes(s, end) && !WaiterAt(end, w).Asleep?
    decreases if Rank(s) < 0 then 0 else Rank(s)
  {
    if WaiterAt(s, w).Asleep? {
      var a := NextMove(s);
      LeadsReachable(from, s);
      ReachableInv(s);
      MoveProgress(s);
      LeadsStep(from, s, a);
      if s.worker.Notify? {
        assert !WaiterAt(Step(s, a), w).Asleep?;
      } else {
        WakesUp(from, Step(s, a), w);
      }
    }
  }

  // Hence a thread asleep with in_flight at 0 is never stranded.
  lemma SleeperCanWake<T(!new)>(s: State<T>, w: nat)
    requires Reachable(s) && WaiterAt(s, w).Asleep? && s.inFlight == 0
    ensures exists end :: Leads(s, end) && SamePushes(s, end) && !WaiterAt(end, w).Asleep?
  {
    ReachableInv(s);
    NoLostWakeup(s, w);
    LeadsNowhere(s);
    WakesUp(s, s, w);
  }

  // A half-way push goes on until its event is in the queue.
  lemma PushArrives<T(!new)>(from: State<T>, s: State<T>, p: nat)
    requires Reachable(from) && Leads(from, s) && (PusherAt(s, p).FetchAdd? || PusherAt(s, p).Pushing?)
    ensures exists end :: Leads(from, end) && Queued(end) > 0 && (end.stopper, end.worker) == (s.stopper, s.worker)
  {
    if PusherAt(s, p).FetchAdd? {
      LeadsStep(from, s, PushCount(p));
      QueuedUp(from, Step(s, PushCount(p)), p);
    } else {
      QueuedUp(from, s, p);
    }
  }

  lemma QueuedUp<T(!new)>(from: State<T>, s: State<T>, p: nat)
    requires Reachable(from) && Leads(from, s) && PusherAt(s, p).Pushing?
    ensures exists end :: Leads(from, end) && Queued(end) > 0 && (end.stopper, end.worker) == (s.stopper, s.worker)
  {
    LeadsReachable(from, s);
    ReachableInv(s);
    if Q.Pc(s.queue, p).Idle? {
      var node := LinkedQueue.AddressLeft(s.queue.nodes.Keys);
      var a := PushQueue(Q.PushNew(p, PusherAt(s, p).event, node));
      assert node !in s.queue.nodes.Keys;
      LeadsStep(from, s, a);
      ExchangedIn(from, Step(s, a), p);
    } else {
      ExchangedIn(from, s, p);
    }
  }

  lemma ExchangedIn<T(!new)>(from: State<T>, s: State<T>, p: nat)
    requires Reachable(from) && Leads(from, s) && PusherAt(s, p).Pushing? && !Q.Pc(s.queue, p).Idle?
    ensures exists end :: Leads(from, end) && Queued(end) > 0 && (end.stopper, end.worker) == (s.stopper, s.worker)
  {
    LeadsReachable(from, s);
    ReachableInv(s);
    assert QS.ProducerOk(s.queue, p);
    if Q.Pc(s.queue, p).Exchange? {
      var a := PushQueue(Q.PushExchange(p));
      LeadsStep(from, s, a);
      assert Queued(Step(s, a)) > 0;
    }
  }

  // stop is called at s, and s' is the state in which join returns.
  ghost predicate ReturnsAt<T(!new)>(s: State<T>, s': State<T>) {
    && Enabled(s, StopAccepting)
    && exists m :: Leads(Step(s, StopAccepting), m) && Enabled(m, StopJoin) && s' == Step(m, StopJoin)
  }

  /**
   stop has drained the queue for certain as join returns exactly when no push is past its accepting
   check and unfinished as stop begins. If one is, some schedule lets join return with an event still
   queued and in_flight not 0.
   */
  lemma DrainExactly<T(!new)>(s: State<T>)
    requires Reachable(s) && s.stopper.Up?
    ensures Quiet(s) <==> forall s' | ReturnsAt(s, s') :: Drained(s')
  {
    if Quiet(s) {
      forall s' | ReturnsAt(s, s') ensures Drained(s') {
        var m :| Leads(Step(s, StopAccepting), m) && Enabled(m, StopJoin) && s' == Step(m, StopJoin);
        LeadsStep(Step(s, StopAccepting), m, StopJoin);
        StopDrains(s, s');
      }
    } else {
      LeftBehind(s);
      var left :| ReturnsAt(s, left) && Queued(left) > 0 && left.inFlight > 0;
      assert !Drained(left);
    }
  }

  // The worker leaves first, then the half-way push puts its event into the queue, and only then join returns.
  lemma LeftBehind<T(!new)>(s: State<T>)
    requires Reachable(s) && s.stopper.Up? && !Quiet(s)
    ensures exists left :: ReturnsAt(s, left) && Queued(left) > 0 && left.inFlight > 0
  {
    var p :| !PusherAt(s, p).Away? && !PusherAt(s, p).CheckAccepting?;
    var from := Step(s, StopAccepting);
    var exited := WorkerLeaves(s);
    assert PusherAt(exited, p) == PusherAt(s, p);
    ReachableStep(s, StopAccepting);
    PushArrives(from, exited, p);
    var m :| Leads(from, m) && Queued(m) > 0 && (m.stopper, m.worker) == (exited.stopper, exited.worker);
    assert m.inFlight > 0 by {
      LeadsReachable(from, m);
      Accounting(m);
    }
    var left := Step(m, StopJoin);
    assert ReturnsAt(s, left);
  }

  // So the promise does fail. Right after start one push gets past its accepting check; then some run
  // lets join return with an event queued and in_flight not 0.
  lemma UndrainedStop<T(!new)>(dummy: nat, event: T)
    ensures exists s, left: State<T> ::
              && Reachable(s) && s.stopper.Up? && PusherAt(s, 0) == FetchAdd(event)
              && ReturnsAt(s, left) && Queued(left) > 0 && left.inFlight > 0 && !Drained(left)
  {
    ReachableStart<T>(dummy);
    var s := Start<T>(dummy);
    ReachableStep(s, PushEnter(0, event));
    s := Step(s, PushEnter(0, event));
    ReachableStep(s, PushCheck(0));
    s := Step(s, PushCheck(0));
    assert !PusherAt(s, 0).Away? && !PusherAt(s, 0).CheckAccepting?;
    LeftBehind(s);
    var left :| ReturnsAt(s, left) && Queued(left) > 0 && left.inFlight > 0;
  }

  // stop can get as far as its join, and the worker to its end, without any push moving.
  lemma WorkerLeaves<T(!new)>(s: State<T>) returns (exited: State<T>)
    requires Reachable(s) && s.stopper.Up?
    ensures Leads(Step(s, StopAccepting), exited)
    ensures Enabled(exited, StopJoin) && exited.pushers == s.pushers
  {
    var from := Step(s, StopAccepting);
    ReachableStep(s, StopAccepting);
    LeadsNowhere(from);
    LeadsStep(from, from, StopRunning);
    var stopped := Step(from, StopRunning);
    LeadsReachable(from, stopped);
    ReachableInv(stopped);
    RankNonNegative(stopped);
    exited := WorkerFinishes(from, stopped);
  }

  lemma RankNonNegative<T>(s: State<T>)
    requires Inv(s)
    ensures Rank(s) >= 0
  {
    assert Queued(s) >= 0;
  }
}
