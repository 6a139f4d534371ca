/**
 The logger's invariant: what in_flight counts, what has been delivered, who holds the mutex, and who
 will wake sleepers.
 */
module LoggerSafety {
  import opened Common
  import opened LoggerModel
  import Q = LinkedModel
  import QS = LinkedSafety

  // Thread p has counted its event and not yet exchanged it into the queue.
  ghost predicate CountedOnly<T>(s: State<T>, p: nat) {
    PusherAt(s, p).Pushing? && !Q.Pc(s.queue, p).Link?
  }

  ghost function CountedOnlySet<T>(s: State<T>): set<nat> {
    set p | p in s.pushers && CountedOnly(s, p)
  }

  // Events exchanged into the queue whose nodes head has not moved to.
  function Queued<T>(s: State<T>): int {
    |s.queue.history.exchanged| - |s.queue.history.popped|
  }

  // The worker has taken an event out and not yet decremented in_flight for it.
  predicate Holding<T>(s: State<T>) {
    s.worker.Callback? || s.worker.FetchSub? || (s.worker.Popping? && s.queue.consumer.Delete?)
  }

  // The event the worker has taken out and not yet reported.
  function Carried<T>(s: State<T>): seq<Option<T>> {
    if s.worker.Callback? then [s.worker.event]
    else if s.worker.Popping? && s.queue.consumer.Delete? then [s.queue.consumer.out]
    else []
  }

  ghost predicate QueueOk<T>(s: State<T>) {
    && QS.Inv(s.queue)
    && (forall p :: !PusherAt(s, p).Pushing? ==> Q.Pc(s.queue, p).Idle?)
    && !s.queue.consumer.Peek?
    && (!s.worker.Popping? ==> s.queue.consumer.Outside?)
  }

  ghost predicate CountOk<T>(s: State<T>) {
    s.inFlight == |CountedOnlySet(s)| + Queued(s) + if Holding(s) then 1 else 0
  }

  ghost predicate DeliveryOk<T>(s: State<T>) {
    s.delivered + Carried(s) == s.queue.history.popped
  }

  ghost predicate MutexOk<T>(s: State<T>) {
    && (s.mutex == Some(TheWorker) <==> s.worker.Notify? || s.worker.Unlock?)
    && (forall w :: s.mutex == Some(OneWaiter(w)) <==>
          WaiterAt(s, w).Testing? || WaiterAt(s, w).Sleepy? || WaiterAt(s, w).Leaving?)
  }

  // The worker still has a notify_all ahead of it, whatever it meets.
  predicate WillNotify<T>(s: State<T>) {
    match s.worker
    case Lock(_) => true
    case Notify(_) => true
    case Popping(d) => d
    case Callback(d, _) => d
    case FetchSub(d) => d
    case _ => false
  }

  ghost predicate WakeOk<T>(s: State<T>) {
    && (s.inFlight == 0 && !WillNotify(s) ==> forall w :: !WaiterAt(s, w).Sleepy? && !WaiterAt(s, w).Asleep?)
    && (s.worker.Unlock? ==> forall w :: !WaiterAt(s, w).Sleepy? && !WaiterAt(s, w).Asleep?)
  }

  // Past the main loop, or in it only for as long as running was true.
  predicate Stopping<T>(s: State<T>) {
    match s.worker
    case Popping(d) => d
    case Callback(d, _) => d
    case FetchSub(d) => d
    case Lock(last) => last
    case Notify(last) => last
    case Unlock(last) => last
    case Exited => true
    case LoadRunning => false
  }

  predicate StopOk<T>(s: State<T>) {
    && (s.accepting <==> s.stopper.Up?)
    && (s.running <==> s.stopper.Up? || s.stopper.AcceptingCleared?)
    && (Stopping(s) ==> !s.running)
    && (s.stopper.Joined? ==> s.worker.Exited?)
  }

  ghost predicate Inv<T>(s: State<T>) {
    QueueOk(s) && CountOk(s) && DeliveryOk(s) && MutexOk(s) && WakeOk(s) && StopOk(s)
  }

  lemma StartInv<T>(dummy: nat)
    ensures Inv<T>(Start(dummy))
  {
    QS.StartInv<T>(dummy);
    assert CountedOnlySet<T>(Start(dummy)) == {};
  }

  lemma InvStep<T>(s: State<T>, a: Action<T>)
    requires Inv(s) && Enabled(s, a)
    ensures Inv(Step(s, a))
  {
    QueueStep(s, a);
    CountStep(s, a);
    DeliveryStep(s, a);
    MutexStep(s, a);
    WakeStep(s, a);
    StopStep(s, a);
  }

  lemma QueueStep<T>(s: State<T>, a: Action<T>)
    requires QueueOk(s) && Enabled(s, a)
    ensures QueueOk(Step(s, a))
  {
    if a.PushQueue? {
      PushMoves(s, a);
    } else if a.WorkPop? {
      PopMoves(s, a);
    } else {
      QueueRests(s, a);
    }
  }

  lemma PushMoves<T>(s: State<T>, a: Action<T>)
    requires QueueOk(s) && Enabled(s, a) && a.PushQueue?
    ensures QueueOk(Step(s, a))
  {
    var s' := Step(s, a);
    QS.InvStep(s.queue, a.step);
    QS.NoFault(s.queue, a.step);
    forall p ensures !PusherAt(s', p).Pushing? ==> Q.Pc(s'.queue, p).Idle? {
      assert !PusherAt(s, p).Pushing? ==> Q.Pc(s.queue, p).Idle?;
      if p != a.step.p { QS.OthersStay(s.queue, a.step, p); }
    }
  }

  lemma PopMoves<T>(s: State<T>, a: Action<T>)
    requires QueueOk(s) && Enabled(s, a) && a.WorkPop?
    ensures QueueOk(Step(s, a))
  {
    var s' := Step(s, a);
    QS.InvStep(s.queue, a.step);
    QS.NoFault(s.queue, a.step);
    forall p ensures !PusherAt(s', p).Pushing? ==> Q.Pc(s'.queue, p).Idle? {
      assert !PusherAt(s, p).Pushing? ==> Q.Pc(s.queue, p).Idle?;
      QS.OthersStay(s.queue, a.step, p);
    }
  }

  lemma QueueRests<T>(s: State<T>, a: Action<T>)
    requires QueueOk(s) && Enabled(s, a) && !a.PushQueue? && !a.WorkPop?
    ensures QueueOk(Step(s, a))
  {
    var s' := Step(s, a);
    forall p ensures !PusherAt(s', p).Pushing? ==> Q.Pc(s'.queue, p).Idle? {
      assert !PusherAt(s, p).Pushing? ==> Q.Pc(s.queue, p).Idle?;
    }
  }

  lemma CountStep<T>(s: State<T>, a: Action<T>)
    requires QueueOk(s) && CountOk(s) && Enabled(s, a)
    ensures CountOk(Step(s, a))
  {
    match a
    case PushQueue(_) => CountAfterQueue(s, a);
    case WorkPop(_) => CountAfterPop(s, a);
    case PushEnter(_, _) => CountAfterEnter(s, a);
    case PushCheck(_) => CountAfterEnter(s, a);
    case PushCount(_) => CountAfterEnter(s, a);
    case _ => SameCount(s, Step(s, a));
  }

  lemma CountAfterEnter<T>(s: State<T>, a: Action<T>)
    requires QueueOk(s) && CountOk(s) && Enabled(s, a) && (a.PushEnter? || a.PushCheck? || a.PushCount?)
    ensures CountOk(Step(s, a))
  {
    if a.PushCount? {
      assert CountedOnlySet(Step(s, a)) == CountedOnlySet(s) + {a.p};
    } else {
      assert CountedOnlySet(Step(s, a)) == CountedOnlySet(s);
    }
  }

  lemma SameCount<T>(s: State<T>, s': State<T>)
    requires s'.pushers == s.pushers && s'.queue == s.queue
    ensures CountedOnlySet(s') == CountedOnlySet(s)
  {
    forall p ensures CountedOnly(s', p) == CountedOnly(s, p) {}
  }

  // Of the queue's own steps only the exchange moves an event from counted to queued.
  lemma CountAfterQueue<T>(s: State<T>, a: Action<T>)
    requires QueueOk(s) && CountOk(s) && Enabled(s, a) && a.PushQueue?
    ensures CountOk(Step(s, a))
  {
    var s' := Step(s, a);
    QS.NoFault(s.queue, a.step);
    forall p | p in s.pushers && p != a.step.p ensures CountedOnly(s', p) == CountedOnly(s, p) {
      QS.OthersStay(s.queue, a.step, p);
    }
    if a.step.PushExchange? {
      assert CountedOnlySet(s') == CountedOnlySet(s) - {a.step.p};
    } else {
      assert CountedOnlySet(s') == CountedOnlySet(s);
    }
  }

  lemma CountAfterPop<T>(s: State<T>, a: Action<T>)
    requires QueueOk(s) && CountOk(s) && Enabled(s, a) && a.WorkPop?
    ensures CountOk(Step(s, a))
  {
    var s' := Step(s, a);
    QS.NoFault(s.queue, a.step);
    forall p | p in s.pushers ensures CountedOnly(s', p) == CountedOnly(s, p) {
      QS.OthersStay(s.queue, a.step, p);
    }
    assert CountedOnlySet(s') == CountedOnlySet(s);
  }

  lemma DeliveryStep<T>(s: State<T>, a: Action<T>)
    requires QueueOk(s) && DeliveryOk(s) && Enabled(s, a)
    ensures DeliveryOk(Step(s, a))
  {
    if a.PushQueue? {
      PushDelivers(s, a);
    } else if a.WorkPop? {
      PopDelivers(s, a);
    }
  }

  lemma PushDelivers<T>(s: State<T>, a: Action<T>)
    requires QueueOk(s) && DeliveryOk(s) && Enabled(s, a) && a.PushQueue?
    ensures DeliveryOk(Step(s, a))
  {
    QS.NoFault(s.queue, a.step);
  }

  lemma PopDelivers<T>(s: State<T>, a: Action<T>)
    requires QueueOk(s) && DeliveryOk(s) && Enabled(s, a) && a.WorkPop?
    ensures DeliveryOk(Step(s, a))
  {
    QS.NoFault(s.queue, a.step);
  }

  lemma MutexStep<T>(s: State<T>, a: Action<T>)
    requires MutexOk(s) && Enabled(s, a)
    ensures MutexOk(Step(s, a))
  {
    var s' := Step(s, a);
    forall w ensures s'.mutex == Some(OneWaiter(w)) <==>
                WaiterAt(s', w).Testing? || WaiterAt(s', w).Sleepy? || WaiterAt(s', w).Leaving?
    {
      assert s.mutex == Some(OneWaiter(w)) <==>
             WaiterAt(s, w).Testing? || WaiterAt(s, w).Sleepy? || WaiterAt(s, w).Leaving?;
    }
  }

  lemma WakeStep<T>(s: State<T>, a: Action<T>)
    requires QueueOk(s) && CountOk(s) && MutexOk(s) && WakeOk(s) && Enabled(s, a)
    ensures WakeOk(Step(s, a))
  {
    var s' := Step(s, a);
    forall w | MustBeAwake(s')
      ensures !WaiterAt(s', w).Sleepy? && !WaiterAt(s', w).Asleep?
    {
      WakeFor(s, a, w);
    }
  }

  // No waiter may be asleep or about to sleep.
  predicate MustBeAwake<T>(s: State<T>) {
    (s.inFlight == 0 && !WillNotify(s)) || s.worker.Unlock?
  }

  lemma WakeFor<T>(s: State<T>, a: Action<T>, w: nat)
    requires QueueOk(s) && CountOk(s) && MutexOk(s) && WakeOk(s) && Enabled(s, a) && MustBeAwake(Step(s, a))
    ensures !WaiterAt(Step(s, a), w).Sleepy? && !WaiterAt(Step(s, a), w).Asleep?
  {
    if a.WaitEnter? || a.WaitLock? || a.WaitTest? || a.WaitSleep? || a.WaitWake? || a.WaitLeave? {
      WakeBesideWaiter(s, a, w);
    } else if a.WorkNotify? {
      assert s.mutex == Some(OneWaiter(w)) <==>
             WaiterAt(s, w).Testing? || WaiterAt(s, w).Sleepy? || WaiterAt(s, w).Leaving?;
    } else {
      WasAwake(s, a);
      assert WaiterAt(Step(s, a), w) == WaiterAt(s, w);
      assert !WaiterAt(s, w).Sleepy? && !WaiterAt(s, w).Asleep?;
    }
  }

  lemma WakeBesideWaiter<T>(s: State<T>, a: Action<T>, w: nat)
    requires WakeOk(s) && Enabled(s, a) && MustBeAwake(Step(s, a))
    requires a.WaitEnter? || a.WaitLock? || a.WaitTest? || a.WaitSleep? || a.WaitWake? || a.WaitLeave?
    requires MutexOk(s)
    ensures !WaiterAt(Step(s, a), w).Sleepy? && !WaiterAt(Step(s, a), w).Asleep?
  {
    assert !WaiterAt(s, a.w).Sleepy? && !WaiterAt(s, a.w).Asleep? && !WaiterAt(s, w).Sleepy? && !WaiterAt(s, w).Asleep?;
    if a.WaitTest? {
      assert s.mutex == Some(OneWaiter(a.w));
    }
  }

  lemma WasAwake<T>(s: State<T>, a: Action<T>)
    requires QueueOk(s) && CountOk(s) && Enabled(s, a) && MustBeAwake(Step(s, a))
    requires !a.WaitEnter? && !a.WaitLock? && !a.WaitTest? && !a.WaitSleep? && !a.WaitWake? && !a.WaitLeave?
    requires !a.WorkNotify?
    ensures MustBeAwake(s) && Step(s, a).waiters == s.waiters
  {
    assert Queued(s) >= 0;
  }

  lemma StopStep<T>(s: State<T>, a: Action<T>)
    requires StopOk(s) && Enabled(s, a)
    ensures StopOk(Step(s, a))
  {}
}
