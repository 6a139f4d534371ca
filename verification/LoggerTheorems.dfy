/** The logger's whole-run results: exact accounting, no lost wakeup, and when stop drains everything. */
module LoggerTheorems {
  import opened Common
  import opened LoggerModel
  import opened LoggerSafety
  import Q = LinkedModel
  import QS = LinkedSafety

  ghost predicate Reachable<T(!new)>(s: State<T>) {
    exists dummy, trace, run {:trigger Behaviour(trace, run), Start<T>(dummy)} ::
      Behaviour(trace, run) && trace[0] == Start(dummy) && trace[|run|] == s
  }

  lemma ReachableInv<T(!new)>(s: State<T>)
    requires Reachable(s)
    ensures Inv(s)
  {
    var dummy, trace, run :| Behaviour(trace, run) && trace[0] == Start<T>(dummy) && trace[|run|] == s;
    StartInv<T>(dummy);
    var i := 0;
    while i < |run|
      invariant i <= |run| && Inv(trace[i])
    {
      InvStep(trace[i], run[i]);
      i := i + 1;
    }
  }

  lemma ReachableStart<T(!new)>(dummy: nat)
    ensures Reachable(Start<T>(dummy))
  {
    assert Behaviour<T>([Start(dummy)], []);
  }

  lemma ReachableStep<T(!new)>(s: State<T>, a: Action<T>)
    requires Reachable(s) && Enabled(s, a)
    ensures Reachable(Step(s, a))
  {
    var dummy, trace, run :| Behaviour(trace, run) && trace[0] == Start<T>(dummy) && trace[|run|] == s;
    assert Behaviour(trace + [Step(s, a)], run + [a]);
  }

  /**
   Accounting. in_flight is at all times the number of threads that have counted their event and
   not yet exchanged it, plus the events in the queue, plus the one in the worker's hands; and the
   callback has seen the exchanged events in order, up to those still queued or carried.
   */
  lemma Accounting<T(!new)>(s: State<T>)
    requires Reachable(s)
    ensures s.inFlight == |CountedOnlySet(s)| + Queued(s) + (if Holding(s) then 1 else 0)
    ensures 0 <= Queued(s) <= s.inFlight
    ensures
      var h := s.queue.history;
      && s.delivered + Carried(s) == h.popped
      && |h.popped| <= |h.exchanged|
      && forall i | 0 <= i < |h.popped| :: h.popped[i] == Some(h.exchanged[i].value)
  {
    ReachableInv(s);
  }

  /**
   No lost wakeup. If a thread sleeps in wait_until_idle while in_flight is 0, the worker is on its
   way to a notify_all: every step of anyone either keeps it on its way, or is that notify_all and
   wakes the sleeper.
   */
  lemma NoLostWakeup<T(!new)>(s: State<T>, w: nat)
    requires Reachable(s) && WaiterAt(s, w).Asleep? && s.inFlight == 0
    ensures WillNotify(s)
    ensures forall a | Enabled(s, a) ::
              if a.WorkNotify? then WaiterAt(Step(s, a), w).Locking? else WillNotify(Step(s, a))
  {
    ReachableInv(s);
    forall a | Enabled(s, a)
      ensures if a.WorkNotify? then WaiterAt(Step(s, a), w).Locking? else WillNotify(Step(s, a))
    {
    }
  }

  /**
   What a return from wait_until_idle means. The wait ends exactly when the test sees in_flight 0;
   then every push counted so far has been exchanged, taken out and reported, in exchange order.
   */
  lemma IdleMeansDelivered<T(!new)>(s: State<T>, w: nat)
    requires Reachable(s) && WaiterAt(s, w).Testing?
    ensures WaiterAt(Step(s, WaitTest(w)), w).Leaving? <==> s.inFlight == 0
    ensures s.inFlight == 0 ==>
              && (forall p :: !PusherAt(s, p).Pushing?)
              && |s.delivered| == |s.queue.history.exchanged|
              && forall i | 0 <= i < |s.delivered| :: s.delivered[i] == Some(s.queue.history.exchanged[i].value)
  {
    ReachableInv(s);
    if s.inFlight == 0 {
      assert CountedOnlySet(s) == {};
      forall p ensures !PusherAt(s, p).Pushing? {
        assert QS.ProducerOk(s.queue, p);
        assert CountedOnly(s, p) ==> p in CountedOnlySet(s);
      }
    }
  }

  // ---- Stopping -------------------------------------------------------------------------------

  // No push is past its accepting check and unfinished.
  ghost predicate Quiet<T>(s: State<T>) {
    forall p :: PusherAt(s, p).Away? || PusherAt(s, p).CheckAccepting?
  }

  predicate PastDrain<T>(s: State<T>) {
    Stopping(s) && !s.worker.Popping? && !s.worker.Callback? && !s.worker.FetchSub?
  }

  // Nothing is left behind: the queue is empty, in_flight is 0 and all that was exchanged has been reported.
  ghost predicate Drained<T>(s: State<T>) {
    var h := s.queue.history;
    && |h.popped| == |h.exchanged| && s.inFlight == 0
    && |s.delivered| == |h.exchanged|
    && forall i | 0 <= i < |s.delivered| :: s.delivered[i] == Some(h.exchanged[i].value)
  }

  // From a quiet refusal on, no push starts, and past its drain the worker leaves nothing queued.
  ghost predicate QuietStop<T>(s: State<T>) {
    && Inv(s) && !s.accepting && Quiet(s)
    && (PastDrain(s) ==> Queued(s) == 0)
  }

  lemma QuietStays<T>(s: State<T>, a: Action<T>)
    requires Quiet(s) && !s.accepting && Enabled(s, a)
    ensures Quiet(Step(s, a)) && !Step(s, a).accepting
  {
    var s' := Step(s, a);
    forall p ensures PusherAt(s', p).Away? || PusherAt(s', p).CheckAccepting? {
      assert PusherAt(s, p).Away? || PusherAt(s, p).CheckAccepting?;
    }
  }

  lemma QuietStopStep<T>(s: State<T>, a: Action<T>)
    requires QuietStop(s) && Enabled(s, a)
    ensures QuietStop(Step(s, a))
  {
    var s' := Step(s, a);
    InvStep(s, a);
    QuietStays(s, a);
    if a.WorkPop? && PastDrain(s') {
      EmptyWhenUnlinkedHead(s, a.step);
    }
  }

  // With no push under way, a failed try_pop means an empty queue.
  lemma EmptyWhenUnlinkedHead<T>(s: State<T>, step: Q.Action<T>)
    requires Inv(s) && Quiet(s) && Enabled(s, WorkPop(step)) && PastDrain(Step(s, WorkPop(step)))
    ensures Queued(Step(s, WorkPop(step))) == 0
  {
    var q := s.queue;
    QS.NoFault(q, step);
    assert QS.LinkOk(q, 0);
    forall p ensures Q.Pc(q, p).Idle? {
      assert PusherAt(s, p).Away? || PusherAt(s, p).CheckAccepting?;
    }
  }

  ghost predicate Leads<T(!new)>(s: State<T>, s': State<T>) {
    exists trace, run {:trigger Behaviour(trace, run)} ::
      Behaviour(trace, run) && trace[0] == s && trace[|run|] == s'
  }

  lemma LeadsStep<T(!new)>(s: State<T>, m: State<T>, a: Action<T>)
    requires Leads(s, m) && Enabled(m, a)
    ensures Leads(s, Step(m, a))
  {
    var trace, run :| Behaviour(trace, run) && trace[0] == s && trace[|run|] == m;
    assert Behaviour(trace + [Step(m, a)], run + [a]);
  }

  lemma LeadsNowhere<T(!new)>(s: State<T>)
    ensures Leads(s, s)
  {
    assert Behaviour([s], []);
  }

  // stop is called at s; at s', then or later, join has returned.
  ghost predicate StopsAt<T(!new)>(s: State<T>, s': State<T>) {
    Enabled(s, StopAccepting) && Leads(Step(s, StopAccepting), s') && s'.stopper.Joined?
  }

  lemma StopIsQuiet<T>(s: State<T>)
    requires Inv(s) && Quiet(s) && Enabled(s, StopAccepting)
    ensures QuietStop(Step(s, StopAccepting))
  {
    InvStep(s, StopAccepting);
    var s' := Step(s, StopAccepting);
    forall p ensures PusherAt(s', p) == PusherAt(s, p) {}
  }

  lemma QuietStopLasts<T(!new)>(s: State<T>, s': State<T>)
    requires QuietStop(s) && Leads(s, s')
    ensures QuietStop(s')
  {
    var trace, run :| Behaviour(trace, run) && trace[0] == s && trace[|run|] == s';
    var i := 0;
    while i < |run|
      invariant i <= |run| && QuietStop(trace[i])
    {
      QuietStopStep(trace[i], run[i]);
      i := i + 1;
    }
  }

  // A stop that begins when no push is half-way drains everything, whatever happens meanwhile.
  lemma StopDrains<T(!new)>(s: State<T>, s': State<T>)
    requires Reachable(s) && Quiet(s) && StopsAt(s, s')
    ensures Drained(s')
  {
    ReachableInv(s);
    StopIsQuiet(s);
    QuietStopLasts(Step(s, StopAccepting), s');
    QuietExit(s');
  }

  lemma QuietExit<T>(s: State<T>)
    requires QuietStop(s) && s.worker.Exited?
    ensures Drained(s)
  {
    assert CountedOnlySet(s) == {} by {
      forall p ensures !CountedOnly(s, p) {
        assert PusherAt(s, p).Away? || PusherAt(s, p).CheckAccepting?;
      }
    }
  }
}
