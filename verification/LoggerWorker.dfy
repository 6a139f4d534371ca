/**
 LoggerWorker as an object around an MpscQueue, both updated in place. Every atomic operation of
 push, run, wait_until_idle and stop is one method that performs exactly one step of LoggerModel;
 Push, Run, WaitUntilIdle and Stop string them together, with other threads running in between.
 Loops that may go on for ever are cut off after a number of rounds the caller gives.
 */
module LoggerWorker {
  import opened Common
  import opened Claims
  import opened LoggerModel
  import opened LoggerSafety
  import opened LoggerTheorems
  import Q = LinkedModel
  import QS = LinkedSafety
  import LinkedQueue
  import LinkedTheorems

  datatype Thread = APusher(p: nat) | Worker | AWaiter(w: nat) | AStopper

  function Actor<T>(a: Action<T>): Thread {
    match a
    case PushEnter(p, _) => APusher(p)
    case PushCheck(p) => APusher(p)
    case PushCount(p) => APusher(p)
    case PushQueue(step) => if PushStep(step) then APusher(step.p) else Worker
    case WaitEnter(w) => AWaiter(w)
    case WaitLock(w) => AWaiter(w)
    case WaitTest(w) => AWaiter(w)
    case WaitSleep(w) => AWaiter(w)
    case WaitWake(w) => AWaiter(w)
    case WaitLeave(w) => AWaiter(w)
    case StopAccepting => AStopper
    case StopRunning => AStopper
    case StopJoin => AStopper
    case _ => Worker
  }

  // s' comes from s by steps of threads other than me, any number of them in any order.
  ghost predicate OthersRan<T(!new)>(s: State<T>, s': State<T>, me: Thread) {
    exists trace, run {:trigger Behaviour(trace, run)} ::
      && Behaviour(trace, run) && trace[0] == s && trace[|run|] == s'
      && forall i | 0 <= i < |run| :: Actor(run[i]) != me
  }

  // What no other thread can change behind the back of me. A sleeping waiter may be woken.
  ghost predicate Unmoved<T>(s: State<T>, s': State<T>, me: Thread) {
    && s.queue.history.exchanged <= s'.queue.history.exchanged && s.delivered <= s'.delivered
    && match me
       case APusher(p) =>
         && PusherAt(s', p) == PusherAt(s, p) && Q.Pc(s'.queue, p) == Q.Pc(s.queue, p)
         && ClaimedBy(s'.queue.history.exchanged, p) == ClaimedBy(s.queue.history.exchanged, p)
       case Worker => WorkerUnmoved(s, s')
       case AWaiter(w) => WaiterUnmoved(s, s', w)
       case AStopper => s'.stopper == s.stopper && (s.worker.Exited? ==> s'.worker.Exited?)
  }

  ghost predicate WorkerUnmoved<T>(s: State<T>, s': State<T>) {
    && s'.worker == s.worker && s'.queue.consumer == s.queue.consumer
    && s'.queue.history.popped == s.queue.history.popped && s'.delivered == s.delivered
    && (s.mutex == Some(TheWorker) ==> s'.mutex == s.mutex)
    && QS.Lasting(s.queue, s'.queue) && (!s.running ==> !s'.running)
  }

  ghost predicate WaiterUnmoved<T>(s: State<T>, s': State<T>, w: nat) {
    && (WaiterAt(s', w) == WaiterAt(s, w) || (WaiterAt(s, w).Asleep? && WaiterAt(s', w).Locking?))
    && (s.mutex == Some(OneWaiter(w)) ==> s'.mutex == s.mutex)
  }

  lemma OtherStep<T(!new)>(s: State<T>, a: Action<T>, me: Thread)
    requires Inv(s) && Enabled(s, a) && Actor(a) != me
    ensures Unmoved(s, Step(s, a), me)
  {
    RecordsGrow(s, a);
    match me
    case APusher(p) => PusherStays(s, a, p);
    case Worker => WorkerStays(s, a);
    case AWaiter(w) => WaiterStays(s, a, w);
    case AStopper =>
  }

  lemma RecordsGrow<T>(s: State<T>, a: Action<T>)
    requires Inv(s) && Enabled(s, a)
    ensures s.queue.history.exchanged <= Step(s, a).queue.history.exchanged && s.delivered <= Step(s, a).delivered
  {
    if a.PushQueue? || a.WorkPop? { ExchangedGrows(s.queue, a.step); }
  }

  lemma PusherStays<T>(s: State<T>, a: Action<T>, p: nat)
    requires Inv(s) && Enabled(s, a) && Actor(a) != APusher(p)
    ensures
      var s' := Step(s, a);
      && PusherAt(s', p) == PusherAt(s, p) && Q.Pc(s'.queue, p) == Q.Pc(s.queue, p)
      && ClaimedBy(s'.queue.history.exchanged, p) == ClaimedBy(s.queue.history.exchanged, p)
  {
    if a.PushQueue? || a.WorkPop? {
      QS.NoFault(s.queue, a.step);
      ExchangedGrows(s.queue, a.step);
      QS.OthersStay(s.queue, a.step, p);
    }
  }

  lemma ExchangedGrows<T>(q: Q.State<T>, step: Q.Action<T>)
    requires Q.Enabled(q, step)
    ensures q.history.exchanged <= Q.Step(q, step).history.exchanged
    ensures forall p | !QS.Mover(step, p) ::
              ClaimedBy(Q.Step(q, step).history.exchanged, p) == ClaimedBy(q.history.exchanged, p)
  {
    if step.PushExchange? {
      assert Q.Step(q, step).history.exchanged[..|q.history.exchanged|] == q.history.exchanged;
    }
  }

  // Once stop is quiet it stays so, whoever moves.
  lemma OthersLead<T(!new)>(s: State<T>, s': State<T>, me: Thread)
    requires OthersRan(s, s', me)
    ensures Leads(s, s')
  {}

  lemma WorkerStays<T>(s: State<T>, a: Action<T>)
    requires Inv(s) && Enabled(s, a) && Actor(a) != Worker
    ensures WorkerUnmoved(s, Step(s, a))
  {
    if a.PushQueue? {
      QS.NoFault(s.queue, a.step);
      QS.LinkedLasts(s.queue, a.step);
    }
    if a.WaitSleep? || a.WaitLeave? { assert s.mutex == Some(OneWaiter(a.w)); }
  }

  lemma WaiterStays<T>(s: State<T>, a: Action<T>, w: nat)
    requires Inv(s) && Enabled(s, a) && Actor(a) != AWaiter(w)
    ensures WaiterUnmoved(s, Step(s, a), w)
  {
    if a.WaitSleep? || a.WaitLeave? { assert s.mutex == Some(OneWaiter(a.w)); }
  }

  // Whatever the others do, the logger stays reachable and me's own standing is untouched.
  lemma OthersLeave<T(!new)>(s: State<T>, s': State<T>, me: Thread)
    requires Reachable(s) && OthersRan(s, s', me)
    ensures Reachable(s') && Unmoved(s, s', me)
  {
    var trace, run :| Behaviour(trace, run) && trace[0] == s && trace[|run|] == s'
      && forall i | 0 <= i < |run| :: Actor(run[i]) != me;
    var i := 0;
    while i < |run|
      invariant i <= |run| && Reachable(trace[i]) && Unmoved(s, trace[i], me)
    {
      ReachableInv(trace[i]);
      ReachableStep(trace[i], run[i]);
      OtherStep(trace[i], run[i], me);
      i := i + 1;
    }
  }

  // On the way from s to s' there was a moment when idle_mutex was taken or in_flight not 0.
  ghost predicate Blocked<T(!new)>(s: State<T>, s': State<T>) {
    exists m :: Leads(s, m) && Leads(m, s') && (m.mutex.Some? || m.inFlight != 0)
  }

  lemma LeadsOn<T(!new)>(s: State<T>, m: State<T>, s': State<T>)
    requires Leads(s, m) && Leads(m, s')
    ensures Leads(s, s')
  {
    var front, first :| Behaviour(front, first) && front[0] == s && front[|first|] == m;
    var back, second :| Behaviour(back, second) && back[0] == m && back[|second|] == s';
    var trace, run := front + back[1..], first + second;
    forall i | 0 <= i < |run| ensures Enabled(trace[i], run[i]) && trace[i + 1] == Step(trace[i], run[i]) {
      if i >= |first| { assert trace[i] == back[i - |first|] && trace[i + 1] == back[i - |first| + 1]; }
    }
    assert Behaviour(trace, run);
  }

  // Others moved, and then one more step was made.
  lemma LeadsThen<T(!new)>(s: State<T>, m: State<T>, me: Thread, a: Action<T>)
    requires OthersRan(s, m, me) && Enabled(m, a)
    ensures Leads(s, Step(m, a))
  {
    OthersLead(s, m, me);
    LeadsStep(s, m, a);
  }

  lemma WaitGoesOn<T(!new)>(s: State<T>, m: State<T>, s': State<T>, over: bool)
    requires Leads(s, m) && (!over ==> Blocked(m, s'))
    ensures !over ==> Leads(s, s') && Blocked(s, s')
  {
    if !over {
      var b :| Leads(m, b) && Leads(b, s') && (b.mutex.Some? || b.inFlight != 0);
      LeadsOn(s, m, b);
      LeadsOn(s, b, s');
    }
  }

  // From q to later every event next in line that was linked at q has been popped, as far as rounds reach.
  ghost predicate LeavesNone<T>(q: Q.State<T>, later: Q.State<T>, rounds: nat) {
    forall n: nat | QS.Waiting(q, n) && n <= rounds :: |q.history.popped| + n <= |later.history.popped|
  }

  lemma NoneLeft<T>(q: Q.State<T>, later: Q.State<T>, rounds: nat)
    requires |q.history.popped| <= |later.history.popped| && |q.history.exchanged| <= |later.history.popped|
    ensures LeavesNone(q, later, rounds)
  {
    forall n: nat | QS.Waiting(q, n) && n <= rounds ensures |q.history.popped| + n <= |later.history.popped| {
      if n > 0 { assert QS.Linked(q, |q.history.popped| + n - 1); }
    }
  }

  // One more pop of an event that was linked, if it was.
  lemma NoneLeftOn<T>(q: Q.State<T>, before: Q.State<T>, later: Q.State<T>, rounds: nat)
    requires LeavesNone(q, before, rounds) && QS.Lasting(q, before)
    requires |q.history.popped| <= |before.history.popped| <= |later.history.popped|
    requires QS.Linked(before, |before.history.popped|) ==> |before.history.popped| < |later.history.popped|
    ensures LeavesNone(q, later, rounds + 1)
  {
    forall n: nat | QS.Waiting(q, n) && n <= rounds + 1 ensures |q.history.popped| + n <= |later.history.popped| {
      if n > 0 { assert QS.Waiting(q, n - 1); }
    }
  }

  // What the first rounds did not reach is first in line for the next.
  lemma NoneLeftAfter<T>(q: Q.State<T>, middle: Q.State<T>, later: Q.State<T>, rounds: nat)
    requires QS.Lasting(q, middle) && LeavesNone(middle, later, rounds)
    requires |q.history.popped| <= |middle.history.popped| <= |later.history.popped|
    ensures LeavesNone(q, later, rounds)
  {
    forall n: nat | QS.Waiting(q, n) && n <= rounds ensures |q.history.popped| + n <= |later.history.popped| {
      var gone := |middle.history.popped| - |q.history.popped|;
      if gone < n { assert QS.Waiting(middle, n - gone); }
    }
  }

  class LoggerWorker<T(!new)> {
    const queue: LinkedQueue.MpscQueue<T>
    var accepting: bool
    var running: bool
    var inFlight: int
    var mutex: Option<Holder>
    var buffer: seq<Option<T>>  // what the callback has been given, as the Buffer sink keeps it
    // Where each thread stands: bookkeeping only.
    ghost var pushers: map<nat, Pusher<T>>
    ghost var worker: LoggerModel.Worker<T>
    ghost var waiters: map<nat, Waiter>
    ghost var stopper: Stopper
    var exited: bool  // the worker thread has ended, as join sees it

    ghost function View(): State<T>
      reads this, queue
    {
      State(queue.View(), accepting, running, inFlight, mutex, pushers, worker, waiters, stopper, buffer)
    }

    // The object is in a state some interleaving of the protocol leads to.
    ghost predicate Valid()
      reads this, queue
    {
      Reachable(View()) && queue.Valid() && exited == worker.Exited?
    }

    // The object as start leaves it.
    constructor ()
      ensures Valid() && fresh(queue) && View() == Start(queue.head)
    {
      queue := new LinkedQueue.MpscQueue();
      accepting, running, inFlight, mutex, buffer, exited := true, true, 0, None, [], false;
      pushers, worker, waiters, stopper := map[], LoadRunning, map[], Up;
      new;
      ReachableStart<T>(queue.head);
    }

    // Any number of steps of any other threads.
    method Interfere(ghost me: Thread)
      requires Valid()
      modifies this, queue
      ensures Valid() && OthersRan(old(View()), View(), me) && Unmoved(old(View()), View(), me)
    {
      assert Behaviour([View()], []);
    }

    // The ghost half of a step: the thread bookkeeping becomes that of s.
    ghost method Account(s: State<T>)
      modifies this`pushers, this`worker, this`waiters, this`stopper
      ensures pushers == s.pushers && worker == s.worker && waiters == s.waiters && stopper == s.stopper
    {
      pushers, worker, waiters, stopper := s.pushers, s.worker, s.waiters, s.stopper;
    }

    // ---- push ---------------------------------------------------------------------------------

    ghost method EnterPush(p: nat, event: T)
      requires Valid() && PusherAt(View(), p).Away?
      modifies this
      ensures Valid() && View() == Step(old(View()), PushEnter(p, event))
    {
      ReachableStep(View(), PushEnter(p, event));
      Account(Step(View(), PushEnter(p, event)));
    }

    method LoadAccepting(ghost p: nat) returns (b: bool)
      requires Valid() && PusherAt(View(), p).CheckAccepting?
      modifies this
      ensures Valid() && View() == Step(old(View()), PushCheck(p)) && b == accepting
    {
      ReachableStep(View(), PushCheck(p));
      b := accepting;
      Account(Step(View(), PushCheck(p)));
    }

    method FetchAddInFlight(ghost p: nat)
      requires Valid() && PusherAt(View(), p).FetchAdd?
      modifies this
      ensures Valid() && View() == Step(old(View()), PushCount(p))
    {
      ReachableStep(View(), PushCount(p));
      ghost var s := Step(View(), PushCount(p));
      inFlight := inFlight + 1;
      Account(s);
    }

    method NewNode(ghost p: nat, event: T) returns (node: nat)
      requires Valid() && PusherAt(View(), p) == Pushing(event) && Q.Pc(queue.View(), p).Idle?
      modifies this, queue
      ensures Valid() && old(Enabled(View(), PushQueue(Q.PushNew(p, event, node))))
      ensures View() == Step(old(View()), PushQueue(Q.PushNew(p, event, node)))
    {
      ghost var before := View();
      node := queue.NewNode(p, event);
      ReachableStep(before, PushQueue(Q.PushNew(p, event, node)));
    }

    method ExchangeTail(ghost p: nat, node: nat) returns (prev: nat)
      requires Valid() && PusherAt(View(), p).Pushing?
      requires Q.Pc(queue.View(), p).Exchange? && Q.Pc(queue.View(), p).node == node
      modifies this, queue
      ensures Valid() && View() == Step(old(View()), PushQueue(Q.PushExchange(p)))
      ensures Q.Pc(queue.View(), p).Link? && Q.Pc(queue.View(), p).prev == prev
    {
      ghost var before := View();
      prev := queue.ExchangeTail(p, node);
      ReachableStep(before, PushQueue(Q.PushExchange(p)));
    }

    method StoreLink(ghost p: nat, prev: nat, node: nat)
      requires Valid() && PusherAt(View(), p).Pushing?
      requires Q.Pc(queue.View(), p).Link? && Q.Pc(queue.View(), p).prev == prev && Q.Pc(queue.View(), p).node == node
      modifies this, queue
      ensures Valid() && old(Enabled(View(), PushQueue(Q.PushLink(p))))
      ensures View() == Step(old(View()), PushQueue(Q.PushLink(p)))
    {
      ghost var before := View();
      queue.StoreLink(p, prev, node);
      ReachableStep(before, PushQueue(Q.PushLink(p)));
      Account(Step(before, PushQueue(Q.PushLink(p))));
    }

    // ---- run ----------------------------------------------------------------------------------

    method LoadRunningFlag() returns (b: bool)
      requires Valid() && worker.LoadRunning?
      modifies this
      ensures Valid() && View() == Step(old(View()), WorkLoadRunning) && b == running
    {
      ReachableStep(View(), WorkLoadRunning);
      b := running;
      Account(Step(View(), WorkLoadRunning));
    }

    // One queue operation of the worker's try_pop, already performed on the queue.
    ghost method Popped(before: State<T>, step: Q.Action<T>)
      requires Reachable(before) && Enabled(before, WorkPop(step)) && queue.Valid() && !exited
      requires View() == before.(queue := queue.View()) && queue.View() == Q.Step(before.queue, step)
      modifies this
      ensures Valid() && View() == Step(before, WorkPop(step))
    {
      ReachableStep(before, WorkPop(step));
      Account(Step(before, WorkPop(step)));
    }

    method Report(event: Option<T>)
      requires Valid() && worker.Callback? && worker.event == event
      modifies this
      ensures Valid() && View() == Step(old(View()), WorkCallback)
    {
      ReachableStep(View(), WorkCallback);
      ghost var s := Step(View(), WorkCallback);
      buffer := buffer + [event];
      Account(s);
    }

    method FetchSubInFlight() returns (before: int)
      requires Valid() && worker.FetchSub?
      modifies this
      ensures Valid() && View() == Step(old(View()), WorkFetchSub) && before == old(inFlight)
    {
      ReachableStep(View(), WorkFetchSub);
      ghost var s := Step(View(), WorkFetchSub);
      before := inFlight;
      inFlight := inFlight - 1;
      Account(s);
    }

    // One try for idle_mutex.
    method TryLockByWorker() returns (ok: bool)
      requires Valid() && worker.Lock?
      modifies this
      ensures Valid() && ok == old(mutex.None?)
      ensures View() == if ok then Step(old(View()), WorkLock) else old(View())
    {
      ok := mutex.None?;
      if ok {
        ReachableStep(View(), WorkLock);
        ghost var s := Step(View(), WorkLock);
        mutex := Some(TheWorker);
        Account(s);
      }
    }

    method NotifyAll()
      requires Valid() && worker.Notify?
      modifies this
      ensures Valid() && View() == Step(old(View()), WorkNotify)
    {
      ReachableStep(View(), WorkNotify);
      Account(Step(View(), WorkNotify));
    }

    method UnlockByWorker(last: bool)
      requires Valid() && worker == Unlock(last)
      modifies this
      ensures Valid() && View() == Step(old(View()), WorkUnlock)
    {
      ReachableStep(View(), WorkUnlock);
      ghost var s := Step(View(), WorkUnlock);
      mutex := None;
      exited := last;
      Account(s);
    }

    // ---- wait_until_idle ----------------------------------------------------------------------

    // The steps of waiter w; only the test looks at in_flight, and only the others touch the mutex.
    method WaiterStep(w: nat, ghost a: Action<T>, acquire: bool, release: bool) returns (idle: bool)
      requires Valid() && Enabled(View(), a) && Actor(a) == AWaiter(w)
      requires acquire == a.WaitLock? && release == (a.WaitSleep? || a.WaitLeave?)
      modifies this
      ensures Valid() && View() == Step(old(View()), a) && idle == (inFlight == 0)
    {
      ReachableStep(View(), a);
      ghost var s := Step(View(), a);
      idle := inFlight == 0;
      if acquire { mutex := Some(OneWaiter(w)); } else if release { mutex := None; }
      Account(s);
    }

    // ---- the calls ----------------------------------------------------------------------------

    twostate predicate Kept(p: nat)
      reads this, queue
    {
      && old(queue.history.exchanged) <= queue.history.exchanged
      && ClaimedBy(queue.history.exchanged, p) == old(ClaimedBy(queue.history.exchanged, p))
    }

    // Each of the following lets the other threads run and then performs one operation of a push by p.
    method CheckIn(ghost p: nat, ghost event: T) returns (ok: bool)
      requires Valid() && PusherAt(View(), p) == CheckAccepting(event)
      modifies this, queue
      ensures Valid() && Kept(p) && PusherAt(View(), p) == if ok then FetchAdd(event) else Away
      ensures ok == accepting
    {
      Interfere(APusher(p));
      ok := LoadAccepting(p);
    }

    method CountIn(ghost p: nat, ghost event: T)
      requires Valid() && PusherAt(View(), p) == FetchAdd(event)
      modifies this, queue
      ensures Valid() && Kept(p) && PusherAt(View(), p) == Pushing(event) && Q.Pc(queue.View(), p).Idle?
    {
      Interfere(APusher(p));
      ReachableInv(View());
      assert Q.Pc(queue.View(), p).Idle?;
      FetchAddInFlight(p);
    }

    method Allocate(ghost p: nat, event: T) returns (node: nat)
      requires Valid() && PusherAt(View(), p) == Pushing(event) && Q.Pc(queue.View(), p).Idle?
      modifies this, queue
      ensures Valid() && Kept(p) && PusherAt(View(), p) == Pushing(event)
      ensures Q.Pc(queue.View(), p) == Q.Exchange(node, event)
    {
      Interfere(APusher(p));
      node := NewNode(p, event);
    }

    method SwingTail(ghost p: nat, ghost event: T, node: nat) returns (prev: nat)
      requires Valid() && PusherAt(View(), p) == Pushing(event) && Q.Pc(queue.View(), p) == Q.Exchange(node, event)
      modifies this, queue
      ensures Valid() && PusherAt(View(), p) == Pushing(event)
      ensures Q.Pc(queue.View(), p).Link? && Q.Pc(queue.View(), p).prev == prev && Q.Pc(queue.View(), p).node == node
      ensures old(queue.history.exchanged) <= queue.history.exchanged
      ensures ClaimedBy(queue.history.exchanged, p) == old(ClaimedBy(queue.history.exchanged, p)) + [event]
    {
      Interfere(APusher(p));
      ghost var before := queue.history.exchanged;
      prev := ExchangeTail(p, node);
      assert queue.history.exchanged[..|before|] == before;
    }

    method Attach(ghost p: nat, ghost event: T, prev: nat, node: nat)
      requires Valid() && PusherAt(View(), p) == Pushing(event)
      requires Q.Pc(queue.View(), p).Link? && Q.Pc(queue.View(), p).prev == prev && Q.Pc(queue.View(), p).node == node
      modifies this, queue
      ensures Valid() && Kept(p) && PusherAt(View(), p) == Away
    {
      Interfere(APusher(p));
      StoreLink(p, prev, node);
    }

    // push by thread p: the event is queued once, or not at all if the logger no longer accepts.
    method Push(ghost p: nat, event: T) returns (taken: bool)
      requires Valid() && PusherAt(View(), p).Away?
      modifies this, queue
      ensures Valid() && PusherAt(View(), p).Away?
      ensures old(queue.history.exchanged) <= queue.history.exchanged
      ensures ClaimedBy(queue.history.exchanged, p) ==
              old(ClaimedBy(queue.history.exchanged, p)) + if taken then [event] else []
      ensures !taken ==> !accepting
    {
      EnterPush(p, event);
      taken := CheckIn(p, event);
      if taken {
        CountIn(p, event);
        var node := Allocate(p, event);
        var prev := SwingTail(p, event, node);
        Attach(p, event, prev, node);
      }
    }

    // The same for the worker.
    method SeeHead(ghost draining: bool) returns (node: nat)
      requires Valid() && worker == Popping(draining) && queue.consumer == Q.Outside
      modifies this, queue
      ensures Valid() && worker == Popping(draining) && queue.consumer == Q.LoadNext(node) && SameRecords()
      ensures Links()
    {
      Interfere(Worker);
      ghost var before := View();
      node := queue.LoadHead(Q.PopLoadHead);
      Popped(before, Q.PopLoadHead);
    }

    method SeeNext(node: nat, ghost draining: bool) returns (next: Option<nat>)
      requires Valid() && worker == Popping(draining) && queue.consumer == Q.LoadNext(node)
      modifies this, queue
      ensures Valid() && SameRecords() && Links()
      ensures old(QS.Linked(queue.View(), |queue.history.popped|)) ==> next.Some?
      ensures next.None? ==> queue.consumer == Q.Outside && worker == if draining then Lock(true) else LoadRunning
      ensures next.Some? ==> queue.consumer == Q.Read(node, next.value) && worker == Popping(draining)
    {
      Interfere(Worker);
      ghost var before := View();
      assert QS.Linked(before.queue, |before.queue.history.popped|) ==>
          Q.Step(before.queue, Q.PopLoadNext).consumer != Q.Outside by {
        LinkedTheorems.PopAnswer(before.queue);
      }
      next := queue.LoadNext(node, Q.PopLoadNext);
      Popped(before, Q.PopLoadNext);
    }

    method MoveOut(node: nat, next: nat, ghost draining: bool) returns (event: Option<T>)
      requires Valid() && worker == Popping(draining) && queue.consumer == Q.Read(node, next)
      modifies this, queue
      ensures Valid() && worker == Popping(draining) && SameRecords() && Links()
      ensures queue.consumer == Q.StoreHead(node, next, event)
    {
      Interfere(Worker);
      ghost var before := View();
      ReachableInv(before);
      assert QS.LinkOk(queue.View(), 0);
      event := queue.MoveOut(next);
      Popped(before, Q.PopRead);
    }

    method StoreHead(node: nat, next: nat, ghost event: Option<T>, ghost draining: bool)
      requires Valid() && worker == Popping(draining) && queue.consumer == Q.StoreHead(node, next, event)
      modifies this, queue
      ensures Valid() && worker == Popping(draining) && queue.consumer == Q.Delete(node, event)
      ensures buffer == old(buffer) && Links() && |queue.history.popped| == old(|queue.history.popped|) + 1
    {
      Interfere(Worker);
      ghost var before := View();
      queue.StoreHead(next);
      Popped(before, Q.PopStoreHead);
    }

    method DeleteNode(node: nat, ghost event: Option<T>, ghost draining: bool)
      requires Valid() && worker == Popping(draining) && queue.consumer == Q.Delete(node, event)
      modifies this, queue
      ensures Valid() && worker == Callback(draining, event) && queue.consumer == Q.Outside && SameRecords() && Links()
    {
      Interfere(Worker);
      ghost var before := View();
      ReachableInv(before);
      queue.DeleteNode(node);
      Popped(before, Q.PopDelete);
    }

    twostate predicate SameRecords()
      reads this, queue
    {
      queue.history.popped == old(queue.history.popped) && buffer == old(buffer)
    }

    // Nothing queued or linked has been lost, and running is not switched on again.
    twostate predicate Links()
      reads this, queue
    {
      && QS.Lasting(old(queue.View()), queue.View())
      && old(|queue.history.exchanged|) <= |queue.history.exchanged|
      && (old(!running) ==> !running)
    }

    // try_pop as the worker calls it: it takes an event out if the next one was linked at the call.
    method TryPop(ghost draining: bool) returns (event: Option<Option<T>>)
      requires Valid() && worker == Popping(draining) && queue.consumer == Q.Outside
      modifies this, queue
      ensures Valid() && queue.consumer == Q.Outside && buffer == old(buffer) && Links()
      ensures event.Some? ==> worker == Callback(draining, event.value)
      ensures event.None? ==> worker == if draining then Lock(true) else LoadRunning
      ensures |queue.history.popped| == old(|queue.history.popped|) + if event.Some? then 1 else 0
      ensures old(QS.Linked(queue.View(), |queue.history.popped|)) ==> event.Some?
    {
      var node := SeeHead(draining);
      var next := SeeNext(node, draining);
      if next == None { return None; }
      var out := MoveOut(node, next.value, draining);
      StoreHead(node, next.value, out, draining);
      DeleteNode(node, out, draining);
      event := Some(out);
    }

    // callback, then the decrement; before is what in_flight was.
    method Deliver(event: Option<T>, ghost draining: bool) returns (before: int)
      requires Valid() && worker == Callback(draining, event) && queue.consumer == Q.Outside
      modifies this, queue
      ensures Valid() && queue.consumer == Q.Outside && buffer == old(buffer) + [event] && Links()
      ensures worker == if draining then Popping(true) else if before == 1 then Lock(false) else LoadRunning
      ensures queue.history.popped == old(queue.history.popped)
      ensures before == 1 ==> old(|queue.history.exchanged|) <= |queue.history.popped|
    {
      HandOver(event, draining);
      before := CountOff(draining);
    }

    method HandOver(event: Option<T>, ghost draining: bool)
      requires Valid() && worker == Callback(draining, event) && queue.consumer == Q.Outside
      modifies this, queue
      ensures Valid() && queue.consumer == Q.Outside && buffer == old(buffer) + [event] && Links()
      ensures worker == FetchSub(draining) && queue.history.popped == old(queue.history.popped)
    {
      Interfere(Worker);
      Report(event);
    }

    method CountOff(ghost draining: bool) returns (before: int)
      requires Valid() && worker == FetchSub(draining) && queue.consumer == Q.Outside
      modifies this, queue
      ensures Valid() && queue.consumer == Q.Outside && SameRecords() && Links()
      ensures worker == if draining then Popping(true) else if before == 1 then Lock(false) else LoadRunning
      ensures before == 1 ==> old(|queue.history.exchanged|) <= |queue.history.popped|
    {
      Interfere(Worker);
      before := FetchSubInFlight();
      Accounting(View());
    }

    // lock, notify_all, unlock; the lock is tried rounds times and in vain only if others hold the mutex.
    method Announce(last: bool, rounds: nat) returns (ok: bool)
      requires Valid() && worker == Lock(last) && queue.consumer == Q.Outside
      modifies this, queue
      ensures Valid() && queue.consumer == Q.Outside && SameRecords() && Links()
      ensures !ok && rounds > 0 ==> mutex.Some?
      ensures worker == if ok then (if last then Exited else LoadRunning) else Lock(last)
    {
      ok := AcquireMutex(last, rounds);
      if ok {
        Wake(last);
        Release(last);
      }
    }

    method Wake(ghost last: bool)
      requires Valid() && worker == Notify(last) && queue.consumer == Q.Outside
      modifies this, queue
      ensures Valid() && worker == Unlock(last) && queue.consumer == Q.Outside && SameRecords() && Links()
    {
      Interfere(Worker);
      NotifyAll();
    }

    method Release(last: bool)
      requires Valid() && worker == Unlock(last) && queue.consumer == Q.Outside
      modifies this, queue
      ensures Valid() && worker == (if last then Exited else LoadRunning) && queue.consumer == Q.Outside
      ensures SameRecords() && Links()
    {
      Interfere(Worker);
      UnlockByWorker(last);
    }

    method AcquireMutex(last: bool, rounds: nat) returns (ok: bool)
      requires Valid() && worker == Lock(last) && queue.consumer == Q.Outside
      modifies this, queue
      ensures Valid() && queue.consumer == Q.Outside && SameRecords() && Links()
      ensures worker == if ok then Notify(last) else Lock(last)
      ensures !ok && rounds > 0 ==> mutex.Some?
    {
      ok := false;
      for i := 0 to rounds
        invariant Valid() && worker == Lock(last) && queue.consumer == Q.Outside && SameRecords() && Links()
        invariant i > 0 ==> mutex.Some?
      {
        Interfere(Worker);
        ok := TryLockByWorker();
        if ok { return; }
      }
    }

    /**
     One round of the first loop of run, or the end of that loop. An event linked at the call is reported;
     after the last one counted the waiting threads are told, or the mutex is waited for.
     */
    method Turn(rounds: nat) returns (state: Progress)
      requires Valid() && worker == LoadRunning && queue.consumer == Q.Outside
      modifies this, queue
      ensures Valid() && queue.consumer == Q.Outside && old(buffer) <= buffer
      ensures Links() && old(|queue.history.popped|) <= |queue.history.popped|
      ensures state == Again ==> worker == LoadRunning && old(running)
      ensures state == Again && old(QS.Linked(queue.View(), |queue.history.popped|)) ==>
                |queue.history.popped| > old(|queue.history.popped|)
      ensures state == Over ==> worker == Popping(true) && !running
      ensures state == Stuck ==> worker == Lock(false) && (rounds > 0 ==> mutex.Some?)
      ensures state == Stuck ==> old(|queue.history.exchanged|) <= |queue.history.popped|
    {
      Interfere(Worker);
      var go := LoadRunningFlag();
      if !go { return Over; }
      var event := TryPop(false);
      if event == None { return Again; }
      var before := Deliver(event.value, false);
      if before == 1 {
        var ok := Announce(false, rounds);
        return if ok then Again else Stuck;
      }
      return Again;
    }

    // The second loop of run and the last notification: it stops for lack of rounds, or of a mutex others hold.
    method Drain(rounds: nat) returns (done: bool)
      requires Valid() && worker == Popping(true) && queue.consumer == Q.Outside
      modifies this, queue
      ensures Valid() && queue.consumer == Q.Outside && old(buffer) <= buffer && Links()
      ensures old(|queue.history.popped|) <= |queue.history.popped|
      ensures LeavesNone(old(queue.View()), queue.View(), rounds)
      ensures done ==> worker == Exited
      ensures !done ==> worker == Popping(true) || (worker == Lock(true) && (rounds > 0 ==> mutex.Some?))
      ensures worker == Popping(true) ==> |queue.history.popped| == old(|queue.history.popped|) + rounds
    {
      ghost var first := queue.View();
      for i := 0 to rounds
        invariant Valid() && worker == Popping(true) && queue.consumer == Q.Outside && old(buffer) <= buffer
        invariant Links() && QS.Lasting(first, queue.View())
        invariant |queue.history.popped| == |first.history.popped| + i
      {
        ghost var before := queue.View();
        var event := TryPop(true);
        if event == None {
          assert !QS.Linked(before, |before.history.popped|);
          done := Announce(true, rounds);
          return;
        }
        var count := Deliver(event.value, true);
      }
      return false;
    }

    // The callback has been given exactly what was popped: a prefix of the exchange order, value for value.
    ghost predicate Reported()
      reads this, queue
    {
      && buffer == queue.history.popped && |buffer| <= |queue.history.exchanged|
      && forall i | 0 <= i < |buffer| :: buffer[i] == Some(queue.history.exchanged[i].value)
    }

    /**
     run, with every other thread free to move between its operations; true says it has returned. All
     it popped has been reported. Of the events next in line that were linked at the call it leaves
     none, as far as the rounds reach. It has not returned only for want of rounds, with running on at
     the call or as many events drained, or because others hold the mutex.
     */
    method Run(rounds: nat) returns (done: bool)
      requires Valid() && worker == LoadRunning && queue.consumer == Q.Outside
      modifies this, queue
      ensures Valid() && old(buffer) <= buffer && Reported()
      ensures LeavesNone(old(queue.View()), queue.View(), rounds)
      ensures done ==> worker == Exited && !running
      ensures !done ==> worker == LoadRunning || worker == Popping(true) || worker.Lock?
      ensures worker == LoadRunning && rounds > 0 ==> old(running)
      ensures worker == Popping(true) ==> |queue.history.popped| >= old(|queue.history.popped|) + rounds
      ensures worker.Lock? && rounds > 0 ==> mutex.Some?
    {
      ghost var first, on := queue.View(), running;
      for i := 0 to rounds
        invariant Valid() && worker == LoadRunning && queue.consumer == Q.Outside && old(buffer) <= buffer
        invariant QS.Lasting(first, queue.View()) && |first.history.exchanged| <= |queue.history.exchanged|
        invariant LeavesNone(first, queue.View(), i) && |first.history.popped| <= |queue.history.popped|
        invariant (!on ==> !running) && (i > 0 ==> on)
      {
        ghost var before := queue.View();
        var state := Turn(rounds);
        if state == Stuck {
          NoneLeft(first, queue.View(), rounds);
          Accounting(View());
          return false;
        }
        if state == Over {
          ghost var middle := queue.View();
          done := Drain(rounds);
          NoneLeftAfter(first, middle, queue.View(), rounds);
          Accounting(View());
          return;
        }
        NoneLeftOn(first, before, queue.View(), i);
      }
      Accounting(View());
      return false;
    }

    twostate predicate Grew()
      reads this, queue
    {
      old(queue.history.exchanged) <= queue.history.exchanged && old(buffer) <= buffer
    }

    // The same for a waiter. The lock is tried once.
    method TryEnter(w: nat) returns (ok: bool)
      requires Valid() && WaiterAt(View(), w).Locking?
      modifies this, queue
      ensures Valid() && Grew() && WaiterAt(View(), w) == if ok then Testing else Locking
      ensures Leads(old(View()), View()) && (!ok ==> mutex.Some?)
    {
      ghost var before := View();
      Interfere(AWaiter(w));
      OthersLead(before, View(), AWaiter(w));
      ok := mutex.None?;
      if ok {
        LeadsStep(before, View(), WaitLock(w));
        var seen := WaiterStep(w, WaitLock(w), true, false);
      }
    }

    // The predicate of the wait: everything counted has been reported if it holds.
    method Test(w: nat) returns (idle: bool)
      requires Valid() && WaiterAt(View(), w).Testing?
      modifies this, queue
      ensures Valid() && Grew() && WaiterAt(View(), w) == if idle then Leaving else Sleepy
      ensures idle ==> |buffer| == |queue.history.exchanged|
      ensures Leads(old(View()), View()) && (!idle ==> inFlight != 0)
    {
      ghost var before := View();
      Interfere(AWaiter(w));
      LeadsThen(before, View(), AWaiter(w), WaitTest(w));
      IdleMeansDelivered(View(), w);
      idle := WaiterStep(w, WaitTest(w), false, false);
    }

    method Leave(w: nat)
      requires Valid() && WaiterAt(View(), w).Leaving?
      modifies this, queue
      ensures Valid() && Grew() && WaiterAt(View(), w).Elsewhere?
    {
      Interfere(AWaiter(w));
      var seen := WaiterStep(w, WaitLeave(w), false, true);
    }

    // Release the mutex and sleep, in one step.
    method Sleep(w: nat)
      requires Valid() && WaiterAt(View(), w).Sleepy?
      modifies this, queue
      ensures Valid() && Grew() && WaiterAt(View(), w).Asleep? && Leads(old(View()), View())
    {
      ghost var before := View();
      Interfere(AWaiter(w));
      LeadsThen(before, View(), AWaiter(w), WaitSleep(w));
      var seen := WaiterStep(w, WaitSleep(w), false, true);
    }

    // Wake up, notified or not.
    method WakeUp(w: nat)
      requires Valid() && WaiterAt(View(), w).Asleep?
      modifies this, queue
      ensures Valid() && Grew() && WaiterAt(View(), w).Locking? && Leads(old(View()), View())
    {
      ghost var before := View();
      Interfere(AWaiter(w));
      OthersLead(before, View(), AWaiter(w));
      if WaiterAt(View(), w).Asleep? {
        LeadsStep(before, View(), WaitWake(w));
        ReachableStep(View(), WaitWake(w));
        Account(Step(View(), WaitWake(w)));
      }
    }

    method SleepThrough(w: nat)
      requires Valid() && WaiterAt(View(), w).Sleepy?
      modifies this, queue
      ensures Valid() && Grew() && WaiterAt(View(), w).Locking? && Leads(old(View()), View())
    {
      ghost var before := View();
      Sleep(w);
      ghost var asleep := View();
      WakeUp(w);
      LeadsOn(before, asleep, View());
    }

    // What a return from wait_until_idle promises about events queued before the call.
    twostate predicate CaughtUp()
      reads this, queue
    {
      && old(queue.history.exchanged) <= queue.history.exchanged
      && old(|queue.history.exchanged|) <= |buffer| <= |queue.history.exchanged|
      && forall i | 0 <= i < |buffer| :: buffer[i] == Some(queue.history.exchanged[i].value)
    }

    /**
     wait_until_idle by thread w: true says it has returned, and then every event that was in the
     queue when it was called has been reported, all reported events being in queue order. It has not
     returned only if it met the mutex taken or in_flight not 0 since.
     */
    method WaitUntilIdle(w: nat, rounds: nat) returns (idle: bool)
      requires Valid() && WaiterAt(View(), w).Elsewhere?
      modifies this, queue
      ensures Valid()
      ensures idle ==> WaiterAt(View(), w).Elsewhere? && CaughtUp()
      ensures !idle && rounds > 0 ==> Blocked(old(View()), View())
    {
      ghost var first := View();
      LeadsNowhere(first);
      LeadsStep(first, first, WaitEnter(w));
      var seen := WaiterStep(w, WaitEnter(w), false, false);
      for i := 0 to rounds
        invariant Valid() && Grew() && WaiterAt(View(), w).Locking?
        invariant Leads(first, View()) && (i > 0 ==> Blocked(first, View()))
      {
        ghost var before := View();
        idle := WaitRound(w);
        WaitGoesOn(first, before, View(), idle);
        if idle {
          Accounting(View());
          return;
        }
      }
      return false;
    }

    // One pass of the wait: lock, test, and leave or sleep.
    method WaitRound(w: nat) returns (idle: bool)
      requires Valid() && WaiterAt(View(), w).Locking?
      modifies this, queue
      ensures Valid() && Grew() && WaiterAt(View(), w) == if idle then Elsewhere else Locking
      ensures idle ==> old(|queue.history.exchanged|) <= |buffer|
      ensures !idle ==> Blocked(old(View()), View())
    {
      ghost var before := View();
      var locked := TryEnter(w);
      ghost var entered := View();
      LeadsNowhere(entered);
      if !locked { return false; }
      idle := Test(w);
      ghost var tested := View();
      if idle {
        Leave(w);
      } else {
        SleepThrough(w);
        LeadsOn(before, entered, tested);
      }
    }

    // ---- stop ---------------------------------------------------------------------------------

    /**
     stop: true says join has returned. If no push was past its accepting check and unfinished at
     the call, everything has then been reported and nothing is left in the queue. It has not
     returned only as long as the worker has not exited.
     */
    method Stop(rounds: nat) returns (joined: bool)
      requires Valid() && stopper == Up
      modifies this, queue
      ensures Valid() && !accepting && !running
      ensures joined ==> worker == Exited && stopper == Joined
      ensures rounds > 0 ==> (joined <==> exited)
      ensures joined && old(Quiet(View())) ==> Drained(View())
    {
      ghost var quiet := Quiet(View());
      ClearAccepting();
      ClearRunning(quiet);
      for i := 0 to rounds
        invariant Valid() && stopper == RunningCleared && (quiet ==> QuietStop(View()))
        invariant i > 0 ==> !exited
      {
        joined := TryJoin(quiet);
        if joined {
          if quiet { QuietExit(View()); }
          ReachableInv(View());
          return;
        }
      }
      ReachableInv(View());
      return false;
    }

    method ClearAccepting()
      requires Valid() && stopper == Up
      modifies this, queue
      ensures Valid() && stopper == AcceptingCleared
      ensures old(Quiet(View())) ==> QuietStop(View())
    {
      ReachableInv(View());
      if Quiet(View()) { StopIsQuiet(View()); }
      ReachableStep(View(), StopAccepting);
      ghost var s := Step(View(), StopAccepting);
      accepting := false;
      Account(s);
    }

    method ClearRunning(ghost quiet: bool)
      requires Valid() && stopper == AcceptingCleared && (quiet ==> QuietStop(View()))
      modifies this, queue
      ensures Valid() && stopper == RunningCleared && (quiet ==> QuietStop(View()))
    {
      ghost var before := View();
      Interfere(AStopper);
      if quiet {
        OthersLead(before, View(), AStopper);
        QuietStopLasts(before, View());
        QuietStopStep(View(), StopRunning);
      }
      ReachableStep(View(), StopRunning);
      ghost var s := Step(View(), StopRunning);
      running := false;
      Account(s);
    }

    method TryJoin(ghost quiet: bool) returns (ok: bool)
      requires Valid() && stopper == RunningCleared && (quiet ==> QuietStop(View()))
      modifies this, queue
      ensures Valid() && (quiet ==> QuietStop(View()))
      ensures stopper == if ok then Joined else RunningCleared
      ensures ok <==> exited
    {
      ghost var before := View();
      Interfere(AStopper);
      if quiet {
        OthersLead(before, View(), AStopper);
        QuietStopLasts(before, View());
      }
      ok := exited;
      if ok {
        if quiet { QuietStopStep(View(), StopJoin); }
        ReachableStep(View(), StopJoin);
        Account(Step(View(), StopJoin));
      }
    }
  }

  datatype Progress = Again | Over | Stuck
}
