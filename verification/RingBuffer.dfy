/**
 MPSCRingBuffer as an object updated in place. Every atomic operation of the header is one method
 that performs exactly one step of RingModel; TryPush, TryPop and IsEmpty string them together in
 the header's order and let the other threads run between any two of them.
 */
module RingBuffer {
  import opened Common
  import opened Claims
  import opened RingModel
  import opened RingSafety
  import opened RingTheorems

  datatype Thread = Pusher(p: nat) | Popper | Observer(o: nat)

  function Actor<T>(a: Action<T>): Thread {
    match a
    case PushBegin(p, _) => Pusher(p)
    case PushLoadHead(p) => Pusher(p)
    case PushLoadTail(p) => Pusher(p)
    case PushCas(p, _) => Pusher(p)
    case PushWrite(p) => Pusher(p)
    case PushPublish(p) => Pusher(p)
    case EmptyLoadHead(o) => Observer(o)
    case EmptyLoadTail(o) => Observer(o)
    case _ => Popper
  }

  // s' comes from s by steps of threads other than me, any number of them in any order.
  ghost predicate OthersRan<T(!new)>(c: nat, s: State<T>, s': State<T>, me: Thread) {
    exists trace, run {:trigger Behaviour(false, c, trace, run)} ::
      && Behaviour(false, c, trace, run) && trace[0] == s && trace[|run|] == s'
      && forall i | 0 <= i < |run| :: Actor(run[i]) != me
  }

  // What no other thread can change behind the back of me.
  ghost predicate Unmoved<T>(c: nat, s: State<T>, s': State<T>, me: Thread) {
    && s.history.claims <= s'.history.claims
    && s.head <= s'.head
    && (me.Pusher? ==>
          && Pc(s', me.p) == Pc(s, me.p)
          && AcceptedBy(s', me.p) == AcceptedBy(s, me.p)
          && ClaimedBy(s'.history.claims, me.p) == ClaimedBy(s.history.claims, me.p))
    && (me.Popper? ==>
          && s'.consumer == s.consumer && s'.head == s.head && s'.history.popped == s.history.popped
          && Lasting(s, s'))
    && (me.Observer? ==>
          && (me.o in s.observers <==> me.o in s'.observers)
          && (me.o in s.observers ==> s'.observers[me.o] == s.observers[me.o]))
  }

  lemma OtherStep<T(!new)>(c: nat, s: State<T>, a: Action<T>, me: Thread)
    requires Inv(c, s) && Enabled(s, a) && Actor(a) != me
    ensures Unmoved(c, s, Step(false, c, s, a), me)
  {
    var s' := Step(false, c, s, a);
    if s'.history.claims != s.history.claims {
      assert s'.history.claims[..|s.history.claims|] == s.history.claims;
    }
    if me.Popper? { PublishedLasts(c, s, a); }
  }

  // Whatever the others do, the ring stays reachable and me's own standing is untouched.
  lemma OthersLeave<T(!new)>(c: nat, s: State<T>, s': State<T>, me: Thread)
    requires Reachable(c, s) && OthersRan(c, s, s', me)
    ensures Reachable(c, s') && Unmoved(c, s, s', me)
  {
    var trace, run :| Behaviour(false, c, trace, run) && trace[0] == s && trace[|run|] == s'
      && forall i | 0 <= i < |run| :: Actor(run[i]) != me;
    var i := 0;
    while i < |run|
      invariant i <= |run| && Reachable(c, trace[i]) && Unmoved(c, s, trace[i], me)
    {
      ReachableInv(c, trace[i]);
      ReachableStep(c, trace[i], run[i]);
      OtherStep(c, trace[i], run[i], me);
      i := i + 1;
    }
  }

  function Trues(bs: seq<bool>): nat {
    if bs == [] then 0 else Trues(bs[..|bs| - 1]) + if bs[|bs| - 1] then 1 else 0
  }

  lemma TruesUpTo(bs: seq<bool>, i: nat)
    requires i < |bs|
    ensures Trues(bs[..i + 1]) == Trues(bs[..i]) + if bs[i] then 1 else 0
  {
    assert bs[..i + 1][..i] == bs[..i];
  }

  class MpscRingBuffer<T(!new)> {
    const capacity: nat
    const buffer: array<Cell<T>>
    var head: nat
    var tail: nat
    // Where each thread stands, and what has happened: bookkeeping only.
    ghost var producers: map<nat, Producer<T>>
    ghost var consumer: Consumer<T>
    ghost var observers: map<nat, nat>
    ghost var history: History<T>

    ghost function View(): State<T>
      reads this, buffer
    {
      State(head, tail, buffer[..], producers, consumer, observers, history)
    }

    // The object is in a state some interleaving of the protocol leads to.
    ghost predicate Valid()
      reads this, buffer
    {
      buffer.Length == capacity && Reachable(capacity, View())
    }

    constructor (capacity: nat)
      requires capacity > 1
      ensures Valid() && fresh(buffer) && this.capacity == capacity && View() == Start(capacity)
    {
      this.capacity := capacity;
      buffer := new Cell<T>[capacity](_ => Cell(Empty, None));
      head, tail := 0, 0;
      producers, consumer, observers, history := map[], Outside, map[], History([], map[], []);
      new;
      assert buffer[..] == Start<T>(capacity).cells;
      ReachableStart<T>(capacity);
    }

    // Any number of steps of any other threads.
    method Interfere(ghost me: Thread)
      requires Valid()
      modifies this, buffer
      ensures Valid() && OthersRan(capacity, old(View()), View(), me)
      ensures Unmoved(capacity, old(View()), View(), me)
    {
      assert Behaviour<T>(false, capacity, [View()], []);
    }

    // The ghost half of a step: the thread bookkeeping becomes that of s.
    ghost method Account(s: State<T>)
      modifies this`producers, this`consumer, this`observers, this`history
      ensures producers == s.producers && consumer == s.consumer && observers == s.observers && history == s.history
    {
      producers, consumer, observers, history := s.producers, s.consumer, s.observers, s.history;
    }

    method LoadHead(ghost a: Action<T>) returns (h: nat)
      requires Valid() && Enabled(View(), a) && (a.PushLoadHead? || a.PopLoadHead? || a.EmptyLoadHead?)
      modifies this`producers, this`consumer, this`observers, this`history
      ensures Valid() && View() == Step(false, capacity, old(View()), a) && h == head
    {
      ReachableStep(capacity, View(), a);
      h := head;
      Account(Step(false, capacity, View(), a));
    }

    method LoadTail(ghost a: Action<T>) returns (t: nat)
      requires Valid() && Enabled(View(), a) && (a.PushLoadTail? || a.EmptyLoadTail?)
      modifies this`producers, this`consumer, this`observers, this`history
      ensures Valid() && View() == Step(false, capacity, old(View()), a) && t == tail
    {
      ReachableStep(capacity, View(), a);
      t := tail;
      Account(Step(false, capacity, View(), a));
    }

    // compare_exchange_weak on tail: it may also fail for no reason, as spurious says.
    method ExchangeTail(ghost p: nat, t: nat, spurious: bool) returns (ok: bool)
      requires Valid() && Pc(View(), p).Cas? && Pc(View(), p).t == t
      modifies this
      ensures Valid() && View() == Step(false, capacity, old(View()), PushCas(p, spurious))
      ensures ok == (!spurious && old(tail) == t)
    {
      ReachableStep(capacity, View(), PushCas(p, spurious));
      ghost var s := Step(false, capacity, View(), PushCas(p, spurious));
      ok := !spurious && tail == t;
      if ok { tail := t + 1; }
      Account(s);
    }

    method StoreValue(ghost p: nat, i: nat, value: T)
      requires Valid() && i < buffer.Length
      requires Pc(View(), p).Write? && Pc(View(), p).value == value && i == Slot(capacity, Pc(View(), p).ticket)
      modifies this`producers, this`consumer, this`observers, this`history, buffer
      ensures Valid() && View() == Step(false, capacity, old(View()), PushWrite(p))
    {
      ReachableStep(capacity, View(), PushWrite(p));
      ghost var s := Step(false, capacity, View(), PushWrite(p));
      buffer[i] := buffer[i].(value := Some(value));
      Account(s);
      assert buffer[..] == s.cells;
    }

    method StoreReady(ghost p: nat, i: nat)
      requires Valid() && i < buffer.Length
      requires Pc(View(), p).Publish? && i == Slot(capacity, Pc(View(), p).ticket)
      modifies this`producers, this`consumer, this`observers, this`history, buffer
      ensures Valid() && View() == Step(false, capacity, old(View()), PushPublish(p))
    {
      ReachableStep(capacity, View(), PushPublish(p));
      ghost var s := Step(false, capacity, View(), PushPublish(p));
      buffer[i] := buffer[i].(state := Ready);
      Account(s);
      assert buffer[..] == s.cells;
    }

    method LoadCellState(i: nat) returns (state: CellState)
      requires Valid() && i < buffer.Length
      requires consumer.LoadState? && i == Slot(capacity, consumer.h)
      modifies this`producers, this`consumer, this`observers, this`history
      ensures Valid() && View() == Step(false, capacity, old(View()), PopLoadState) && state == buffer[i].state
    {
      ReachableStep(capacity, View(), PopLoadState);
      state := buffer[i].state;
      Account(Step(false, capacity, View(), PopLoadState));
    }

    method MoveOut(i: nat) returns (out: Option<T>)
      requires Valid() && i < buffer.Length
      requires consumer.Read? && i == Slot(capacity, consumer.h)
      modifies this`producers, this`consumer, this`observers, this`history, buffer
      ensures Valid() && View() == Step(false, capacity, old(View()), PopRead) && out == old(buffer[i].value)
    {
      ReachableStep(capacity, View(), PopRead);
      ghost var s := Step(false, capacity, View(), PopRead);
      out := buffer[i].value;
      buffer[i] := buffer[i].(value := None);
      Account(s);
      assert buffer[..] == s.cells;
    }

    method StoreEmpty(i: nat)
      requires Valid() && i < buffer.Length
      requires consumer.Clear? && i == Slot(capacity, consumer.h)
      modifies this`producers, this`consumer, this`observers, this`history, buffer
      ensures Valid() && View() == Step(false, capacity, old(View()), PopClear)
    {
      ReachableStep(capacity, View(), PopClear);
      ghost var s := Step(false, capacity, View(), PopClear);
      buffer[i] := buffer[i].(state := Empty);
      Account(s);
      assert buffer[..] == s.cells;
    }

    method StoreHead(h: nat)
      requires Valid() && consumer.Advance? && h == consumer.h + 1
      modifies this
      ensures Valid() && View() == Step(false, capacity, old(View()), PopAdvance)
    {
      ReachableStep(capacity, View(), PopAdvance);
      ghost var s := Step(false, capacity, View(), PopAdvance);
      head := h;
      Account(s);
    }

    // What thread p may rely on across one of its own operations short of the successful exchange.
    twostate predicate Kept(p: nat)
      reads this, buffer
    {
      && old(history.claims) <= history.claims
      && old(head) <= head
      && AcceptedBy(View(), p) == old(AcceptedBy(View(), p))
      && ClaimedBy(history.claims, p) == old(ClaimedBy(history.claims, p))
    }

    // Each of the following lets the other threads run and then performs one operation of a push by p.
    method SampleHead(ghost p: nat, ghost value: T) returns (h: nat)
      requires Valid() && Pc(View(), p) == Producer.LoadHead(value)
      modifies this, buffer
      ensures Valid() && Pc(View(), p) == Producer.LoadTail(value, h) && old(head) <= h == head && Kept(p)
    {
      Interfere(Pusher(p));
      h := LoadHead(PushLoadHead(p));
    }

    method SampleTail(ghost p: nat, ghost value: T, h: nat) returns (t: nat)
      requires Valid() && Pc(View(), p) == Producer.LoadTail(value, h)
      modifies this, buffer
      ensures Valid() && t == tail == |history.claims| && Kept(p)
      ensures Pc(View(), p) == if t - h >= capacity then Idle else Cas(value, h, t)
    {
      Interfere(Pusher(p));
      ReachableInv(capacity, View());
      t := LoadTail(PushLoadTail(p));
    }

    method TryClaim(ghost p: nat, ghost value: T, ghost h: nat, t: nat, spurious: bool) returns (ok: bool)
      requires Valid() && Pc(View(), p) == Cas(value, h, t) && t == |history.claims|
      modifies this, buffer
      ensures Valid() && old(history.claims) <= history.claims && old(head) <= head
      ensures AcceptedBy(View(), p) == old(AcceptedBy(View(), p))
      ensures !ok ==> Pc(View(), p) == Producer.LoadHead(value) && Kept(p) && (spurious || t < |history.claims|)
      ensures ok ==> Pc(View(), p) == Write(value, t) && !spurious
    {
      Interfere(Pusher(p));
      ReachableInv(capacity, View());
      ghost var s := View();
      ok := ExchangeTail(p, t, spurious);
      if ok { assert history.claims[..|s.history.claims|] == s.history.claims; }
    }

    method Fill(ghost p: nat, value: T, t: nat)
      requires Valid() && Pc(View(), p) == Write(value, t)
      modifies this, buffer
      ensures Valid() && Pc(View(), p) == Publish(value, t) && Kept(p)
    {
      Interfere(Pusher(p));
      ReachableInv(capacity, View());
      StoreValue(p, t % capacity, value);
    }

    method Announce(ghost p: nat, ghost value: T, t: nat)
      requires Valid() && Pc(View(), p) == Publish(value, t)
      modifies this, buffer
      ensures Valid() && Pc(View(), p) == Idle
      ensures old(history.claims) <= history.claims && old(head) <= head
      ensures AcceptedBy(View(), p) == old(AcceptedBy(View(), p)) + [value]
      ensures t < tail == |history.claims| && history.claims[t] == Claim(p, value)
    {
      Interfere(Pusher(p));
      ReachableInv(capacity, View());
      assert ProducerOk(capacity, View(), p);
      StoreReady(p, t % capacity);
    }

    // head, then tail: the counters the fullness test compares.
    method Sample(ghost p: nat, ghost value: T) returns (h: nat, t: nat)
      requires Valid() && Pc(View(), p) == Producer.LoadHead(value)
      modifies this, buffer
      ensures Valid() && t == tail == |history.claims| && old(head) <= h <= head && Kept(p)
      ensures Pc(View(), p) == if t - h >= capacity then Idle else Cas(value, h, t)
    {
      h := SampleHead(p, value);
      t := SampleTail(p, value, h);
    }

    // Write first, then publish.
    method Complete(ghost p: nat, value: T, t: nat)
      requires Valid() && Pc(View(), p) == Write(value, t)
      modifies this, buffer
      ensures Valid() && Pc(View(), p) == Idle
      ensures old(history.claims) <= history.claims && old(head) <= head
      ensures AcceptedBy(View(), p) == old(AcceptedBy(View(), p)) + [value]
      ensures t < |history.claims| && history.claims[t] == Claim(p, value)
    {
      Fill(p, value, t);
      Announce(p, value, t);
    }

    ghost method Call(p: nat, value: T)
      requires Valid() && Pc(View(), p).Idle?
      modifies this`producers, this`consumer, this`observers, this`history
      ensures Valid() && View() == Step(false, capacity, old(View()), PushBegin(p, value))
      ensures Pc(View(), p) == Producer.LoadHead(value) && Kept(p) && tail == |history.claims|
    {
      ReachableInv(capacity, View());
      ReachableStep(capacity, View(), PushBegin(p, value));
      Account(Step(false, capacity, View(), PushBegin(p, value)));
    }

    /**
     One turn of the retry loop: None means the exchange failed and the loop goes round again. It fails
     only if the hardware makes it, or another thread claimed a ticket; full is what a ring is found
     that was so at the call and from which nothing was popped.
     */
    method Attempt(ghost p: nat, value: T, spurious: bool) returns (r: Option<bool>)
      requires Valid() && Pc(View(), p) == Producer.LoadHead(value)
      modifies this, buffer
      ensures Valid() && old(history.claims) <= history.claims && old(head) <= head
      ensures old(|history.claims|) >= head + capacity ==> r == Some(false)
      ensures r == None ==> spurious || old(|history.claims|) < |history.claims|
      ensures r == Some(true) ==> Pc(View(), p) == Idle && Pushed(p, value) && !spurious
      ensures r == Some(false) ==> Pc(View(), p) == Idle && Kept(p) && tail >= old(head) + capacity
      ensures r == None ==> Pc(View(), p) == Producer.LoadHead(value) && Kept(p)
    {
      var h, t := Sample(p, value);
      if t - h >= capacity { return Some(false); }
      var ok := TryClaim(p, value, h, t, spurious);
      if ok {
        Complete(p, value, t);
        return Some(true);
      }
      return None;
    }

    // A ticket claimed since holds value for thread p, and the push counts as accepted.
    twostate predicate Pushed(p: nat, value: T)
      reads this, buffer
    {
      && AcceptedBy(View(), p) == old(AcceptedBy(View(), p)) + [value]
      && exists t :: old(|history.claims|) <= t < |history.claims| && history.claims[t] == Claim(p, value)
    }

    /**
     try_push by thread p, with every other thread free to run between its operations. The
     compare-exchange is tried at most |spurious| times, failing for no reason where that says so;
     None says the call is still retrying. The loop is lock-free: each turn that fails otherwise is
     paid for by a ticket another thread claimed. A ring that was full at the call and from which
     nothing was popped since is found full.
     */
    method TryPush(ghost p: nat, value: T, spurious: seq<bool>) returns (r: Option<bool>)
      requires Valid() && Pc(View(), p).Idle?
      modifies this, buffer
      ensures Valid() && old(history.claims) <= history.claims
      ensures r == Some(true) ==> Pc(View(), p) == Idle && Pushed(p, value)
      ensures r == Some(false) ==> Pc(View(), p) == Idle && Kept(p) && tail >= old(head) + capacity
      ensures r == None ==> Pc(View(), p) == Producer.LoadHead(value) && Kept(p)
      ensures r == None ==> |spurious| <= Trues(spurious) + |history.claims| - old(|history.claims|)
      ensures spurious != [] && old(tail) >= head + capacity ==> r == Some(false)
    {
      Call(p, value);
      for i := 0 to |spurious|
        invariant Valid() && Pc(View(), p) == Producer.LoadHead(value) && Kept(p)
        invariant i <= Trues(spurious[..i]) + |history.claims| - old(|history.claims|)
        invariant i > 0 ==> old(|history.claims|) < head + capacity
      {
        TruesUpTo(spurious, i);
        r := Attempt(p, value, spurious[i]);
        if r != None { return; }
      }
      assert spurious[..|spurious|] == spurious;
      return None;
    }

    // The same for the consumer: other threads run, then one operation of a pop.
    method SeeHead() returns (h: nat)
      requires Valid() && consumer == Outside
      modifies this, buffer
      ensures Valid() && old(history.claims) <= history.claims
      ensures h == head == old(head) && history.popped == old(history.popped)
      ensures consumer == LoadState(h) && Lasting(old(View()), View())
    {
      Interfere(Popper);
      h := LoadHead(PopLoadHead);
    }

    method SeeCell(h: nat) returns (ready: bool)
      requires Valid() && consumer == LoadState(h)
      modifies this, buffer
      ensures Valid() && old(history.claims) <= history.claims
      ensures h == head == old(head) && history.popped == old(history.popped)
      ensures consumer == (if ready then Read(h) else Outside) && Lasting(old(View()), View())
      ensures old(Published(View(), h)) ==> ready
    {
      ReachableInv(capacity, View());
      Interfere(Popper);
      ReachableInv(capacity, View());
      assert CellOk(capacity, View(), head);
      var state := LoadCellState(h % capacity);
      ready := state == Ready;
    }

    method Take(h: nat) returns (out: Option<T>)
      requires Valid() && consumer == Read(h)
      modifies this, buffer
      ensures Valid() && old(history.claims) <= history.claims
      ensures h == head == old(head) < |history.claims| && history.popped == old(history.popped)
      ensures out == Some(history.claims[h].value) && consumer == Clear(h, out) && Lasting(old(View()), View())
    {
      Interfere(Popper);
      ReachableInv(capacity, View());
      assert CellOk(capacity, View(), head);
      out := MoveOut(h % capacity);
    }

    method GiveBack(h: nat, ghost out: Option<T>)
      requires Valid() && consumer == Clear(h, out)
      modifies this, buffer
      ensures Valid() && old(history.claims) <= history.claims && consumer == Outside
      ensures h == old(head) && head == old(head) + 1 && history.popped == old(history.popped) + [out]
      ensures Lasting(old(View()), View())
    {
      MarkEmpty(h, out);
      Interfere(Popper);
      ReachableInv(capacity, View());
      StoreHead(h + 1);
    }

    method MarkEmpty(h: nat, ghost out: Option<T>)
      requires Valid() && consumer == Clear(h, out)
      modifies this, buffer
      ensures Valid() && old(history.claims) <= history.claims && consumer == Advance(h, out)
      ensures h == old(head) == head && history.popped == old(history.popped) && Lasting(old(View()), View())
    {
      Interfere(Popper);
      ReachableInv(capacity, View());
      StoreEmpty(h % capacity);
    }

    /**
     try_pop by the one consumer, with producers and observers free to run between its operations.
     It delivers the value of the next ticket, always if that was published before the call.
     */
    method TryPop() returns (out: Option<T>)
      requires Valid() && consumer == Outside
      modifies this, buffer
      ensures Valid() && consumer == Outside && old(history.claims) <= history.claims
      ensures out.Some? ==>
                && head == old(head) + 1 <= |history.claims|
                && out == Some(history.claims[old(head)].value)
                && history.popped == old(history.popped) + [out]
      ensures out.None? ==> head == old(head) && history.popped == old(history.popped)
      ensures old(Published(View(), head)) ==> out.Some?
      ensures Lasting(old(View()), View())
    {
      var h := SeeHead();
      var ready := SeeCell(h);
      if !ready { return None; }
      out := Take(h);
      GiveBack(h, out);
    }

    // empty() by any thread: true means empty at the instant tail was loaded, which is when it returns.
    method IsEmpty(ghost o: nat) returns (b: bool)
      requires Valid() && o !in observers
      modifies this, buffer
      ensures Valid() && o !in observers
      ensures b ==> head == tail
      ensures old(head) == tail ==> b
    {
      Interfere(Observer(o));
      var h := LoadHead(EmptyLoadHead(o));
      Interfere(Observer(o));
      ReachableInv(capacity, View());
      var t := LoadTail(EmptyLoadTail(o));
      b := h == t;
    }
  }
}
