/**
 What every reachable state of the ring satisfies, with unbounded counters: FIFO delivery, the
 bound on head and tail, exclusive slots, and what the answers of its operations mean.
 */
module RingSafety {
  import opened Common
  import opened Claims
  import opened RingModel

  // Thread p owns a ticket it has claimed and not yet published.
  ghost predicate Holds<T>(s: State<T>, p: nat, t: nat) {
    var pc := Pc(s, p);
    (pc.Write? || pc.Publish?) && pc.ticket == t
  }

  ghost predicate InFlight<T>(s: State<T>, t: nat)
    requires t < |s.history.claims|
  {
    Holds(s, s.history.claims[t].pusher, t)
  }

  // The consumer has already given cell t back and only has to advance head.
  ghost predicate Released<T>(s: State<T>, t: nat) {
    s.consumer.Advance? && s.head == t
  }

  // Ticket t is claimed and its push has set its cell's state to Ready.
  ghost predicate Published<T>(s: State<T>, t: nat) {
    t < |s.history.claims| && !InFlight(s, t)
  }

  // Ticket t is published, its value is in the cell, and the consumer may still take it.
  ghost predicate Delivered<T>(s: State<T>, t: nat) {
    Published(s, t) && !Released(s, t)
  }

  // The next n tickets to be popped are published.
  ghost predicate Waiting<T>(s: State<T>, n: nat) {
    forall t | s.head <= t < s.head + n :: Published(s, t)
  }

  // What was published at s is so at s'.
  ghost predicate Lasting<T>(s: State<T>, s': State<T>) {
    forall t: nat | Published(s, t) :: Published(s', t)
  }

  ghost predicate CellOk<T>(c: nat, s: State<T>, t: nat)
    requires |s.cells| == c > 0
  {
    var cell := s.cells[Slot(c, t)];
    && (cell.state == Ready <==> Delivered(s, t))
    && (Delivered(s, t) && !(s.consumer.Clear? && t == s.head) ==> cell.value == Some(s.history.claims[t].value))
  }

  ghost predicate ProducerOk<T>(c: nat, s: State<T>, p: nat)
    requires |s.cells| == c > 0
  {
    match Pc(s, p)
    case Idle => true
    case LoadHead(_) => true
    case LoadTail(_, h) => h <= s.head
    case Cas(_, h, t) => h <= s.head && h <= t <= s.tail && t - h < c
    case Write(v, t) => s.head <= t < |s.history.claims| && s.history.claims[t] == Claim(p, v)
    case Publish(v, t) =>
      && s.head <= t < |s.history.claims| && s.history.claims[t] == Claim(p, v)
      && s.cells[Slot(c, t)].value == Some(v)
  }

  ghost predicate ConsumerOk<T>(s: State<T>) {
    var k := s.consumer;
    match k
    case Outside => true
    case LoadState(h) => h == s.head
    case Read(h) => h == s.head && Delivered(s, h)
    case Clear(h, out) => h == s.head && Delivered(s, h) && out == Some(s.history.claims[h].value)
    case Advance(h, out) =>
      h == s.head < |s.history.claims| && !InFlight(s, h) && out == Some(s.history.claims[h].value)
  }

  ghost predicate Inv<T>(c: nat, s: State<T>) {
    && c > 1 && |s.cells| == c
    && s.head <= s.tail <= s.head + c
    && |s.history.claims| == s.tail
    && |s.history.popped| == s.head
    && (forall i | 0 <= i < s.head :: s.history.popped[i] == Some(s.history.claims[i].value))
    && (forall p :: ProducerOk(c, s, p))
    && ConsumerOk(s)
    && (forall t | s.head <= t < s.head + c :: CellOk(c, s, t))
    && (forall o | o in s.observers :: s.observers[o] <= s.head)
  }

  // Two tickets of one window of c share no slot; the next window starts in the slot of this one.
  lemma SlotsDistinct(c: nat, h: nat, t: nat, u: nat)
    requires c > 0 && h <= t < h + c && h <= u < h + c && t != u
    ensures Slot(c, t) != Slot(c, u)
  {
    assert t - u == c * (t / c - u / c) + (t % c - u % c);
    if t % c == u % c {
      MultipleBelow(c, t / c - u / c);
    }
  }

  lemma SlotWraps(c: nat, h: nat)
    requires c > 0
    ensures Slot(c, h + c) == Slot(c, h)
  {
    ModOfShift(c, h, 1);
  }

  lemma StartInv<T>(c: nat)
    requires c > 1
    ensures Inv<T>(c, Start(c))
  {
    var s: State<T> := Start(c);
    forall t | s.head <= t < s.head + c ensures CellOk(c, s, t) {
      assert 0 <= t % c < c;
    }
  }

  lemma InvStep<T>(c: nat, s: State<T>, a: Action<T>)
    requires Inv(c, s) && Enabled(s, a)
    ensures Inv(c, Step(false, c, s, a))
  {
    match a
    case PushCas(p, _) => InvCas(c, s, a);
    case PushWrite(p) => InvWrite(c, s, a);
    case PushPublish(p) => InvPublish(c, s, a);
    case PopRead => InvPopCell(c, s, a);
    case PopClear => InvPopCell(c, s, a);
    case PopAdvance => InvAdvance(c, s, a);
    case _ => InvLocal(c, s, a);
  }

  // Steps that touch no cell, counter or ticket.
  lemma InvLocal<T>(c: nat, s: State<T>, a: Action<T>)
    requires Inv(c, s) && Enabled(s, a)
    requires !a.PushCas? && !a.PushWrite? && !a.PushPublish? && !a.PopRead? && !a.PopClear? && !a.PopAdvance?
    ensures Inv(c, Step(false, c, s, a))
  {
    var s' := Step(false, c, s, a);
    forall p, t: nat ensures Holds(s', p, t) == Holds(s, p, t) {}
    forall t | s'.head <= t < s'.head + c ensures CellOk(c, s', t) {
      assert CellOk(c, s, t);
    }
    if a.PopLoadState? { assert CellOk(c, s, s.head); }
    forall p ensures ProducerOk(c, s', p) {
      assert ProducerOk(c, s, p);
    }
  }

  lemma InvCas<T>(c: nat, s: State<T>, a: Action<T>)
    requires Inv(c, s) && Enabled(s, a) && a.PushCas?
    ensures Inv(c, Step(false, c, s, a))
  {
    var s' := Step(false, c, s, a);
    var p := a.p;
    assert ProducerOk(c, s, p);
    forall q, t: nat | t < s.tail ensures Holds(s', q, t) == Holds(s, q, t) {
      assert ProducerOk(c, s, q);
    }
    forall t | s'.head <= t < s'.head + c ensures CellOk(c, s', t) {
      assert CellOk(c, s, t);
    }
    forall q ensures ProducerOk(c, s', q) {
      assert ProducerOk(c, s, q);
    }
  }

  lemma InvWrite<T>(c: nat, s: State<T>, a: Action<T>)
    requires Inv(c, s) && Enabled(s, a) && a.PushWrite?
    ensures Inv(c, Step(false, c, s, a))
  {
    var s' := Step(false, c, s, a);
    var mine := Pc(s, a.p).ticket;
    assert ProducerOk(c, s, a.p);
    forall q, t: nat ensures Holds(s', q, t) == Holds(s, q, t) {}
    forall t | s'.head <= t < s'.head + c ensures CellOk(c, s', t) {
      assert CellOk(c, s, t);
      if t != mine { SlotsDistinct(c, s.head, t, mine); }
    }
    forall q ensures ProducerOk(c, s', q) {
      assert ProducerOk(c, s, q);
      if Pc(s, q).Publish? && q != a.p { SlotsDistinct(c, s.head, Pc(s, q).ticket, mine); }
    }
  }

  lemma InvPublish<T>(c: nat, s: State<T>, a: Action<T>)
    requires Inv(c, s) && Enabled(s, a) && a.PushPublish?
    ensures Inv(c, Step(false, c, s, a))
  {
    var s' := Step(false, c, s, a);
    var mine := Pc(s, a.p).ticket;
    assert ProducerOk(c, s, a.p);
    forall q, t: nat ensures Holds(s', q, t) == (Holds(s, q, t) && t != mine) {
      assert ProducerOk(c, s, q);
    }
    forall t | s'.head <= t < s'.head + c ensures CellOk(c, s', t) {
      assert CellOk(c, s, t);
      if t != mine { SlotsDistinct(c, s.head, t, mine); }
    }
    forall q ensures ProducerOk(c, s', q) {
      assert ProducerOk(c, s, q);
    }
  }

  // The two consumer steps that change the cell at head.
  lemma InvPopCell<T>(c: nat, s: State<T>, a: Action<T>)
    requires Inv(c, s) && Enabled(s, a) && (a.PopRead? || a.PopClear?)
    ensures Inv(c, Step(false, c, s, a))
  {
    var s' := Step(false, c, s, a);
    assert CellOk(c, s, s.head);
    forall q, t: nat ensures Holds(s', q, t) == Holds(s, q, t) {}
    forall t | s'.head <= t < s'.head + c ensures CellOk(c, s', t) {
      assert CellOk(c, s, t);
      if t != s.head { SlotsDistinct(c, s.head, t, s.head); }
    }
    forall q ensures ProducerOk(c, s', q) {
      assert ProducerOk(c, s, q);
      if Pc(s, q).Publish? {
        assert Pc(s, q).ticket != s.head;
        SlotsDistinct(c, s.head, Pc(s, q).ticket, s.head);
      }
    }
  }

  lemma InvAdvance<T>(c: nat, s: State<T>, a: Action<T>)
    requires Inv(c, s) && Enabled(s, a) && a.PopAdvance?
    ensures Inv(c, Step(false, c, s, a))
  {
    var s' := Step(false, c, s, a);
    forall q, t: nat ensures Holds(s', q, t) == Holds(s, q, t) {}
    forall t | s'.head <= t < s'.head + c ensures CellOk(c, s', t) {
      if t < s.head + c {
        assert CellOk(c, s, t);
      } else {
        SlotWraps(c, s.head);
        assert CellOk(c, s, s.head);
      }
    }
    forall q ensures ProducerOk(c, s', q) {
      assert ProducerOk(c, s, q);
    }
  }

  // Published once, published ever after.
  lemma PublishedLasts<T>(c: nat, s: State<T>, a: Action<T>)
    requires Inv(c, s) && Enabled(s, a)
    ensures Lasting(s, Step(false, c, s, a))
  {
    forall t: nat | Published(s, t) ensures Published(Step(false, c, s, a), t) {
      assert ProducerOk(c, s, s.history.claims[t].pusher);
      if a.PushCas? { assert ProducerOk(c, s, a.p); }
    }
  }
}
