/** The ring's whole-run results. */
module RingTheorems {
  import opened Common
  import opened Claims
  import opened RingModel
  import opened RingSafety

  // The value of a push that has claimed its ticket and not yet returned.
  function Pending<T>(s: State<T>, p: nat): seq<T> {
    var pc := Pc(s, p);
    if pc.Write? || pc.Publish? then [pc.value] else []
  }

  ghost predicate Ordered<T>(s: State<T>) {
    forall p :: ClaimedBy(s.history.claims, p) == AcceptedBy(s, p) + Pending(s, p)
  }

  lemma OrderedStep<T>(c: nat, s: State<T>, a: Action<T>)
    requires Inv(c, s) && Ordered(s) && Enabled(s, a)
    ensures Ordered(Step(false, c, s, a))
  {
    forall p
      ensures ClaimedBy(Step(false, c, s, a).history.claims, p)
           == AcceptedBy(Step(false, c, s, a), p) + Pending(Step(false, c, s, a), p)
    {
      OrderedFor(c, s, a, p);
    }
  }

  lemma OrderedFor<T>(c: nat, s: State<T>, a: Action<T>, p: nat)
    requires |s.cells| == c > 0 && Enabled(s, a)
    requires ClaimedBy(s.history.claims, p) == AcceptedBy(s, p) + Pending(s, p)
    ensures
      var s' := Step(false, c, s, a);
      ClaimedBy(s'.history.claims, p) == AcceptedBy(s', p) + Pending(s', p)
  {
    if a.PushCas? {
      ClaimedAfterCas(c, s, a, p);
    } else if a.PushPublish? {
      ClaimedAfterPublish(c, s, a, p);
    } else {
      ClaimedOtherwise(c, s, a, p);
    }
  }

  lemma ClaimedAfterCas<T>(c: nat, s: State<T>, a: Action<T>, p: nat)
    requires |s.cells| == c > 0 && Enabled(s, a) && a.PushCas?
    requires ClaimedBy(s.history.claims, p) == AcceptedBy(s, p) + Pending(s, p)
    ensures
      var s' := Step(false, c, s, a);
      ClaimedBy(s'.history.claims, p) == AcceptedBy(s', p) + Pending(s', p)
  {
    if a.spurious || s.tail != Pc(s, a.p).t {
      ClaimFails(c, s, a, p);
    } else {
      ClaimedByOneMore(s.history.claims, Claim(a.p, Pc(s, a.p).value), p);
      ClaimSucceeds(c, s, a, p);
    }
  }

  lemma ClaimFails<T>(c: nat, s: State<T>, a: Action<T>, p: nat)
    requires |s.cells| == c > 0 && Enabled(s, a) && a.PushCas? && (a.spurious || s.tail != Pc(s, a.p).t)
    ensures
      var s' := Step(false, c, s, a);
      s'.history == s.history && AcceptedBy(s', p) == AcceptedBy(s, p) && Pending(s', p) == Pending(s, p)
  {}

  lemma ClaimSucceeds<T>(c: nat, s: State<T>, a: Action<T>, p: nat)
    requires |s.cells| == c > 0 && Enabled(s, a) && a.PushCas? && !a.spurious && s.tail == Pc(s, a.p).t
    ensures
      var s' := Step(false, c, s, a);
      && s'.history.claims == s.history.claims + [Claim(a.p, Pc(s, a.p).value)]
      && AcceptedBy(s', p) == AcceptedBy(s, p)
      && Pending(s', p) == Pending(s, p) + if a.p == p then [Pc(s, p).value] else []
  {}

  lemma ClaimedAfterPublish<T>(c: nat, s: State<T>, a: Action<T>, p: nat)
    requires |s.cells| == c > 0 && Enabled(s, a) && a.PushPublish?
    requires ClaimedBy(s.history.claims, p) == AcceptedBy(s, p) + Pending(s, p)
    ensures
      var s' := Step(false, c, s, a);
      ClaimedBy(s'.history.claims, p) == AcceptedBy(s', p) + Pending(s', p)
  {
    var s' := Step(false, c, s, a);
    assert s'.history.claims == s.history.claims;
    if p == a.p { assert AcceptedBy(s', p) == AcceptedBy(s, p) + Pending(s, p); }
  }

  lemma ClaimedOtherwise<T>(c: nat, s: State<T>, a: Action<T>, p: nat)
    requires |s.cells| == c > 0 && Enabled(s, a) && !a.PushCas? && !a.PushPublish?
    ensures
      var s' := Step(false, c, s, a);
      s'.history.claims == s.history.claims && AcceptedBy(s', p) == AcceptedBy(s, p) && Pending(s', p) == Pending(s, p)
  {}

  ghost predicate Reachable<T(!new)>(c: nat, s: State<T>) {
    c > 1 && exists trace, run {:trigger Behaviour(false, c, trace, run)} ::
      Behaviour(false, c, trace, run) && trace[0] == Start(c) && trace[|run|] == s
  }

  lemma ReachableInv<T(!new)>(c: nat, s: State<T>)
    requires Reachable(c, s)
    ensures Inv(c, s) && Ordered(s)
  {
    var trace, run :| Behaviour(false, c, trace, run) && trace[0] == Start(c) && trace[|run|] == s;
    StartInv<T>(c);
    var i := 0;
    while i < |run|
      invariant i <= |run| && Inv(c, trace[i]) && Ordered(trace[i])
    {
      InvStep(c, trace[i], run[i]);
      OrderedStep(c, trace[i], run[i]);
      i := i + 1;
    }
  }

  // Whatever a run from the start goes through is reachable.
  lemma BehaviourReaches<T(!new)>(c: nat, trace: seq<State<T>>, run: seq<Action<T>>, i: nat)
    requires c > 1 && Behaviour(false, c, trace, run) && trace[0] == Start(c) && i < |trace|
    ensures Reachable(c, trace[i])
  {
    assert Behaviour(false, c, trace[..i + 1], run[..i]);
    assert trace[..i + 1][i] == trace[i];
  }

  lemma ReachableStart<T(!new)>(c: nat)
    requires c > 1
    ensures Reachable(c, Start<T>(c))
  {
    assert Behaviour<T>(false, c, [Start(c)], []);
  }

  /**
   FIFO. What the consumer has taken is the values of tickets 0, 1, ..., head - 1: in ticket order,
   none lost, repeated or read before it was written. And what it took from one thread is a prefix
   of the values that thread was told were pushed. Although producers test an old head, tail never
   runs more than a capacity ahead of head.
   */
  lemma Fifo<T(!new)>(c: nat, s: State<T>)
    requires Reachable(c, s)
    ensures s.head <= |s.history.claims| == s.tail <= s.head + c && |s.history.popped| == s.head
    ensures forall i | 0 <= i < s.head :: s.history.popped[i] == Some(s.history.claims[i].value)
    ensures forall p :: ClaimedBy(s.history.claims[..s.head], p) <= AcceptedBy(s, p)
  {
    ReachableInv(c, s);
    forall p ensures ClaimedBy(s.history.claims[..s.head], p) <= AcceptedBy(s, p) {
      ClaimedByPrefix(s.history.claims, s.head, p);
      assert ProducerOk(c, s, p);
      assert ClaimedBy(s.history.claims, p) == AcceptedBy(s, p) + Pending(s, p);
      if Pending(s, p) != [] {
        assert s.history.claims[Pc(s, p).ticket].pusher == p;
        assert AcceptedBy(s, p) + Pending(s, p) == AcceptedBy(s, p) + [Pc(s, p).value];
      }
    }
  }

  /**
   Every claimed ticket the consumer has not handed out is still accounted for: some thread is
   about to fill or publish it, or its value waits in its cell, or the consumer is carrying it.
   */
  lemma NothingLost<T(!new)>(c: nat, s: State<T>, t: nat)
    requires Reachable(c, s) && s.head <= t < s.tail
    ensures |s.cells| == c > 0 && t < |s.history.claims|
    ensures
      var v := s.history.claims[t].value;
      || Pc(s, s.history.claims[t].pusher) in {Write(v, t), Publish(v, t)}
      || s.cells[Slot(c, t)] == Cell(Ready, Some(v))
      || (t == s.head && s.consumer in {Clear(t, Some(v)), Advance(t, Some(v))})
  {
    ReachableInv(c, s);
    assert CellOk(c, s, t);
    assert ProducerOk(c, s, s.history.claims[t].pusher);
  }

  /**
   Slots are exclusive. A ticket still being filled sits in an Empty cell, which is no other such
   ticket's cell and not the cell the consumer is working on.
   */
  lemma SlotsExclusive<T(!new)>(c: nat, s: State<T>, p: nat)
    requires Reachable(c, s) && (Pc(s, p).Write? || Pc(s, p).Publish?)
    ensures s.head <= Pc(s, p).ticket < s.tail <= s.head + c && |s.cells| == c > 0
    ensures s.cells[Slot(c, Pc(s, p).ticket)].state == Empty
    ensures forall q | q != p && (Pc(s, q).Write? || Pc(s, q).Publish?) ::
              Slot(c, Pc(s, q).ticket) != Slot(c, Pc(s, p).ticket)
    ensures !s.consumer.Outside? && !s.consumer.LoadState? ==> Slot(c, s.consumer.h) != Slot(c, Pc(s, p).ticket)
  {
    ReachableInv(c, s);
    var t := Pc(s, p).ticket;
    assert ProducerOk(c, s, p) && CellOk(c, s, t);
    forall q | q != p && (Pc(s, q).Write? || Pc(s, q).Publish?) ensures Slot(c, Pc(s, q).ticket) != Slot(c, t) {
      assert ProducerOk(c, s, q);
      SlotsDistinct(c, s.head, t, Pc(s, q).ticket);
    }
    if !s.consumer.Outside? && !s.consumer.LoadState? {
      SlotsDistinct(c, s.head, t, s.consumer.h);
    }
  }

  // try_pop goes on exactly when ticket head has been claimed and published, and then it reads that ticket's value.
  lemma PopAnswer<T(!new)>(c: nat, s: State<T>)
    requires Reachable(c, s) && s.consumer.LoadState?
    ensures s.head <= s.tail == |s.history.claims| && |s.cells| == c > 0
    ensures
      var taken := Step(false, c, s, PopLoadState);
      && (taken.consumer == Outside <==> s.head == s.tail || InFlight(s, s.head))
      && (taken.consumer != Outside ==>
            Step(false, c, taken, PopRead).consumer == Clear(s.head, Some(s.history.claims[s.head].value)))
  {
    ReachableInv(c, s);
    assert CellOk(c, s, s.head);
  }

  // empty() answers true exactly when nothing was claimed beyond the head it had loaded; then the
  // ring is empty at the instant tail is loaded.
  lemma EmptyAnswer<T(!new)>(c: nat, s: State<T>, o: nat)
    requires Reachable(c, s) && o in s.observers
    ensures s.observers[o] <= s.head <= s.tail
    ensures s.observers[o] == s.tail ==> s.head == s.tail
    ensures s.head == s.tail && s.observers[o] == s.head ==> s.observers[o] == s.tail
  {
    ReachableInv(c, s);
  }

  /**
   What "full" means. If no pop finished since the pushing thread loaded head, try_push rejects
   exactly when the ring is full as tail is loaded. Without that proviso it still never accepts
   into a full ring.
   */
  lemma FullAnswer<T(!new)>(c: nat, s: State<T>, p: nat)
    requires Reachable(c, s) && Pc(s, p).LoadTail?
    ensures Pc(s, p).h == s.head ==> (Rejects(false, c, s, p) <==> s.tail == s.head + c)
    ensures s.tail == s.head + c ==> Rejects(false, c, s, p)
    ensures Rejects(false, c, s, p) && s.tail < s.head + c ==> Pc(s, p).h < s.head
  {
    ReachableInv(c, s);
    assert ProducerOk(c, s, p);
  }

  lemma ReachableStep<T(!new)>(c: nat, s: State<T>, a: Action<T>)
    requires Reachable(c, s) && Enabled(s, a)
    ensures |s.cells| == c > 0 && Reachable(c, Step(false, c, s, a))
  {
    ReachableInv(c, s);
    var trace, run :| Behaviour(false, c, trace, run) && trace[0] == Start(c) && trace[|run|] == s;
    assert Behaviour(false, c, trace + [Step(false, c, s, a)], run + [a]);
  }

  // One undisturbed try_push on a ring with room, and one undisturbed try_pop on a ring whose head ticket is published.
  lemma PushWhole<T(!new)>(c: nat, s: State<T>, p: nat, v: T) returns (r: State<T>)
    requires Reachable(c, s) && Pc(s, p).Idle? && s.tail < s.head + c
    ensures Reachable(c, r)
    ensures (r.head, r.tail, r.consumer, r.producers) == (s.head, s.tail + 1, s.consumer, s.producers[p := Idle])
  {
    ReachableInv(c, s);
    r := ClaimWhole(c, s, p, v);
    ReachableInv(c, r);
    ReachableStep(c, r, PushWrite(p));
    r := Step(false, c, r, PushWrite(p));
    ReachableStep(c, r, PushPublish(p));
    r := Step(false, c, r, PushPublish(p));
    assert r.producers == s.producers[p := Idle];
  }

  lemma ClaimWhole<T(!new)>(c: nat, s: State<T>, p: nat, v: T) returns (r: State<T>)
    requires Reachable(c, s) && Pc(s, p).Idle? && s.tail < s.head + c
    ensures Reachable(c, r)
    ensures (r.head, r.tail, r.consumer, r.producers)
         == (s.head, s.tail + 1, s.consumer, s.producers[p := Write(v, s.tail)])
  {
    ReachableInv(c, s);
    r := s;
    ReachableStep(c, r, PushBegin(p, v));
    r := Step(false, c, r, PushBegin(p, v));
    ReachableStep(c, r, PushLoadHead(p));
    r := Step(false, c, r, PushLoadHead(p));
    ReachableStep(c, r, PushLoadTail(p));
    r := Step(false, c, r, PushLoadTail(p));
    ReachableStep(c, r, PushCas(p, false));
    r := Step(false, c, r, PushCas(p, false));
    assert r.producers == s.producers[p := Write(v, s.tail)];
  }

  lemma PopWhole<T(!new)>(c: nat, s: State<T>) returns (r: State<T>)
    requires Reachable(c, s) && s.consumer.Outside? && s.head < s.tail == |s.history.claims|
    requires !InFlight(s, s.head)
    ensures Reachable(c, r)
    ensures (r.head, r.tail, r.consumer, r.producers) == (s.head + 1, s.tail, s.consumer, s.producers)
  {
    ReachableInv(c, s);
    assert CellOk(c, s, s.head);
    r := s;
    ReachableStep(c, r, PopLoadHead);
    r := Step(false, c, r, PopLoadHead);
    ReachableStep(c, r, PopLoadState);
    r := Step(false, c, r, PopLoadState);
    ReachableStep(c, r, PopRead);
    r := Step(false, c, r, PopRead);
    ReachableStep(c, r, PopClear);
    r := Step(false, c, r, PopClear);
    ReachableStep(c, r, PopAdvance);
    r := Step(false, c, r, PopAdvance);
  }

  // n tickets claimed, none popped, and nobody at work.
  ghost predicate Filled<T>(s: State<T>, n: nat) {
    (s.head, s.tail, s.consumer) == (0, n, Outside) && forall p :: Pc(s, p).Idle?
  }

  lemma {:induction false} Fill<T(!new)>(c: nat, n: nat, v: T)
    requires n < c && c > 1
    ensures exists r: State<T> :: Reachable(c, r) && Filled(r, n)
  {
    if n == 0 {
      ReachableStart<T>(c);
      assert Filled(Start<T>(c), 0);
    } else {
      Fill(c, n - 1, v);
      var before: State<T> :| Reachable(c, before) && Filled(before, n - 1);
      assert Pc(before, 1).Idle?;
      var r := PushWhole(c, before, 1, v);
      forall p ensures Pc(r, p).Idle? {
        assert Pc(before, p).Idle?;
      }
      assert Filled(r, n);
    }
  }

  /**
   The proviso of FullAnswer cannot be dropped, whatever the capacity: a thread loads head, one pop
   and one push run to completion, and the thread is told "full" by a ring with a free cell.
   */
  lemma SpuriousFull<T(!new)>(c: nat, v: T)
    requires c > 1
    ensures exists s: State<T> ::
              Reachable(c, s) && Pc(s, 0).LoadTail? && Rejects(false, c, s, 0) && s.tail == s.head + c - 1
  {
    Fill(c, c - 1, v);
    var s: State<T> :| Reachable(c, s) && Filled(s, c - 1);
    assert Pc(s, 0).Idle? && Pc(s, 1).Idle?;
    ReachableInv(c, s);
    var first := s.history.claims[0].pusher;
    assert Pc(s, first).Idle?;
    ReachableStep(c, s, PushBegin(0, v));
    s := Step(false, c, s, PushBegin(0, v));
    ReachableStep(c, s, PushLoadHead(0));
    s := Step(false, c, s, PushLoadHead(0));
    assert s.head < s.tail && !InFlight(s, s.head) by {
      assert Pc(s, first) == if first == 0 then LoadTail(v, 0) else Idle;
    }
    s := PopWhole(c, s);
    s := PushWhole(c, s, 1, v);
    assert Pc(s, 0) == LoadTail(v, 0);
  }
}
