/** The SPSC ring refines a bounded FIFO of one element less than its capacity, in every interleaving. */
module SpscTheorems {
  import opened Common
  import opened Bits
  import opened SpscModel

  // The place of the t-th element ever pushed.
  function Place(c: nat, t: nat): nat
    requires c > 0
  {
    t % c
  }

  predicate Power(c: nat) {
    c > 0 && BitAnd(c, c - 1) == 0
  }

  // For every capacity the constructor accepts, the mask is the remainder.
  lemma MaskedIsMod(c: nat, x: nat)
    requires Power(c)
    ensures BitAnd(x, c - 1) == x % c
  {
    PowerTest(c);
    var k: nat :| c == Pow2(k);
    MaskIsMod(x, k);
  }

  lemma NextPlace(c: nat, t: nat)
    requires c > 0
    ensures Place(c, t + 1) == if Place(c, t) + 1 == c then 0 else Place(c, t) + 1
  {
    var q, r := t / c, t % c;
    if r + 1 == c {
      assert c * (q + 1) == c * q + c;
      DivModUnique(c, t + 1, q + 1, 0);
    } else {
      DivModUnique(c, t + 1, q, r + 1);
    }
  }

  lemma AdvanceIsNext(c: nat, t: nat)
    requires Power(c)
    ensures Advance(c, Place(c, t)) == Place(c, t + 1)
  {
    var r := Place(c, t);
    MaskedIsMod(c, r + 1);
    NextPlace(c, t);
    if r + 1 == c { DivModUnique(c, r + 1, 1, 0); } else { DivModUnique(c, r + 1, 0, r + 1); }
  }

  lemma PlacesDistinct(c: nat, r: nat, t: nat, u: nat)
    requires c > 0 && r <= t < r + c && r <= u < r + c && t != u
    ensures Place(c, t) != Place(c, u)
  {
    assert t - u == c * (t / c - u / c) + (t % c - u % c);
    if t % c == u % c { MultipleBelow(c, t / c - u / c); }
  }

  // What the slot of the t-th element must hold.
  function Expected<T>(s: State<T>, t: nat): Slot<T> {
    var r, w := |s.popped|, |s.pushed|;
    if t < r then Raw
    else if t == r && s.consumer.Destroy? then Live(None)
    else if t == r && s.consumer.StoreRead? then Raw
    else if t < w then Live(Some(s.pushed[t]))
    else if t == w && s.producer.StoreWrite? then Live(Some(s.producer.value))
    else Raw
  }

  ghost predicate SlotOk<T>(c: nat, s: State<T>, t: nat)
    requires |s.slots| == c > 0
  {
    s.slots[Place(c, t)] == Expected(s, t)
  }

  ghost predicate ProducerOk<T>(c: nat, s: State<T>)
    requires c > 0
  {
    var r, w := |s.popped|, |s.pushed|;
    match s.producer
    case Idle => true
    case LoadRead(_, tail) => tail == Place(c, w)
    case Construct(_, tail, next) => tail == Place(c, w) && next == Place(c, w + 1) && w + 1 < r + c
    case StoreWrite(_, tail, next) => tail == Place(c, w) && next == Place(c, w + 1) && w + 1 < r + c
    case Compare(head, taken) => head == Place(c, taken) && taken <= r && w < taken + c
  }

  ghost predicate ConsumerOk<T>(c: nat, s: State<T>)
    requires c > 0
  {
    var r, w := |s.popped|, |s.pushed|;
    match s.consumer
    case Outside => true
    case LoadWrite(head) => head == Place(c, r)
    case CompareWrite(head) => head == Place(c, r)
    case Move(head) => head == Place(c, r) && r < w
    case Destroy(head, out) => head == Place(c, r) && r < w && out == Some(s.pushed[r])
    case StoreRead(head, out) => head == Place(c, r) && r < w && out == Some(s.pushed[r])
  }

  ghost predicate Inv<T>(c: nat, s: State<T>) {
    var r, w := |s.popped|, |s.pushed|;
    && Power(c) && |s.slots| == c && !s.fault
    && r <= w < r + c
    && s.readIndex == Place(c, r) && s.writeIndex == Place(c, w)
    && (forall i | 0 <= i < r :: s.popped[i] == Some(s.pushed[i]))
    && ProducerOk(c, s) && ConsumerOk(c, s)
    && (forall t | r <= t < r + c :: SlotOk(c, s, t))
  }

  lemma StartInv<T>(c: nat)
    requires Power(c)
    ensures Inv<T>(c, Start(c))
  {
    var s: State<T> := Start(c);
    forall t | 0 <= t < c ensures SlotOk(c, s, t) { assert t % c < c; }
    DivModUnique(c, 0, 0, 0);
  }

  // Indices agree exactly when as many elements have been taken as put, and next is taken exactly when
  // the ring is full.
  lemma IndexTests(c: nat, r: nat, w: nat)
    requires Power(c) && r <= w < r + c
    ensures Place(c, r) == Place(c, w) <==> r == w
    ensures Place(c, w + 1) == Place(c, r) <==> w + 1 == r + c
  {
    if r != w { PlacesDistinct(c, r, r, w); }
    if w + 1 == r + c {
      ModOfShift(c, r, 1);
    } else {
      PlacesDistinct(c, r, r, w + 1);
    }
  }

  lemma InvStep<T>(c: nat, s: State<T>, a: Action<T>)
    requires Inv(c, s) && Enabled(s, a)
    ensures Inv(c, Step(c, s, a))
  {
    match a
    case PopStoreRead => InvRelease(c, s);
    case _ => InvInPlace(c, s, a);
  }

  // All steps but the consumer's last leave the window of slots where it is.
  lemma InvInPlace<T>(c: nat, s: State<T>, a: Action<T>)
    requires Inv(c, s) && Enabled(s, a) && !a.PopStoreRead?
    ensures Inv(c, Step(c, s, a))
  {
    var s' := Step(c, s, a);
    var r, w := |s.popped|, |s.pushed|;
    IndexTests(c, r, w);
    AdvanceIsNext(c, w);
    assert SlotOk(c, s, r) && SlotOk(c, s, w);
    forall t | r <= t < r + c ensures SlotOk(c, s', t) {
      assert SlotOk(c, s, t);
      if a.PushConstruct? && t != w { PlacesDistinct(c, r, t, w); }
      if (a.PopMove? || a.PopDestroy?) && t != r { PlacesDistinct(c, r, t, r); }
    }
  }

  lemma InvRelease<T>(c: nat, s: State<T>)
    requires Inv(c, s) && s.consumer.StoreRead?
    ensures Inv(c, Step(c, s, PopStoreRead))
  {
    var s' := Step(c, s, PopStoreRead);
    var r := |s.popped|;
    AdvanceIsNext(c, r);
    forall t | r + 1 <= t < r + 1 + c ensures SlotOk(c, s', t) {
      if t < r + c {
        assert SlotOk(c, s, t);
      } else {
        ModOfShift(c, r, 1);
        assert SlotOk(c, s, r);
      }
    }
  }

  ghost predicate Reachable<T(!new)>(c: nat, s: State<T>) {
    Power(c) && exists trace, run {:trigger Behaviour(c, trace, run)} ::
      Behaviour(c, trace, run) && trace[0] == Start(c) && trace[|run|] == s
  }

  lemma ReachableInv<T(!new)>(c: nat, s: State<T>)
    requires Reachable(c, s)
    ensures Inv(c, s)
  {
    var trace, run :| Behaviour(c, trace, run) && trace[0] == Start(c) && trace[|run|] == s;
    StartInv<T>(c);
    var i := 0;
    while i < |run|
      invariant i <= |run| && Inv(c, trace[i])
    {
      InvStep(c, trace[i], run[i]);
      i := i + 1;
    }
  }

  lemma ReachableStart<T(!new)>(c: nat)
    requires Power(c)
    ensures Reachable(c, Start<T>(c))
  {
    assert Behaviour<T>(c, [Start(c)], []);
  }

  lemma ReachableStep<T(!new)>(c: nat, s: State<T>, a: Action<T>)
    requires Reachable(c, s) && Enabled(s, a)
    ensures c > 0 && Reachable(c, Step(c, s, a))
  {
    var trace, run :| Behaviour(c, trace, run) && trace[0] == Start(c) && trace[|run|] == s;
    assert Behaviour(c, trace + [Step(c, s, a)], run + [a]);
  }

  // ---- Refinement -----------------------------------------------------------------------------

  // The abstract queue.
  function Contents<T>(s: State<T>): seq<T> {
    if |s.popped| <= |s.pushed| then s.pushed[|s.popped|..] else []
  }

  // One move of a FIFO that holds at most bound elements.
  ghost predicate FifoMove<T>(bound: int, q: seq<T>, q': seq<T>, gave: Option<T>) {
    || (q' == q && gave == None)
    || (|q| < bound && |q'| == |q| + 1 && q'[..|q|] == q && gave == None)
    || (q != [] && q' == q[1..] && gave == Some(q[0]))
  }

  /**
   Refinement. Every step of the masked ring is one move of a FIFO bounded by capacity - 1, or none:
   publishing an element appends it, releasing one removes the oldest, whose value the pop returns.
   No element is ever constructed over a live one, or moved or destroyed when not live.
   */
  lemma StepRefines<T(!new)>(c: nat, s: State<T>, a: Action<T>)
    requires Reachable(c, s) && Enabled(s, a)
    ensures c > 0 && !Step(c, s, a).fault && |Contents(s)| <= c - 1
    ensures FifoMove(c - 1, Contents(s), Contents(Step(c, s, a)),
                     if a.PopStoreRead? then s.consumer.out else None)
    ensures a.PushStoreWrite? ==> Contents(Step(c, s, a)) == Contents(s) + [s.producer.value]
    ensures a.PopStoreRead? ==> Contents(s) != [] && Contents(Step(c, s, a)) == Contents(s)[1..]
  {
    ReachableInv(c, s);
    InvStep(c, s, a);
    var q, q' := Contents(s), Contents(Step(c, s, a));
    if a.PushStoreWrite? {
      assert q' == q + [s.producer.value];
      assert q'[..|q|] == q;
    }
  }

  lemma FullExact<T(!new)>(c: nat, s: State<T>)
    requires Reachable(c, s) && s.producer.LoadRead?
    ensures c > 0 && |s.popped| <= |s.pushed| < |s.popped| + c && s.producer.tail == s.writeIndex
    ensures Advance(c, s.writeIndex) == s.readIndex <==> |s.pushed| - |s.popped| == c - 1
  {
    ReachableInv(c, s);
    IndexTests(c, |s.popped|, |s.pushed|);
    AdvanceIsNext(c, |s.pushed|);
  }

  // push fails exactly if the queue is full as read_index is loaded; try_pop and the consumer's empty()
  // answer exactly as write_index is loaded, and the producer's empty() exactly as read_index was loaded.
  lemma AnswersExact<T(!new)>(c: nat, s: State<T>)
    requires Reachable(c, s)
    ensures c > 0
    ensures s.producer.LoadRead? ==> (Step(c, s, PushLoadRead).producer == Idle <==> |Contents(s)| == c - 1)
    ensures s.consumer.LoadWrite? ==> (Step(c, s, PopLoadWrite).consumer == Outside <==> Contents(s) == [])
    ensures s.consumer.CompareWrite? ==> (s.consumer.head == s.writeIndex <==> Contents(s) == [])
    ensures s.producer.Compare? ==>
              s.producer.taken <= |s.popped| && (s.producer.head == s.writeIndex <==> s.producer.taken == |s.pushed|)
  {
    ReachableInv(c, s);
    if s.producer.Compare? { IndexTests(c, s.producer.taken, |s.pushed|); }
    IndexTests(c, |s.popped|, |s.pushed|);
    AdvanceIsNext(c, |s.pushed|);
  }

  // The live slots are exactly those of the queued elements, and of the one push has constructed and
  // not yet published, less the one pop has destroyed and not yet released.
  lemma LiveSlots<T(!new)>(c: nat, s: State<T>, i: nat)
    requires Reachable(c, s) && i < c
    ensures |s.slots| == c > 0
    ensures s.slots[i].Live? <==>
              exists t :: |s.popped| <= t <= |s.pushed| && Place(c, t) == i
                && (t == |s.popped| ==> !s.consumer.StoreRead?)
                && (t == |s.pushed| ==> s.producer.StoreWrite?)
  {
    ReachableInv(c, s);
    var r := |s.popped|;
    // the element of the window whose place is i
    var t := if Place(c, r) <= i then r - Place(c, r) + i else r - Place(c, r) + c + i;
    assert r == c * (r / c) + r % c;
    if Place(c, r) <= i {
      DivModUnique(c, t, r / c, i);
    } else {
      assert t == c * (r / c + 1) + i;
      DivModUnique(c, t, r / c + 1, i);
    }
    assert SlotOk(c, s, t);
    forall u | r <= u <= |s.pushed| && Place(c, u) == i ensures u == t {
      if u != t { PlacesDistinct(c, r, t, u); }
    }
  }
}
