/**
 head and tail are 64-bit and wrap. When the capacity divides 2^64 and no thread keeps a loaded
 counter while tail moves on by 2^64 or more, the wrapping ring does step for step what the ring
 with unbounded counters does.
 */
module RingWrapping {
  import opened Common
  import opened RingModel
  import opened RingSafety
  import RingTheorems

  // The capacity of the engine's event queue.
  const MAX_EVENTS: nat := 4096

  function Low(x: nat): nat {
    x % SIZE_T_RANGE
  }

  function LowProducer<T>(pc: Producer<T>): Producer<T> {
    match pc
    case Idle => Idle
    case LoadHead(v) => LoadHead(v)
    case LoadTail(v, h) => LoadTail(v, Low(h))
    case Cas(v, h, t) => Cas(v, Low(h), Low(t))
    case Write(v, t) => Write(v, Low(t))
    case Publish(v, t) => Publish(v, Low(t))
  }

  function LowConsumer<T>(k: Consumer<T>): Consumer<T> {
    match k
    case Outside => Outside
    case LoadState(h) => LoadState(Low(h))
    case Read(h) => Read(Low(h))
    case Clear(h, out) => Clear(Low(h), out)
    case Advance(h, out) => Advance(Low(h), out)
  }

  // The 64-bit state that stands for s.
  function Wrapped<T>(s: State<T>): State<T> {
    s.(head := Low(s.head), tail := Low(s.tail),
       producers := map p | p in s.producers :: LowProducer(s.producers[p]),
       consumer := LowConsumer(s.consumer),
       observers := map o | o in s.observers :: Low(s.observers[o]))
  }

  // Every counter value a thread still holds for a comparison is less than 2^64 behind tail.
  ghost predicate Fresh<T>(s: State<T>) {
    && (forall p :: (Pc(s, p).LoadTail? ==> s.tail - Pc(s, p).h < SIZE_T_RANGE)
                 && (Pc(s, p).Cas? ==> s.tail - Pc(s, p).t < SIZE_T_RANGE))
    && (forall o | o in s.observers :: s.tail - s.observers[o] < SIZE_T_RANGE)
  }

  lemma SlotOfLow(c: nat, t: nat)
    requires c > 0 && SIZE_T_RANGE % c == 0
    ensures Slot(c, Low(t)) == Slot(c, t)
  {
    var k, q := SIZE_T_RANGE / c, t / SIZE_T_RANGE;
    assert SIZE_T_RANGE == c * k;
    assert t == Low(t) + (c * k) * q == Low(t) + c * (k * q) by {
      assert (c * k) * q == c * (k * q);
    }
    ModOfShift(c, Low(t), k * q);
  }

  // Cells keep their place when the counters wrap for exactly the capacities that divide 2^64.
  lemma DividesExactly(c: nat)
    requires c > 0
    ensures (forall t: nat :: Slot(c, Low(t)) == Slot(c, t)) <==> SIZE_T_RANGE % c == 0
  {
    if SIZE_T_RANGE % c == 0 {
      forall t: nat ensures Slot(c, Low(t)) == Slot(c, t) { SlotOfLow(c, t); }
    } else {
      assert Slot(c, Low(SIZE_T_RANGE)) == 0 % c == 0;
      assert Slot(c, SIZE_T_RANGE) != 0;
    }
  }

  lemma PcOfWrapped<T>(s: State<T>, p: nat)
    ensures Pc(Wrapped(s), p) == LowProducer(Pc(s, p))
  {}

  lemma LowSucc(x: nat)
    ensures Succ(true, Low(x)) == Low(x + 1)
  {}

  lemma LowGap(t: nat, h: nat)
    requires h <= t && t - h < SIZE_T_RANGE
    ensures Gap(true, Low(t), Low(h)) == t - h
    ensures Low(t) == Low(h) <==> t == h
  {}

  // The two rings allow the same actions.
  lemma EnabledAlike<T>(s: State<T>, a: Action<T>)
    ensures Enabled(Wrapped(s), a) <==> Enabled(s, a)
  {
    match a
    case PushBegin(p, _) => PcOfWrapped(s, p);
    case PushLoadHead(p) => PcOfWrapped(s, p);
    case PushLoadTail(p) => PcOfWrapped(s, p);
    case PushCas(p, _) => PcOfWrapped(s, p);
    case PushWrite(p) => PcOfWrapped(s, p);
    case PushPublish(p) => PcOfWrapped(s, p);
    case _ =>
  }

  /**
   One step: the two rings allow the same actions, and then the wrapping ring comes to the state that
   stands for the unbounded ring's, and gives the same answers.
   */
  lemma StepWraps<T(!new)>(c: nat, s: State<T>, a: Action<T>)
    requires Inv(c, s) && Fresh(s) && (Enabled(Wrapped(s), a) || Enabled(s, a))
    requires SIZE_T_RANGE % c == 0
    ensures Enabled(Wrapped(s), a) && Enabled(s, a)
    ensures Step(true, c, Wrapped(s), a) == Wrapped(Step(false, c, s, a))
    ensures a.PushLoadTail? ==> Rejects(true, c, Wrapped(s), a.p) == Rejects(false, c, s, a.p)
    ensures a.EmptyLoadTail? ==> (Wrapped(s).observers[a.o] == Low(s.tail) <==> s.observers[a.o] == s.tail)
  {
    EnabledAlike(s, a);
    match a
    case PushBegin(_, _) => PushWraps(c, s, a);
    case PushLoadHead(_) => PushWraps(c, s, a);
    case PushLoadTail(_) => PushWraps(c, s, a);
    case PushCas(_, _) => CasWraps(c, s, a);
    case PushWrite(_) => FillWraps(c, s, a);
    case PushPublish(_) => FillWraps(c, s, a);
    case EmptyLoadHead(_) => EmptyWraps(c, s, a);
    case EmptyLoadTail(_) => EmptyWraps(c, s, a);
    case _ => PopWraps(c, s, a);
  }

  lemma PushWraps<T(!new)>(c: nat, s: State<T>, a: Action<T>)
    requires Inv(c, s) && Fresh(s) && Enabled(s, a)
    requires a.PushBegin? || a.PushLoadHead? || a.PushLoadTail?
    ensures Enabled(Wrapped(s), a)
    ensures Step(true, c, Wrapped(s), a) == Wrapped(Step(false, c, s, a))
    ensures a.PushLoadTail? ==> Rejects(true, c, Wrapped(s), a.p) == Rejects(false, c, s, a.p)
  {
    PcOfWrapped(s, a.p);
    assert ProducerOk(c, s, a.p);
    if a.PushLoadTail? { LowGap(s.tail, Pc(s, a.p).h); }
    assert Step(true, c, Wrapped(s), a).producers == Wrapped(Step(false, c, s, a)).producers;
  }

  lemma CasWraps<T(!new)>(c: nat, s: State<T>, a: Action<T>)
    requires Inv(c, s) && Fresh(s) && Enabled(s, a) && a.PushCas?
    ensures Enabled(Wrapped(s), a)
    ensures Step(true, c, Wrapped(s), a) == Wrapped(Step(false, c, s, a))
  {
    PcOfWrapped(s, a.p);
    assert ProducerOk(c, s, a.p);
    LowGap(s.tail, Pc(s, a.p).t);
    LowSucc(Pc(s, a.p).t);
    assert Step(true, c, Wrapped(s), a).producers == Wrapped(Step(false, c, s, a)).producers;
  }

  lemma FillWraps<T(!new)>(c: nat, s: State<T>, a: Action<T>)
    requires Inv(c, s) && Enabled(s, a) && (a.PushWrite? || a.PushPublish?)
    requires SIZE_T_RANGE % c == 0
    ensures Enabled(Wrapped(s), a)
    ensures Step(true, c, Wrapped(s), a) == Wrapped(Step(false, c, s, a))
  {
    PcOfWrapped(s, a.p);
    SlotOfLow(c, Pc(s, a.p).ticket);
    assert Step(true, c, Wrapped(s), a).producers == Wrapped(Step(false, c, s, a)).producers;
  }

  lemma PopWraps<T(!new)>(c: nat, s: State<T>, a: Action<T>)
    requires Inv(c, s) && Enabled(s, a)
    requires a.PopLoadHead? || a.PopLoadState? || a.PopRead? || a.PopClear? || a.PopAdvance?
    requires SIZE_T_RANGE % c == 0
    ensures Enabled(Wrapped(s), a)
    ensures Step(true, c, Wrapped(s), a) == Wrapped(Step(false, c, s, a))
  {
    if !a.PopLoadHead? {
      SlotOfLow(c, s.consumer.h);
      LowSucc(s.consumer.h);
    }
  }

  lemma EmptyWraps<T(!new)>(c: nat, s: State<T>, a: Action<T>)
    requires Inv(c, s) && Fresh(s) && Enabled(s, a) && (a.EmptyLoadHead? || a.EmptyLoadTail?)
    ensures Enabled(Wrapped(s), a)
    ensures Step(true, c, Wrapped(s), a) == Wrapped(Step(false, c, s, a))
    ensures a.EmptyLoadTail? ==> (Wrapped(s).observers[a.o] == Low(s.tail) <==> s.observers[a.o] == s.tail)
  {
    if a.EmptyLoadTail? { LowGap(s.tail, s.observers[a.o]); }
    assert Step(true, c, Wrapped(s), a).observers == Wrapped(Step(false, c, s, a)).observers;
  }

  /**
   Whole runs, from the unbounded ring's side: started empty, the 64-bit ring can go through the
   states that stand for the unbounded ring's. RingWrappedRuns.RunLifts is the other side.
   */
  lemma BehaviourWraps<T(!new)>(c: nat, trace: seq<State<T>>, run: seq<Action<T>>)
    requires c > 1 && SIZE_T_RANGE % c == 0
    requires Behaviour(false, c, trace, run) && trace[0] == Start(c)
    requires forall i | 0 <= i < |trace| :: Fresh(trace[i])
    ensures
      var wrapped := seq(|trace|, i requires 0 <= i < |trace| => Wrapped(trace[i]));
      && Behaviour(true, c, wrapped, run)
      && wrapped[0] == Start(c)
      && forall i | 0 <= i < |wrapped| ::
           var seen := wrapped[i].history;
           && |seen.popped| <= |seen.claims|
           && forall k | 0 <= k < |seen.popped| :: seen.popped[k] == Some(seen.claims[k].value)
  {
    var wrapped := seq(|trace|, i requires 0 <= i < |trace| => Wrapped(trace[i]));
    forall i | 0 <= i < |trace| ensures Inv(c, trace[i]) {
      RingTheorems.BehaviourReaches(c, trace, run, i);
      RingTheorems.ReachableInv(c, trace[i]);
    }
    forall i | 0 <= i < |run|
      ensures Enabled(wrapped[i], run[i]) && wrapped[i + 1] == Step(true, c, wrapped[i], run[i])
    {
      StepWraps(c, trace[i], run[i]);
    }
    assert wrapped[0] == Start(c);
  }

  lemma EventQueueWraps()
    ensures SIZE_T_RANGE % MAX_EVENTS == 0 && MAX_EVENTS > 1
  {}
}
