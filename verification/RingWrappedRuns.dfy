/**
 What holds of the ring the program runs, whose head and tail are 64-bit and wrap. Any run of it is
 the image of a run with unbounded counters as long as no thread sits on a loaded counter while
 2^64 tickets go by, so the unbounded ring's results hold of it too.
 */
module RingWrappedRuns {
  import opened Common
  import opened Claims
  import opened RingModel
  import opened RingSafety
  import opened RingTheorems
  import opened RingWrapping

  predicate Acts<T>(a: Action<T>, p: nat) {
    match a
    case PushBegin(q, _) => q == p
    case PushLoadHead(q) => q == p
    case PushLoadTail(q) => q == p
    case PushCas(q, _) => q == p
    case PushWrite(q) => q == p
    case PushPublish(q) => q == p
    case _ => false
  }

  // Step j is the last thread p makes inside try_push before state i.
  ghost predicate LastAct<T(!new)>(run: seq<Action<T>>, j: nat, i: nat, p: nat) {
    j < i <= |run| && Acts(run[j], p) && forall k | j < k < i :: !Acts(run[k], p)
  }

  predicate Looks<T>(a: Action<T>, o: nat) {
    match a
    case EmptyLoadHead(q) => q == o
    case EmptyLoadTail(q) => q == o
    case _ => false
  }

  // Step j is the last thread o makes inside empty() before state i.
  ghost predicate LastLook<T(!new)>(run: seq<Action<T>>, j: nat, i: nat, o: nat) {
    j < i <= |run| && Looks(run[j], o) && forall k | j < k < i :: !Looks(run[k], o)
  }

  // No thread takes its next step inside try_push or empty() only after 2^64 tickets or more have gone
  // by since the counter it loaded in its last one.
  ghost predicate Prompt<T(!new)>(w: seq<State<T>>, run: seq<Action<T>>)
    requires |w| == |run| + 1
  {
    && (forall i: nat, j: nat, p: nat | LastAct(run, j, i, p) ::
          && (Pc(w[i], p).LoadTail? ==> |w[i].history.claims| - |w[j].history.popped| < SIZE_T_RANGE)
          && (Pc(w[i], p).Cas? ==> |w[i].history.claims| - |w[j].history.claims| < SIZE_T_RANGE))
    && (forall i: nat, j: nat, o: nat | LastLook(run, j, i, o) ::
          o in w[i].observers ==> |w[i].history.claims| - |w[j].history.popped| < SIZE_T_RANGE)
  }

  // A run of the 64-bit ring from empty, of a capacity that divides 2^64, whose threads are prompt.
  ghost predicate Run64<T(!new)>(c: nat, w: seq<State<T>>, run: seq<Action<T>>) {
    && c > 1 && SIZE_T_RANGE % c == 0
    && Behaviour(true, c, w, run) && w[0] == Start(c) && Prompt(w, run)
  }

  // trace is the unbounded ring's run behind the first n steps.
  ghost predicate Behind<T(!new)>(c: nat, w: seq<State<T>>, run: seq<Action<T>>, trace: seq<State<T>>, n: nat)
    requires n <= |run| && |w| == |run| + 1
  {
    && Behaviour(false, c, trace, run[..n]) && trace[0] == Start(c)
    && forall i | 0 <= i <= n :: w[i] == Wrapped(trace[i]) && Fresh(trace[i])
  }

  lemma OthersKeepPc<T>(wrap: bool, c: nat, s: State<T>, a: Action<T>, p: nat)
    requires |s.cells| == c > 0 && Enabled(s, a) && !Acts(a, p)
    ensures Pc(Step(wrap, c, s, a), p) == Pc(s, p)
  {}

  // The counter a thread at pc loaded last is that of s.
  predicate Loaded<T>(s: State<T>, pc: Producer<T>) {
    (pc.LoadTail? ==> pc.h == s.head) && (pc.Cas? ==> pc.t == s.tail)
  }

  // What a pushing thread compares with is the counter as of its last step.
  lemma {:induction false} LoadedThen<T(!new)>(c: nat, trace: seq<State<T>>, run: seq<Action<T>>, i: nat, p: nat)
    requires Behaviour(false, c, trace, run) && trace[0] == Start(c) && i <= |run|
    requires Pc(trace[i], p).LoadTail? || Pc(trace[i], p).Cas?
    requires forall k | 0 <= k <= |run| :: |trace[k].cells| == c > 0
    ensures exists j: nat | LastAct(run, j, i, p) :: Loaded(trace[j], Pc(trace[i], p))
  {
    if Acts(run[i - 1], p) {
      assert LastAct(run, i - 1, i, p);
    } else {
      OthersKeepPc(false, c, trace[i - 1], run[i - 1], p);
      LoadedThen(c, trace, run, i - 1, p);
      var j: nat :| LastAct(run, j, i - 1, p) && Loaded(trace[j], Pc(trace[i - 1], p));
      assert LastAct(run, j, i, p);
    }
  }

  lemma {:induction false} LookedThen<T(!new)>(c: nat, trace: seq<State<T>>, run: seq<Action<T>>, i: nat, o: nat)
    requires Behaviour(false, c, trace, run) && trace[0] == Start(c) && i <= |run|
    requires o in trace[i].observers
    requires forall k | 0 <= k <= |run| :: |trace[k].cells| == c > 0
    ensures exists j: nat | LastLook(run, j, i, o) :: trace[i].observers[o] == trace[j].head
  {
    if Looks(run[i - 1], o) {
      assert LastLook(run, i - 1, i, o);
    } else {
      LookedThen(c, trace, run, i - 1, o);
      var j: nat :| LastLook(run, j, i - 1, o) && trace[i - 1].observers[o] == trace[j].head;
      assert LastLook(run, j, i, o);
    }
  }

  lemma BehindInv<T(!new)>(c: nat, w: seq<State<T>>, run: seq<Action<T>>, trace: seq<State<T>>, n: nat)
    requires Run64(c, w, run) && n <= |run| && Behind(c, w, run, trace, n)
    ensures forall i | 0 <= i <= n :: Inv(c, trace[i]) && Reachable(c, trace[i])
  {
    forall i | 0 <= i <= n ensures Inv(c, trace[i]) && Reachable(c, trace[i]) {
      BehaviourReaches(c, trace, run[..n], i);
      ReachableInv(c, trace[i]);
    }
  }

  lemma BehaviourGrows<T(!new)>(c: nat, trace: seq<State<T>>, run: seq<Action<T>>, a: Action<T>)
    requires Behaviour(false, c, trace, run) && |trace[|run|].cells| == c && Enabled(trace[|run|], a)
    ensures Behaviour(false, c, trace + [Step(false, c, trace[|run|], a)], run + [a])
  {}

  // One more step of the 64-bit ring is one more step of the unbounded one.
  lemma BehindStep<T(!new)>(c: nat, w: seq<State<T>>, run: seq<Action<T>>, trace: seq<State<T>>, n: nat)
    requires Run64(c, w, run) && 0 < n <= |run| && Behind(c, w, run, trace, n - 1)
    ensures exists longer :: Behind(c, w, run, longer, n)
  {
    BehindInv(c, w, run, trace, n - 1);
    var s, a := trace[n - 1], run[n - 1];
    StepWraps(c, s, a);
    InvStep(c, s, a);
    var longer := trace + [Step(false, c, s, a)];
    assert run[..n - 1] + [a] == run[..n];
    BehaviourGrows(c, trace, run[..n - 1], a);
    StaysFresh(c, w, run, longer, n);
    assert Behind(c, w, run, longer, n);
  }

  lemma StaysFresh<T(!new)>(c: nat, w: seq<State<T>>, run: seq<Action<T>>, trace: seq<State<T>>, n: nat)
    requires Run64(c, w, run) && n <= |run|
    requires Behaviour(false, c, trace, run[..n]) && trace[0] == Start(c)
    requires forall i | 0 <= i <= n :: w[i] == Wrapped(trace[i]) && Inv(c, trace[i])
    ensures Fresh(trace[n])
  {
    var s := trace[n];
    forall p ensures (Pc(s, p).LoadTail? ==> s.tail - Pc(s, p).h < SIZE_T_RANGE)
                  && (Pc(s, p).Cas? ==> s.tail - Pc(s, p).t < SIZE_T_RANGE)
    {
      if Pc(s, p).LoadTail? || Pc(s, p).Cas? { PushFresh(c, w, run, trace, n, p); }
    }
    forall o | o in s.observers ensures s.tail - s.observers[o] < SIZE_T_RANGE {
      LookedThen(c, trace, run[..n], n, o);
      var j: nat :| LastLook(run[..n], j, n, o) && s.observers[o] == trace[j].head;
      assert LastLook(run, j, n, o);
    }
  }

  lemma PushFresh<T(!new)>(c: nat, w: seq<State<T>>, run: seq<Action<T>>, trace: seq<State<T>>, n: nat, p: nat)
    requires Run64(c, w, run) && n <= |run|
    requires Behaviour(false, c, trace, run[..n]) && trace[0] == Start(c)
    requires forall i | 0 <= i <= n :: w[i] == Wrapped(trace[i]) && Inv(c, trace[i])
    requires Pc(trace[n], p).LoadTail? || Pc(trace[n], p).Cas?
    ensures var pc := Pc(trace[n], p); trace[n].tail - (if pc.Cas? then pc.t else pc.h) < SIZE_T_RANGE
  {
    PcOfWrapped(trace[n], p);
    LoadedThen(c, trace, run[..n], n, p);
    var j: nat :| LastAct(run[..n], j, n, p) && Loaded(trace[j], Pc(trace[n], p));
    assert LastAct(run, j, n, p);
  }

  /**
   Every run of the 64-bit ring with prompt threads is the image of a run of the unbounded ring.
   */
  lemma {:induction false} RunLifts<T(!new)>(c: nat, w: seq<State<T>>, run: seq<Action<T>>, n: nat)
    requires Run64(c, w, run) && n <= |run|
    ensures exists trace :: Behind(c, w, run, trace, n)
  {
    if n == 0 {
      assert Wrapped(Start<T>(c)) == Start(c);
      assert Behind(c, w, run, [Start(c)], n);
    } else {
      RunLifts(c, w, run, n - 1);
      var trace :| Behind(c, w, run, trace, n - 1);
      BehindStep(c, w, run, trace, n);
    }
  }

  /**
   FIFO of the 64-bit ring: in every state of every such run the popped values are those of tickets
   0, 1, 2, ... in order, each thread's in its own order; at most a capacity of tickets is open; and
   the counters are the true ones modulo 2^64.
   */
  lemma Fifo64<T(!new)>(c: nat, w: seq<State<T>>, run: seq<Action<T>>, i: nat)
    requires Run64(c, w, run) && i <= |run|
    ensures
      var s := w[i];
      var h := s.history;
      && |h.popped| <= |h.claims| <= |h.popped| + c
      && s.head == Low(|h.popped|) && s.tail == Low(|h.claims|)
      && (forall k | 0 <= k < |h.popped| :: h.popped[k] == Some(h.claims[k].value))
      && forall p :: ClaimedBy(h.claims[..|h.popped|], p) <= AcceptedBy(s, p)
  {
    RunLifts(c, w, run, i);
    var trace :| Behind(c, w, run, trace, i);
    BehindInv(c, w, run, trace, i);
    Fifo(c, trace[i]);
    assert forall p :: AcceptedBy(w[i], p) == AcceptedBy(trace[i], p);
  }

  // Every claimed value not yet handed out is being filled in, waits in its cell, or is with the consumer.
  lemma NothingLost64<T(!new)>(c: nat, w: seq<State<T>>, run: seq<Action<T>>, i: nat, t: nat)
    requires Run64(c, w, run) && i <= |run| && |w[i].history.popped| <= t < |w[i].history.claims|
    ensures |w[i].cells| == c
    ensures
      var v := w[i].history.claims[t].value;
      || Pc(w[i], w[i].history.claims[t].pusher) in {Write(v, Low(t)), Publish(v, Low(t))}
      || w[i].cells[Slot(c, Low(t))] == Cell(Ready, Some(v))
      || (t == |w[i].history.popped| && w[i].consumer in {Clear(Low(t), Some(v)), Advance(Low(t), Some(v))})
  {
    RunLifts(c, w, run, i);
    var trace :| Behind(c, w, run, trace, i);
    BehindInv(c, w, run, trace, i);
    NothingLost(c, trace[i], t);
    SlotOfLow(c, t);
    PcOfWrapped(trace[i], w[i].history.claims[t].pusher);
  }

  // A ticket being filled has an Empty cell for itself.
  lemma SlotsExclusive64<T(!new)>(c: nat, w: seq<State<T>>, run: seq<Action<T>>, i: nat, p: nat)
    requires Run64(c, w, run) && i <= |run| && (Pc(w[i], p).Write? || Pc(w[i], p).Publish?)
    ensures |w[i].cells| == c && w[i].cells[Slot(c, Pc(w[i], p).ticket)].state == Empty
    ensures forall q | q != p && (Pc(w[i], q).Write? || Pc(w[i], q).Publish?) ::
              Slot(c, Pc(w[i], q).ticket) != Slot(c, Pc(w[i], p).ticket)
    ensures !w[i].consumer.Outside? && !w[i].consumer.LoadState? ==>
              Slot(c, w[i].consumer.h) != Slot(c, Pc(w[i], p).ticket)
  {
    RunLifts(c, w, run, i);
    var trace :| Behind(c, w, run, trace, i);
    BehindInv(c, w, run, trace, i);
    var s := trace[i];
    PcOfWrapped(s, p);
    SlotsExclusive(c, s, p);
    SlotOfLow(c, Pc(s, p).ticket);
    forall q | q != p && (Pc(w[i], q).Write? || Pc(w[i], q).Publish?)
      ensures Slot(c, Pc(w[i], q).ticket) != Slot(c, Pc(w[i], p).ticket)
    {
      PcOfWrapped(s, q);
      SlotOfLow(c, Pc(s, q).ticket);
    }
    if !s.consumer.Outside? && !s.consumer.LoadState? { SlotOfLow(c, s.consumer.h); }
  }

  /**
   "Full" in the 64-bit ring, for a thread that loaded head in step j: exact if no pop finished since;
   a full ring always rejects; and a rejection by a ring that is not full means a pop finished since.
   */
  lemma FullAnswer64<T(!new)>(c: nat, w: seq<State<T>>, run: seq<Action<T>>, j: nat, i: nat, p: nat)
    requires Run64(c, w, run) && LastAct(run, j, i, p) && Pc(w[i], p).LoadTail?
    ensures
      var h := w[i].history;
      && (|w[j].history.popped| == |h.popped| ==> (Rejects(true, c, w[i], p) <==> |h.claims| == |h.popped| + c))
      && (|h.claims| == |h.popped| + c ==> Rejects(true, c, w[i], p))
      && (Rejects(true, c, w[i], p) && |h.claims| < |h.popped| + c ==> |w[j].history.popped| < |h.popped|)
  {
    RunLifts(c, w, run, i);
    var trace :| Behind(c, w, run, trace, i);
    BehindInv(c, w, run, trace, i);
    var s := trace[i];
    PcOfWrapped(s, p);
    LoadedThen(c, trace, run[..i], i, p);
    var k: nat :| LastAct(run[..i], k, i, p) && Loaded(trace[k], Pc(s, p));
    assert LastAct(run, k, i, p) && k == j;
    FullAnswer(c, s, p);
    StepWraps(c, s, PushLoadTail(p));
  }

  // A thread holds the next ticket in the 64-bit ring exactly if it does in the unbounded one.
  lemma HeldAlike<T>(c: nat, s: State<T>, p: nat)
    requires Inv(c, s) && SIZE_T_RANGE % c == 0
    ensures Holds(Wrapped(s), p, Low(s.head)) <==> Holds(s, p, s.head)
  {
    PcOfWrapped(s, p);
    assert ProducerOk(c, s, p);
    if Pc(s, p).Write? || Pc(s, p).Publish? { LowGap(Pc(s, p).ticket, s.head); }
  }

  lemma PopAnswerLow<T(!new)>(c: nat, s: State<T>)
    requires Inv(c, s) && Reachable(c, s) && s.consumer.LoadState? && SIZE_T_RANGE % c == 0
    ensures
      var claims, t := s.history.claims, s.head;
      var taken := Step(true, c, Wrapped(s), PopLoadState);
      && (taken.consumer == Outside <==> t == |claims| || Holds(Wrapped(s), claims[t].pusher, Low(t)))
      && (taken.consumer != Outside ==>
            Step(true, c, taken, PopRead).consumer == Clear(Low(t), Some(claims[t].value)))
  {
    PopAnswer(c, s);
    PopWraps(c, s, PopLoadState);
    var taken := Step(false, c, s, PopLoadState);
    if s.head < s.tail { HeldAlike(c, s, s.history.claims[s.head].pusher); }
    if taken.consumer != Outside {
      InvStep(c, s, PopLoadState);
      PopWraps(c, taken, PopRead);
    }
  }

  /**
   try_pop's answer in the 64-bit ring: it fails exactly when the next ticket is unclaimed, or claimed
   by a push still writing or publishing it, and otherwise reads that ticket's value.
   */
  lemma PopAnswer64<T(!new)>(c: nat, w: seq<State<T>>, run: seq<Action<T>>, i: nat)
    requires Run64(c, w, run) && i <= |run| && w[i].consumer.LoadState?
    ensures |w[i].cells| == c && |w[i].history.popped| <= |w[i].history.claims|
    ensures
      var claims, t := w[i].history.claims, |w[i].history.popped|;
      var taken := Step(true, c, w[i], PopLoadState);
      && (taken.consumer == Outside <==> t == |claims| || Holds(w[i], claims[t].pusher, Low(t)))
      && (taken.consumer != Outside ==>
            Step(true, c, taken, PopRead).consumer == Clear(Low(t), Some(claims[t].value)))
  {
    RunLifts(c, w, run, i);
    var trace :| Behind(c, w, run, trace, i);
    BehindInv(c, w, run, trace, i);
    PopAnswerLow(c, trace[i]);
  }

  // empty() answering true in the 64-bit ring: it is empty as tail is loaded.
  lemma EmptyAnswer64<T(!new)>(c: nat, w: seq<State<T>>, run: seq<Action<T>>, i: nat, o: nat)
    requires Run64(c, w, run) && i <= |run| && o in w[i].observers
    ensures w[i].observers[o] == w[i].tail ==> |w[i].history.popped| == |w[i].history.claims|
  {
    RunLifts(c, w, run, i);
    var trace :| Behind(c, w, run, trace, i);
    BehindInv(c, w, run, trace, i);
    EmptyAnswer(c, trace[i], o);
    StepWraps(c, trace[i], EmptyLoadTail(o));
  }
}
