/**
 The bounded multi-producer, single-consumer ring of twe/core/queue/mpsc_ring_buffer.h as a step
 system. One action is one atomic load, store or compare-exchange, or one plain access to a cell's
 value, under sequential consistency. Any thread id may push, one consumer pops, any thread may
 call empty().
 */
module RingModel {
  import opened Common
  import opened Claims

  // The number of values of the 64-bit size_t that head and tail are made of.
  const SIZE_T_RANGE: nat := 0x1_0000_0000_0000_0000

  datatype CellState = Empty | Ready

  // value is None while the cell holds no value: never written, or moved out.
  datatype Cell<T> = Cell(state: CellState, value: Option<T>)

  // Where a thread stands inside try_push; the name says what it does next.
  datatype Producer<T> =
    | Idle
    | LoadHead(value: T)
    | LoadTail(value: T, h: nat)
    | Cas(value: T, h: nat, t: nat)
    | Write(value: T, ticket: nat)
    | Publish(value: T, ticket: nat)

  // Where the consumer stands inside try_pop.
  datatype Consumer<T> =
    | Outside
    | LoadState(h: nat)
    | Read(h: nat)
    | Clear(h: nat, out: Option<T>)
    | Advance(h: nat, out: Option<T>)

  /**
   What happened so far; no step reads it. claims lists the successful exchanges of tail in order,
   accepted the values for which a thread's try_push returned true, popped what try_pop delivered.
   */
  datatype History<T> = History(claims: seq<Claim<T>>, accepted: map<nat, seq<T>>, popped: seq<Option<T>>)

  datatype State<T> = State(
    head: nat,
    tail: nat,
    cells: seq<Cell<T>>,
    producers: map<nat, Producer<T>>,
    consumer: Consumer<T>,
    observers: map<nat, nat>,  // threads inside empty(), with the head they loaded
    history: History<T>)

  datatype Action<T> =
    | PushBegin(p: nat, value: T)
    | PushLoadHead(p: nat)
    | PushLoadTail(p: nat)
    | PushCas(p: nat, spurious: bool)
    | PushWrite(p: nat)
    | PushPublish(p: nat)
    | PopLoadHead
    | PopLoadState
    | PopRead
    | PopClear
    | PopAdvance
    | EmptyLoadHead(o: nat)
    | EmptyLoadTail(o: nat)

  function Pc<T>(s: State<T>, p: nat): Producer<T> {
    if p in s.producers then s.producers[p] else Idle
  }

  function AcceptedBy<T>(s: State<T>, p: nat): seq<T> {
    if p in s.history.accepted then s.history.accepted[p] else []
  }

  function Slot(c: nat, t: nat): nat
    requires c > 0
  {
    t % c
  }

  // Counter arithmetic: unbounded, or modulo 2^64 when wrap.
  function Succ(wrap: bool, x: nat): nat {
    if wrap then (x + 1) % SIZE_T_RANGE else x + 1
  }

  function Gap(wrap: bool, t: nat, h: nat): int {
    if wrap then (t - h) % SIZE_T_RANGE else t - h
  }

  function Start<T>(c: nat): State<T> {
    State(0, 0, seq(c, _ => Cell(Empty, None)), map[], Outside, map[], History([], map[], []))
  }

  predicate Enabled<T>(s: State<T>, a: Action<T>) {
    match a
    case PushBegin(p, _) => Pc(s, p).Idle?
    case PushLoadHead(p) => Pc(s, p).LoadHead?
    case PushLoadTail(p) => Pc(s, p).LoadTail?
    case PushCas(p, _) => Pc(s, p).Cas?
    case PushWrite(p) => Pc(s, p).Write?
    case PushPublish(p) => Pc(s, p).Publish?
    case PopLoadHead => s.consumer.Outside?
    case PopLoadState => s.consumer.LoadState?
    case PopRead => s.consumer.Read?
    case PopClear => s.consumer.Clear?
    case PopAdvance => s.consumer.Advance?
    case EmptyLoadHead(o) => o !in s.observers
    case EmptyLoadTail(o) => o in s.observers
  }

  // try_push rejects after loading tail when the distance to the loaded head is not below capacity.
  predicate Rejects<T>(wrap: bool, c: nat, s: State<T>, p: nat)
    requires Pc(s, p).LoadTail?
  {
    Gap(wrap, s.tail, Pc(s, p).h) >= c
  }

  function Step<T>(wrap: bool, c: nat, s: State<T>, a: Action<T>): State<T>
    requires |s.cells| == c > 0 && Enabled(s, a)
  {
    match a
    case PushBegin(p, value) => s.(producers := s.producers[p := LoadHead(value)])
    case PushLoadHead(p) => s.(producers := s.producers[p := LoadTail(Pc(s, p).value, s.head)])
    case PushLoadTail(p) =>
      var pc := Pc(s, p);
      s.(producers := s.producers[p := if Rejects(wrap, c, s, p) then Idle else Cas(pc.value, pc.h, s.tail)])
    case PushCas(p, spurious) =>
      var pc := Pc(s, p);
      if spurious || s.tail != pc.t then
        s.(producers := s.producers[p := LoadHead(pc.value)])
      else
        s.(tail := Succ(wrap, pc.t),
           producers := s.producers[p := Write(pc.value, pc.t)],
           history := s.history.(claims := s.history.claims + [Claim(p, pc.value)]))
    case PushWrite(p) =>
      var pc := Pc(s, p);
      var i := Slot(c, pc.ticket);
      s.(cells := s.cells[i := s.cells[i].(value := Some(pc.value))],
         producers := s.producers[p := Publish(pc.value, pc.ticket)])
    case PushPublish(p) =>
      var pc := Pc(s, p);
      var i := Slot(c, pc.ticket);
      s.(cells := s.cells[i := s.cells[i].(state := Ready)],
         producers := s.producers[p := Idle],
         history := s.history.(accepted := s.history.accepted[p := AcceptedBy(s, p) + [pc.value]]))
    case PopLoadHead => s.(consumer := LoadState(s.head))
    case PopLoadState =>
      var h := s.consumer.h;
      s.(consumer := if s.cells[Slot(c, h)].state == Ready then Read(h) else Outside)
    case PopRead =>
      var h := s.consumer.h;
      var i := Slot(c, h);
      s.(cells := s.cells[i := s.cells[i].(value := None)], consumer := Clear(h, s.cells[i].value))
    case PopClear =>
      var h := s.consumer.h;
      var i := Slot(c, h);
      s.(cells := s.cells[i := s.cells[i].(state := Empty)], consumer := Advance(h, s.consumer.out))
    case PopAdvance =>
      s.(head := Succ(wrap, s.consumer.h), consumer := Outside,
         history := s.history.(popped := s.history.popped + [s.consumer.out]))
    case EmptyLoadHead(o) => s.(observers := s.observers[o := s.head])
    case EmptyLoadTail(o) => s.(observers := s.observers - {o})
  }

  // trace lists the states a run goes through, one step from each to the next.
  ghost predicate Behaviour<T>(wrap: bool, c: nat, trace: seq<State<T>>, run: seq<Action<T>>) {
    && c > 0 && |trace| == |run| + 1
    && forall i | 0 <= i < |run| ::
         && |trace[i].cells| == c
         && Enabled(trace[i], run[i])
         && trace[i + 1] == Step(wrap, c, trace[i], run[i])
  }
}
