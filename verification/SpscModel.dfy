/**
 The single-producer, single-consumer ring of twe/core/queue/spsc_queue.h as a step system: one
 action per atomic load or store, per construction, move and destruction of an element. Indices
 are masked with capacity - 1; slots are raw memory until an element is constructed in them.
 */
module SpscModel {
  import opened Common
  import opened Bits

  // Live(None) is an element whose value has been moved out and that is still to be destroyed.
  datatype Slot<T> = Raw | Live(value: Option<T>)

  datatype Producer<T> =
    | Idle
    | LoadRead(value: T, tail: nat)
    | Construct(value: T, tail: nat, next: nat)
    | StoreWrite(value: T, tail: nat, next: nat)
    | Compare(head: nat, taken: nat)  // inside empty(); taken records how many had been popped as read_index was loaded

  datatype Consumer<T> =
    | Outside
    | LoadWrite(head: nat)
    | Move(head: nat)
    | Destroy(head: nat, out: Option<T>)
    | StoreRead(head: nat, out: Option<T>)
    | CompareWrite(head: nat)  // inside empty(), called on this side

  datatype State<T> = State(
    readIndex: nat,
    writeIndex: nat,
    slots: seq<Slot<T>>,
    producer: Producer<T>,
    consumer: Consumer<T>,
    fault: bool,  // an element was constructed over a live one, or one that was not live was moved or destroyed
    pushed: seq<T>,  // what push has published; no step reads it
    popped: seq<Option<T>>)  // what try_pop has released; no step reads it

  datatype Action<T> =
    | PushLoadWrite(value: T)
    | PushLoadRead
    | PushConstruct
    | PushStoreWrite
    | PopLoadRead
    | PopLoadWrite
    | PopMove
    | PopDestroy
    | PopStoreRead
    | EmptyLoadRead
    | EmptyLoadWrite
    | ProducerEmptyLoadRead
    | ProducerEmptyLoadWrite

  function Start<T>(c: nat): State<T> {
    State(0, 0, seq(c, _ => Raw), Idle, Outside, false, [], [])
  }

  function Advance(c: nat, i: nat): nat
    requires c > 0
  {
    BitAnd(i + 1, c - 1)
  }

  predicate Enabled<T>(s: State<T>, a: Action<T>) {
    match a
    case PushLoadWrite(_) => s.producer.Idle?
    case PushLoadRead => s.producer.LoadRead?
    case PushConstruct => s.producer.Construct? && s.producer.tail < |s.slots|
    case PushStoreWrite => s.producer.StoreWrite?
    case PopLoadRead => s.consumer.Outside?
    case PopLoadWrite => s.consumer.LoadWrite?
    case PopMove => s.consumer.Move? && s.consumer.head < |s.slots|
    case PopDestroy => s.consumer.Destroy? && s.consumer.head < |s.slots|
    case PopStoreRead => s.consumer.StoreRead?
    case EmptyLoadRead => s.consumer.Outside?
    case EmptyLoadWrite => s.consumer.CompareWrite?
    case ProducerEmptyLoadRead => s.producer.Idle?
    case ProducerEmptyLoadWrite => s.producer.Compare?
  }

  function Step<T>(c: nat, s: State<T>, a: Action<T>): State<T>
    requires c > 0 && Enabled(s, a)
  {
    match a
    case PushLoadWrite(value) => s.(producer := LoadRead(value, s.writeIndex))
    case PushLoadRead =>
      var next := Advance(c, s.producer.tail);
      s.(producer := if next == s.readIndex then Idle else Construct(s.producer.value, s.producer.tail, next))
    case PushConstruct =>
      var pc := s.producer;
      s.(fault := s.fault || s.slots[pc.tail] != Raw,
         slots := s.slots[pc.tail := Live(Some(pc.value))],
         producer := StoreWrite(pc.value, pc.tail, pc.next))
    case PushStoreWrite =>
      s.(writeIndex := s.producer.next, producer := Idle, pushed := s.pushed + [s.producer.value])
    case PopLoadRead => s.(consumer := LoadWrite(s.readIndex))
    case PopLoadWrite => s.(consumer := if s.consumer.head == s.writeIndex then Outside else Move(s.consumer.head))
    case PopMove =>
      var h := s.consumer.head;
      s.(fault := s.fault || s.slots[h] == Raw,
         slots := s.slots[h := Live(None)],
         consumer := Destroy(h, if s.slots[h].Live? then s.slots[h].value else None))
    case PopDestroy =>
      var h := s.consumer.head;
      s.(fault := s.fault || s.slots[h] == Raw, slots := s.slots[h := Raw], consumer := StoreRead(h, s.consumer.out))
    case PopStoreRead =>
      s.(readIndex := Advance(c, s.consumer.head), consumer := Outside, popped := s.popped + [s.consumer.out])
    case EmptyLoadRead => s.(consumer := CompareWrite(s.readIndex))
    case EmptyLoadWrite => s.(consumer := Outside)
    case ProducerEmptyLoadRead => s.(producer := Compare(s.readIndex, |s.popped|))
    case ProducerEmptyLoadWrite => s.(producer := Idle)
  }

  // trace lists the states a run goes through, one step from each to the next.
  ghost predicate Behaviour<T>(c: nat, trace: seq<State<T>>, run: seq<Action<T>>) {
    && c > 0 && |trace| == |run| + 1
    && forall i | 0 <= i < |run| :: Enabled(trace[i], run[i]) && trace[i + 1] == Step(c, trace[i], run[i])
  }
}
