/**
 SPSCQueue as an object updated in place. Each atomic operation and each construction, move or
 destruction of an element performs exactly one step of SpscModel; Push, TryPop and IsEmpty string
 them together, with the other side free to run in between.
 */
module SpscQueue {
  import opened Common
  import opened Bits
  import opened SpscModel
  import opened SpscTheorems

  datatype Side = Front | Back  // the consumer's side, the producer's side

  function Actor<T>(a: Action<T>): Side {
    match a
    case PushLoadWrite(_) => Back
    case PushLoadRead => Back
    case PushConstruct => Back
    case PushStoreWrite => Back
    case ProducerEmptyLoadRead => Back
    case ProducerEmptyLoadWrite => Back
    case _ => Front
  }

  // s' comes from s by any number of steps of the side other than me.
  ghost predicate OtherRan<T(!new)>(c: nat, s: State<T>, s': State<T>, me: Side) {
    exists trace, run {:trigger Behaviour(c, trace, run)} ::
      && Behaviour(c, trace, run) && trace[0] == s && trace[|run|] == s'
      && forall i | 0 <= i < |run| :: Actor(run[i]) != me
  }

  // What the other side cannot change behind the back of me.
  ghost predicate Unmoved<T>(s: State<T>, s': State<T>, me: Side) {
    match me
    case Back =>
      (s'.producer, s'.pushed, s'.writeIndex) == (s.producer, s.pushed, s.writeIndex) && s.popped <= s'.popped
    case Front =>
      (s'.consumer, s'.popped, s'.readIndex) == (s.consumer, s.popped, s.readIndex) && s.pushed <= s'.pushed
  }

  // Whatever the other side does, the ring stays reachable and me's own standing is untouched.
  lemma OtherLeaves<T(!new)>(c: nat, s: State<T>, s': State<T>, me: Side)
    requires Reachable(c, s) && OtherRan(c, s, s', me)
    ensures Reachable(c, s') && Unmoved(s, s', me)
  {
    var trace, run :| Behaviour(c, trace, run) && trace[0] == s && trace[|run|] == s'
      && forall i | 0 <= i < |run| :: Actor(run[i]) != me;
    var i := 0;
    while i < |run|
      invariant i <= |run| && Reachable(c, trace[i]) && Unmoved(s, trace[i], me)
    {
      ReachableStep(c, trace[i], run[i]);
      i := i + 1;
    }
  }

  // The constructor with its check: None stands for the exception, thrown for exactly the
  // capacities that are not a power of two.
  method Create<T(!new)>(capacity: nat) returns (q: Option<SpscQueue<T>>)
    ensures q.Some? <==> exists k: nat :: capacity == Pow2(k)
    ensures q.Some? ==> q.value.Valid() && fresh(q.value) && fresh(q.value.buffer)
    ensures q.Some? ==> q.value.capacity == capacity && q.value.View() == Start(capacity)
  {
    if capacity == 0 || BitAnd(capacity, capacity - 1) != 0 {
      if capacity != 0 { PowerTest(capacity); }
      return None;
    }
    PowerTest(capacity);
    var made := new SpscQueue<T>(capacity);
    q := Some(made);
  }

  class SpscQueue<T(!new)> {
    const capacity: nat
    const mask: nat
    const buffer: array<Slot<T>>
    var readIndex: nat
    var writeIndex: nat
    // Where the two sides stand, and what has happened: bookkeeping only.
    ghost var producer: Producer<T>
    ghost var consumer: Consumer<T>
    ghost var pushed: seq<T>
    ghost var popped: seq<Option<T>>

    ghost function View(): State<T>
      reads this, buffer
    {
      State(readIndex, writeIndex, buffer[..], producer, consumer, false, pushed, popped)
    }

    // The object is in a state some interleaving of the two sides leads to.
    ghost predicate Valid()
      reads this, buffer
    {
      capacity > 0 && mask == capacity - 1 && buffer.Length == capacity && Reachable(capacity, View())
    }

    constructor (capacity: nat)
      requires Power(capacity)
      ensures Valid() && fresh(buffer) && this.capacity == capacity && View() == Start(capacity)
    {
      this.capacity := capacity;
      mask := capacity - 1;
      buffer := new Slot<T>[capacity](_ => Raw);
      readIndex, writeIndex := 0, 0;
      producer, consumer, pushed, popped := Idle, Outside, [], [];
      new;
      assert buffer[..] == Start<T>(capacity).slots;
      ReachableStart<T>(capacity);
    }

    // Any number of steps of the other side.
    method Interfere(ghost me: Side)
      requires Valid()
      modifies this, buffer
      ensures Valid() && OtherRan(capacity, old(View()), View(), me) && Unmoved(old(View()), View(), me)
    {
      assert Behaviour<T>(capacity, [View()], []);
    }

    // The ghost half of a step: the bookkeeping becomes that of s.
    ghost method Account(s: State<T>)
      modifies this`producer, this`consumer, this`pushed, this`popped
      ensures producer == s.producer && consumer == s.consumer && pushed == s.pushed && popped == s.popped
    {
      producer, consumer, pushed, popped := s.producer, s.consumer, s.pushed, s.popped;
    }

    method LoadWriteIndex(ghost a: Action<T>) returns (i: nat)
      requires Valid() && Enabled(View(), a)
      requires a.PushLoadWrite? || a.PopLoadWrite? || a.EmptyLoadWrite? || a.ProducerEmptyLoadWrite?
      modifies this`producer, this`consumer, this`pushed, this`popped
      ensures Valid() && View() == Step(capacity, old(View()), a) && i == writeIndex
    {
      ReachableStep(capacity, View(), a);
      i := writeIndex;
      Account(Step(capacity, View(), a));
    }

    method LoadReadIndex(ghost a: Action<T>) returns (i: nat)
      requires Valid() && Enabled(View(), a)
      requires a.PushLoadRead? || a.PopLoadRead? || a.EmptyLoadRead? || a.ProducerEmptyLoadRead?
      modifies this`producer, this`consumer, this`pushed, this`popped
      ensures Valid() && View() == Step(capacity, old(View()), a) && i == readIndex
    {
      ReachableStep(capacity, View(), a);
      i := readIndex;
      Account(Step(capacity, View(), a));
    }

    // Placement new at tail; the slot is raw.
    method ConstructAt(tail: nat, value: T)
      requires Valid() && producer.Construct? && producer.tail == tail && producer.value == value
      modifies this, buffer
      ensures Valid() && tail < buffer.Length && old(buffer[tail]) == Raw
      ensures View() == Step(capacity, old(View()), PushConstruct)
    {
      ReachableInv(capacity, View());
      assert SlotOk(capacity, View(), |pushed|);
      assert tail < capacity;
      ReachableStep(capacity, View(), PushConstruct);
      ghost var s := Step(capacity, View(), PushConstruct);
      buffer[tail] := Live(Some(value));
      Account(s);
      assert buffer[..] == s.slots;
    }

    method StoreWriteIndex(next: nat)
      requires Valid() && producer.StoreWrite? && producer.next == next
      modifies this
      ensures Valid() && View() == Step(capacity, old(View()), PushStoreWrite)
    {
      ReachableStep(capacity, View(), PushStoreWrite);
      ghost var s := Step(capacity, View(), PushStoreWrite);
      writeIndex := next;
      Account(s);
    }

    // Move out of the element at head, which is live.
    method MoveAt(head: nat) returns (out: Option<T>)
      requires Valid() && consumer.Move? && consumer.head == head
      modifies this, buffer
      ensures Valid() && head < buffer.Length && old(buffer[head]) == Live(out) && out.Some?
      ensures View() == Step(capacity, old(View()), PopMove)
    {
      ReachableInv(capacity, View());
      assert SlotOk(capacity, View(), |popped|);
      assert head < capacity;
      ReachableStep(capacity, View(), PopMove);
      ghost var s := Step(capacity, View(), PopMove);
      out := buffer[head].value;
      buffer[head] := Live(None);
      Account(s);
      assert buffer[..] == s.slots;
    }

    // Destroy the element at head, which is still live.
    method DestroyAt(head: nat)
      requires Valid() && consumer.Destroy? && consumer.head == head
      modifies this, buffer
      ensures Valid() && head < buffer.Length && old(buffer[head]).Live?
      ensures View() == Step(capacity, old(View()), PopDestroy)
    {
      ReachableInv(capacity, View());
      assert SlotOk(capacity, View(), |popped|);
      assert head < capacity;
      ReachableStep(capacity, View(), PopDestroy);
      ghost var s := Step(capacity, View(), PopDestroy);
      buffer[head] := Raw;
      Account(s);
      assert buffer[..] == s.slots;
    }

    method StoreReadIndex(head: nat)
      requires Valid() && consumer.StoreRead? && consumer.head == head
      modifies this
      ensures Valid() && View() == Step(capacity, old(View()), PopStoreRead)
    {
      ReachableStep(capacity, View(), PopStoreRead);
      ghost var s := Step(capacity, View(), PopStoreRead);
      readIndex := BitAnd(head + 1, mask);
      Account(s);
    }

    // The first two operations of push: ok says there is room.
    method Reserve(value: T) returns (tail: nat, next: nat, ok: bool)
      requires Valid() && producer == Idle
      modifies this, buffer
      ensures Valid() && pushed == old(pushed) && old(popped) <= popped
      ensures producer == if ok then Construct(value, tail, next) else Idle
      ensures |popped| <= |pushed|
      ensures ok <==> |pushed| - |popped| < capacity - 1
    {
      Interfere(Back);
      tail := LoadWriteIndex(PushLoadWrite(value));
      next := BitAnd(tail + 1, mask);
      Interfere(Back);
      FullExact(capacity, View());
      var r := LoadReadIndex(PushLoadRead);
      ok := next != r;
    }

    method Publish(value: T, tail: nat, next: nat)
      requires Valid() && producer == Construct(value, tail, next)
      modifies this, buffer
      ensures Valid() && producer == Idle && pushed == old(pushed) + [value] && old(popped) <= popped
    {
      Interfere(Back);
      ConstructAt(tail, value);
      Interfere(Back);
      StoreWriteIndex(next);
    }

    /**
     push by the producer, the consumer being free to run between its operations. The value is
     appended, unless the queue holds capacity - 1 elements when read_index is loaded; it is never
     refused if it held fewer when push was called.
     */
    method Push(value: T) returns (ok: bool)
      requires Valid() && producer == Idle
      modifies this, buffer
      ensures Valid() && producer == Idle && old(popped) <= popped
      ensures pushed == old(pushed) + if ok then [value] else []
      ensures old(|pushed| - |popped| < capacity - 1) ==> ok
      ensures !ok ==> |pushed| - |popped| == capacity - 1
    {
      var tail, next;
      tail, next, ok := Reserve(value);
      if ok { Publish(value, tail, next); } else { ReachableInv(capacity, View()); }
    }

    // The first two operations of try_pop: ok says there is an element.
    method Check() returns (head: nat, ok: bool)
      requires Valid() && consumer == Outside
      modifies this, buffer
      ensures Valid() && popped == old(popped) && old(pushed) <= pushed
      ensures consumer == if ok then Move(head) else Outside
      ensures |popped| <= |pushed|
      ensures ok <==> |popped| < |pushed|
    {
      Interfere(Front);
      head := LoadReadIndex(PopLoadRead);
      Interfere(Front);
      AnswersExact(capacity, View());
      ReachableInv(capacity, View());
      var w := LoadWriteIndex(PopLoadWrite);
      ok := head != w;
    }

    // Its middle two: move the element out and destroy it.
    method TakeOut(head: nat) returns (out: Option<T>)
      requires Valid() && consumer == Move(head)
      modifies this, buffer
      ensures Valid() && consumer == StoreRead(head, out) && popped == old(popped) && old(pushed) <= pushed
      ensures |popped| < |pushed| && out == Some(pushed[|popped|])
    {
      Interfere(Front);
      out := MoveAt(head);
      Interfere(Front);
      DestroyAt(head);
      ReachableInv(capacity, View());
    }

    method Release(head: nat) returns (out: Option<T>)
      requires Valid() && consumer == Move(head)
      modifies this, buffer
      ensures Valid() && consumer == Outside && old(pushed) <= pushed
      ensures |old(popped)| < |pushed| && out == Some(pushed[|old(popped)|]) && popped == old(popped) + [out]
    {
      out := TakeOut(head);
      Interfere(Front);
      StoreReadIndex(head);
    }

    /**
     try_pop by the consumer, the producer being free to run between its operations. It takes the
     oldest element, unless there is none when write_index is loaded.
     */
    method TryPop() returns (out: Option<T>)
      requires Valid() && consumer == Outside
      modifies this, buffer
      ensures Valid() && consumer == Outside && old(pushed) <= pushed
      ensures out.Some? ==>
                |old(popped)| < |pushed| && out == Some(pushed[|old(popped)|]) && popped == old(popped) + [out]
      ensures out.None? ==> popped == old(popped) && |popped| == |pushed|
    {
      var head, ok := Check();
      if !ok { return None; }
      out := Release(head);
    }

    // empty() by the consumer: exact as write_index is loaded, which is when it returns.
    method IsEmpty() returns (b: bool)
      requires Valid() && consumer == Outside
      modifies this, buffer
      ensures Valid() && consumer == Outside && popped == old(popped) && old(pushed) <= pushed
      ensures b <==> |popped| == |pushed|
    {
      Interfere(Front);
      var r := LoadReadIndex(EmptyLoadRead);
      Interfere(Front);
      AnswersExact(capacity, View());
      ReachableInv(capacity, View());
      var w := LoadWriteIndex(EmptyLoadWrite);
      b := r == w;
    }

    // empty() by the producer: yes means empty on return, and no means there was an element at the call.
    method IsEmptyToProducer() returns (b: bool)
      requires Valid() && producer == Idle
      modifies this, buffer
      ensures Valid() && producer == Idle && pushed == old(pushed) && old(popped) <= popped
      ensures b ==> |popped| == |pushed|
      ensures !b ==> old(|popped|) < |pushed|
    {
      Interfere(Back);
      var r := LoadReadIndex(ProducerEmptyLoadRead);
      Interfere(Back);
      AnswersExact(capacity, View());
      ReachableInv(capacity, View());
      var w := LoadWriteIndex(ProducerEmptyLoadWrite);
      b := r == w;
    }
  }
}
