/**
 MPSCQueue as an object updated in place: head, tail and the heap of nodes. Every atomic operation,
 allocation and delete of the header is one method that performs exactly one step of LinkedModel;
 TryPush, TryPop and Destroy string them together in the header's order, and other threads may run
 between any two operations unless the caller is alone.
 */
module LinkedQueue {
  import opened Common
  import opened Claims
  import opened LinkedModel
  import opened LinkedSafety
  import opened LinkedTheorems

  datatype Thread = Pusher(p: nat) | Popper

  function Actor<T>(a: Action<T>): Thread {
    match a
    case PushNew(p, _, _) => Pusher(p)
    case PushExchange(p) => Pusher(p)
    case PushLink(p) => Pusher(p)
    case _ => Popper
  }

  // s' comes from s by steps of threads other than me, any number of them in any order.
  ghost predicate OthersRan<T(!new)>(s: State<T>, s': State<T>, me: Thread) {
    exists trace, run {:trigger Behaviour(trace, run)} ::
      && Behaviour(trace, run) && trace[0] == s && trace[|run|] == s'
      && forall i | 0 <= i < |run| :: Actor(run[i]) != me
  }

  ghost predicate NextLinked<T>(s: State<T>) {
    Linked(s, |s.history.popped|)
  }

  // What no other thread can change behind the back of me.
  ghost predicate Unmoved<T>(s: State<T>, s': State<T>, me: Thread) {
    && s.history.exchanged <= s'.history.exchanged
    && (me.Pusher? ==>
          && Pc(s', me.p) == Pc(s, me.p)
          && AcceptedBy(s', me.p) == AcceptedBy(s, me.p)
          && ClaimedBy(s'.history.exchanged, me.p) == ClaimedBy(s.history.exchanged, me.p))
    && (me.Popper? ==>
          && s'.consumer == s.consumer && s'.head == s.head && s'.history.popped == s.history.popped
          && Lasting(s, s'))
  }

  lemma OtherStep<T(!new)>(s: State<T>, a: Action<T>, me: Thread)
    requires Inv(s) && Enabled(s, a) && Actor(a) != me
    ensures Unmoved(s, Step(s, a), me)
  {
    var s' := Step(s, a);
    NoFault(s, a);
    if a.PushExchange? {
      assert s'.history.exchanged[..|s.history.exchanged|] == s.history.exchanged;
    }
    if me.Popper? { LinkedLasts(s, a); }
    if me.Pusher? { OthersStay(s, a, me.p); }
  }

  // Whatever the others do, the queue stays reachable and me's own standing is untouched.
  lemma OthersLeave<T(!new)>(s: State<T>, s': State<T>, me: Thread)
    requires Reachable(s) && OthersRan(s, s', me)
    ensures Reachable(s') && Unmoved(s, s', me)
  {
    var trace, run :| Behaviour(trace, run) && trace[0] == s && trace[|run|] == s'
      && forall i | 0 <= i < |run| :: Actor(run[i]) != me;
    var i := 0;
    while i < |run|
      invariant i <= |run| && Reachable(trace[i]) && Unmoved(s, trace[i], me)
    {
      ReachableInv(trace[i]);
      ReachableStep(trace[i], run[i]);
      OtherStep(trace[i], run[i], me);
      i := i + 1;
    }
  }

  // The allocator can always find an address that is not in use.
  lemma {:induction false} AddressLeft(used: set<nat>) returns (free: nat)
    ensures forall x | x in used :: x < free
  {
    if used == {} {
      free := 0;
    } else {
      var x :| x in used;
      var rest := AddressLeft(used - {x});
      free := if x < rest then rest else x + 1;
      forall y | y in used ensures y < free {
        assert y == x || y in used - {x};
      }
    }
  }

  class MpscQueue<T(!new)> {
    var head: nat
    var tail: nat
    var nodes: map<nat, Node<T>>
    // Where each thread stands, and what has happened: bookkeeping only.
    ghost var producers: map<nat, Producer<T>>
    ghost var consumer: Consumer<T>
    ghost var history: History<T>

    ghost function View(): State<T>
      reads this
    {
      State(head, tail, nodes, producers, consumer, false, history)
    }

    // The object is in a state some interleaving of the protocol leads to.
    ghost predicate Valid()
      reads this
    {
      Reachable(View())
    }

    constructor ()
      ensures Valid() && View() == Start(head)
    {
      head, tail := 0, 0;
      nodes := map[0 := Node(None, None)];
      producers, consumer, history := map[], Outside, History([], map[], [], [0]);
      new;
      ReachableStart<T>(0);
    }

    // Any number of steps of any other threads; none if the caller is alone.
    method Interfere(ghost me: Thread, ghost alone: bool)
      requires Valid()
      modifies this
      ensures Valid() && OthersRan(old(View()), View(), me) && Unmoved(old(View()), View(), me)
      ensures alone ==> View() == old(View())
    {
      assert Behaviour<T>([View()], []);
    }

    // The ghost half of a step: the thread bookkeeping becomes that of s.
    ghost method Account(s: State<T>)
      modifies this`producers, this`consumer, this`history
      ensures producers == s.producers && consumer == s.consumer && history == s.history
    {
      producers, consumer, history := s.producers, s.consumer, s.history;
    }

    method NewNode(ghost p: nat, value: T) returns (node: nat)
      requires Valid() && Pc(View(), p).Idle?
      modifies this
      ensures Valid() && old(Enabled(View(), PushNew(p, value, node)))
      ensures View() == Step(old(View()), PushNew(p, value, node))
    {
      ghost var free := AddressLeft(nodes.Keys);
      assert free !in nodes.Keys;
      node :| node !in nodes;
      ReachableStep(View(), PushNew(p, value, node));
      ghost var s := Step(View(), PushNew(p, value, node));
      nodes := nodes[node := Node(None, Some(value))];
      Account(s);
    }

    method ExchangeTail(ghost p: nat, node: nat) returns (prev: nat)
      requires Valid() && Pc(View(), p).Exchange? && Pc(View(), p).node == node
      modifies this
      ensures Valid() && View() == Step(old(View()), PushExchange(p)) && prev == old(tail)
    {
      ReachableStep(View(), PushExchange(p));
      ghost var s := Step(View(), PushExchange(p));
      prev := tail;
      tail := node;
      Account(s);
    }

    // prev is live, although the consumer deletes nodes meanwhile.
    method StoreLink(ghost p: nat, prev: nat, node: nat)
      requires Valid() && Pc(View(), p).Link? && Pc(View(), p).prev == prev && Pc(View(), p).node == node
      modifies this
      ensures Valid() && old(Enabled(View(), PushLink(p))) && View() == Step(old(View()), PushLink(p))
    {
      ReachableInv(View());
      assert ProducerOk(View(), p);
      ReachableStep(View(), PushLink(p));
      ghost var s := Step(View(), PushLink(p));
      nodes := nodes[prev := nodes[prev].(next := Some(node))];
      Account(s);
    }

    method LoadHead(ghost a: Action<T>) returns (node: nat)
      requires Valid() && consumer.Outside? && (a.PopLoadHead? || a.EmptyLoadHead?)
      modifies this`producers, this`consumer, this`history
      ensures Valid() && View() == Step(old(View()), a) && node == head
    {
      ReachableStep(View(), a);
      node := head;
      Account(Step(View(), a));
    }

    method LoadNext(node: nat, ghost a: Action<T>) returns (next: Option<nat>)
      requires Valid() && Enabled(View(), a) && (a.PopLoadNext? || a.EmptyLoadNext?) && consumer.node == node
      modifies this`producers, this`consumer, this`history
      ensures Valid() && View() == Step(old(View()), a)
      ensures node in nodes && next == nodes[node].next
    {
      ReachableInv(View());
      ReachableStep(View(), a);
      next := nodes[node].next;
      Account(Step(View(), a));
    }

    method MoveOut(next: nat) returns (out: Option<T>)
      requires Valid() && consumer.Read? && consumer.next == next
      modifies this
      ensures Valid() && View() == Step(old(View()), PopRead)
      ensures next in old(nodes) && out == old(nodes)[next].data
    {
      ReachableInv(View());
      assert LinkOk(View(), 0);
      ReachableStep(View(), PopRead);
      ghost var s := Step(View(), PopRead);
      out := nodes[next].data;
      nodes := nodes[next := nodes[next].(data := None)];
      Account(s);
    }

    method StoreHead(next: nat)
      requires Valid() && consumer.StoreHead? && consumer.next == next
      modifies this
      ensures Valid() && old(Enabled(View(), PopStoreHead)) && View() == Step(old(View()), PopStoreHead)
    {
      ReachableInv(View());
      ReachableStep(View(), PopStoreHead);
      ghost var s := Step(View(), PopStoreHead);
      head := next;
      Account(s);
    }

    method DeleteNode(node: nat)
      requires Valid() && consumer.Delete? && consumer.node == node
      modifies this
      ensures Valid() && View() == Step(old(View()), PopDelete) && node in old(nodes)
    {
      ReachableInv(View());
      ReachableStep(View(), PopDelete);
      ghost var s := Step(View(), PopDelete);
      nodes := nodes - {node};
      Account(s);
    }

    // Each of the following lets the other threads run and then performs one operation of a push by p.
    method Allocate(ghost p: nat, value: T) returns (node: nat)
      requires Valid() && Pc(View(), p).Idle?
      modifies this
      ensures Valid() && Pc(View(), p) == Exchange(node, value)
      ensures old(history.exchanged) <= history.exchanged && AcceptedBy(View(), p) == old(AcceptedBy(View(), p))
    {
      Interfere(Pusher(p), false);
      node := NewNode(p, value);
    }

    method SwingTail(ghost p: nat, ghost value: T, node: nat) returns (prev: nat)
      requires Valid() && Pc(View(), p) == Exchange(node, value)
      modifies this
      ensures Valid() && old(history.exchanged) <= history.exchanged
      ensures AcceptedBy(View(), p) == old(AcceptedBy(View(), p))
      ensures Pc(View(), p).Link? && Pc(View(), p).node == node && Pc(View(), p).prev == prev
      ensures Pc(View(), p).ticket < |history.exchanged| && history.exchanged[Pc(View(), p).ticket] == Claim(p, value)
    {
      Interfere(Pusher(p), false);
      prev := ExchangeTail(p, node);
    }

    method Attach(ghost p: nat, ghost value: T, prev: nat, node: nat)
      requires Valid() && Pc(View(), p).Link? && Pc(View(), p).node == node && Pc(View(), p).prev == prev
      requires Pc(View(), p).ticket < |history.exchanged| && history.exchanged[Pc(View(), p).ticket] == Claim(p, value)
      modifies this
      ensures Valid() && old(history.exchanged) <= history.exchanged && Pc(View(), p) == Idle
      ensures AcceptedBy(View(), p) == old(AcceptedBy(View(), p)) + [value]
    {
      Interfere(Pusher(p), false);
      ReachableInv(View());
      assert ProducerOk(View(), p);
      StoreLink(p, prev, node);
    }

    /**
     try_push by thread p, with every other thread free to run between its operations. The value
     takes one new place in the exchange order, after p's earlier ones; it is never refused.
     */
    method TryPush(ghost p: nat, value: T) returns (ok: bool)
      requires Valid() && Pc(View(), p).Idle?
      modifies this
      ensures Valid() && ok && Pc(View(), p) == Idle
      ensures old(history.exchanged) <= history.exchanged
      ensures AcceptedBy(View(), p) == old(AcceptedBy(View(), p)) + [value]
      ensures ClaimedBy(history.exchanged, p) == old(ClaimedBy(history.exchanged, p)) + [value]
    {
      PushesRecorded(p);
      var node := Allocate(p, value);
      var prev := SwingTail(p, value, node);
      Attach(p, value, prev, node);
      PushesRecorded(p);
      ok := true;
    }

    lemma PushesRecorded(p: nat)
      requires Valid() && Pc(View(), p).Idle?
      ensures ClaimedBy(history.exchanged, p) == AcceptedBy(View(), p)
    {
      ReachableInv(View());
      assert ClaimedBy(history.exchanged, p) == AcceptedBy(View(), p) + Pending(View(), p);
    }

    // The producers' side did not move.
    twostate predicate Still()
      reads this
    {
      producers == old(producers) && history.exchanged == old(history.exchanged)
    }

    // The same for the consumer: others run unless it is alone, then one operation of a pop.
    method SeeHead(ghost alone: bool) returns (node: nat)
      requires Valid() && consumer == Outside
      modifies this
      ensures Valid() && old(history.exchanged) <= history.exchanged && history.popped == old(history.popped)
      ensures consumer == LinkedModel.LoadNext(node) && (alone ==> Still())
      ensures old(NextLinked(View())) ==> NextLinked(View())
    {
      Interfere(Popper, alone);
      node := LoadHead(PopLoadHead);
    }

    method SeeNext(node: nat, ghost alone: bool) returns (next: Option<nat>)
      requires Valid() && consumer == LinkedModel.LoadNext(node)
      modifies this
      ensures Valid() && old(history.exchanged) <= history.exchanged && history.popped == old(history.popped)
      ensures alone ==> Still()
      ensures consumer == match next case None => Outside case Some(n) => Read(node, n)
      ensures old(NextLinked(View())) ==> next.Some?
      ensures |history.popped| <= |history.exchanged|
      ensures next.Some? ==> |history.popped| < |history.exchanged|
    {
      Interfere(Popper, alone);
      PopAnswer(View());
      next := LoadNext(node, PopLoadNext);
    }

    method Take(node: nat, next: nat, ghost alone: bool) returns (out: Option<T>)
      requires Valid() && consumer == Read(node, next)
      modifies this
      ensures Valid() && old(history.exchanged) <= history.exchanged && history.popped == old(history.popped)
      ensures alone ==> Still()
      ensures consumer == LinkedModel.StoreHead(node, next, out)
      ensures |history.popped| < |history.exchanged| && out == Some(history.exchanged[|history.popped|].value)
    {
      Interfere(Popper, alone);
      out := MoveOut(next);
      ReachableInv(View());
    }

    method Advance(node: nat, next: nat, ghost out: Option<T>, ghost alone: bool)
      requires Valid() && consumer == LinkedModel.StoreHead(node, next, out)
      modifies this
      ensures Valid() && old(history.exchanged) <= history.exchanged && history.popped == old(history.popped) + [out]
      ensures consumer == Delete(node, out) && (alone ==> Still())
    {
      Interfere(Popper, alone);
      StoreHead(next);
    }

    method Drop(node: nat, ghost out: Option<T>, ghost alone: bool)
      requires Valid() && consumer == Delete(node, out)
      modifies this
      ensures Valid() && old(history.exchanged) <= history.exchanged && history.popped == old(history.popped)
      ensures consumer == Outside && (alone ==> Still())
    {
      Interfere(Popper, alone);
      ReachableInv(View());
      DeleteNode(node);
    }

    /**
     try_pop by the one consumer, with the producers free to run between its operations. It delivers
     the next value in exchange order, and always does if that value was linked before the call.
     */
    method TryPop(ghost alone: bool) returns (out: Option<T>)
      requires Valid() && consumer == Outside
      modifies this
      ensures Valid() && consumer == Outside && old(history.exchanged) <= history.exchanged
      ensures alone ==> Still()
      ensures out.Some? ==>
                && old(|history.popped|) < |history.exchanged|
                && out == Some(history.exchanged[old(|history.popped|)].value)
                && history.popped == old(history.popped) + [out]
      ensures out.None? ==> history.popped == old(history.popped)
      ensures old(NextLinked(View())) ==> out.Some?
    {
      var node := SeeHead(alone);
      var next := SeeNext(node, alone);
      if next == None { return None; }
      out := Take(node, next.value, alone);
      Advance(node, next.value, out, alone);
      Drop(node, out, alone);
    }

    // empty() by the consumer: no if the next value was linked before the call, and a yes means head has no successor.
    method IsEmpty() returns (b: bool)
      requires Valid() && consumer == Outside
      modifies this
      ensures Valid() && consumer == Outside && history.popped == old(history.popped)
      ensures old(NextLinked(View())) ==> !b
      ensures head in nodes && (b <==> nodes[head].next == None)
      ensures |history.popped| <= |history.exchanged|
      ensures b <==> |history.popped| == |history.exchanged| || Linking(View(), |history.popped|)
    {
      var node := PeekHead();
      b := PeekNext(node);
    }

    method PeekHead() returns (node: nat)
      requires Valid() && consumer == Outside
      modifies this
      ensures Valid() && consumer == Peek(node) && history.popped == old(history.popped)
      ensures old(NextLinked(View())) ==> NextLinked(View())
    {
      Interfere(Popper, false);
      node := LoadHead(EmptyLoadHead);
    }

    method PeekNext(node: nat) returns (b: bool)
      requires Valid() && consumer == Peek(node)
      modifies this
      ensures Valid() && consumer == Outside && history.popped == old(history.popped)
      ensures old(NextLinked(View())) ==> !b
      ensures head in nodes && (b <==> nodes[head].next == None)
      ensures |history.popped| <= |history.exchanged|
      ensures b <==> |history.popped| == |history.exchanged| || Linking(View(), |history.popped|)
    {
      Interfere(Popper, false);
      ReachableInv(View());
      assert LinkOk(View(), 0);
      var next := LoadNext(node, EmptyLoadNext);
      b := next == None;
    }

    // No push is under way.
    ghost predicate AllIdle()
      reads this
    {
      forall p | p in producers :: producers[p].Idle?
    }

    /**
     The destructor, when no push or pop is under way: it pops exactly what was exchanged and not
     popped, in order, and deletes every node.
     */
    method Destroy() returns (rest: seq<Option<T>>)
      requires Valid() && consumer == Outside && AllIdle()
      modifies this
      ensures nodes == map[]
      ensures old(|history.popped|) <= |history.exchanged| && history.exchanged == old(history.exchanged)
      ensures |rest| == |history.exchanged| - old(|history.popped|)
      ensures forall i | 0 <= i < |rest| :: rest[i] == Some(history.exchanged[old(|history.popped|) + i].value)
    {
      ReachableInv(View());
      rest := [];
      ghost var k := |history.popped|;
      while true
        invariant Valid() && consumer == Outside && Still() && history.exchanged == old(history.exchanged)
        invariant |history.popped| == k + |rest| <= |history.exchanged|
        invariant forall i | 0 <= i < |rest| :: rest[i] == Some(history.exchanged[k + i].value)
        decreases |history.exchanged| - |history.popped|
      {
        AllLinked();
        var out := TryPop(true);
        if out == None { break; }
        rest := rest + [out];
      }
      LastNode();
      nodes := nodes - {head};
    }

    lemma AllLinked()
      requires Valid() && AllIdle()
      ensures |history.popped| <= |history.exchanged|
      ensures |history.popped| < |history.exchanged| ==> NextLinked(View())
    {
      ReachableInv(View());
    }

    // With nobody at work and everything popped, the dummy is the only node.
    lemma LastNode()
      requires Valid() && consumer == Outside && |history.popped| == |history.exchanged| && AllIdle()
      ensures nodes.Keys == {head}
    {
      ReachableInv(View());
      assert history.chain == [head];
      forall node ensures node in nodes.Keys <==> node == head {
        LiveNodes(View(), node);
      }
    }
  }
}
