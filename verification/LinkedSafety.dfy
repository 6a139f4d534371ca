/** The invariant of the linked queue: the chain of exchanged nodes, its pending links, and who owns which node. */
module LinkedSafety {
  import opened Common
  import opened LinkedModel

  // The push that exchanged ticket t in has still to store the link to its node.
  ghost predicate Linking<T>(s: State<T>, t: nat)
    requires t < |s.history.exchanged|
  {
    var pc := Pc(s, s.history.exchanged[t].pusher);
    pc.Link? && pc.ticket == t
  }

  // The node exchanged in at place t is linked behind the one before it.
  ghost predicate Linked<T>(s: State<T>, t: nat) {
    t < |s.history.exchanged| && !Linking(s, t)
  }

  // What was linked at s is so at s'.
  ghost predicate Lasting<T>(s: State<T>, s': State<T>) {
    forall t: nat | Linked(s, t) :: Linked(s', t)
  }

  // The next n values in exchange order are linked.
  ghost predicate Waiting<T>(s: State<T>, n: nat) {
    forall t | |s.history.popped| <= t < |s.history.popped| + n :: Linked(s, t)
  }

  ghost predicate ChainOk<T>(s: State<T>) {
    var h := s.history;
    && |h.popped| <= |h.exchanged| && |h.chain| == |h.exchanged| - |h.popped| + 1
    && s.head == h.chain[0] && s.tail == h.chain[|h.chain| - 1]
    && (forall i, j | 0 <= i < j < |h.chain| :: h.chain[i] != h.chain[j])
    && (forall i | 0 <= i < |h.chain| :: h.chain[i] in s.nodes)
  }

  // The link out of the i-th node of the chain, and the value of the node after it.
  ghost predicate LinkOk<T>(s: State<T>, i: nat)
    requires ChainOk(s) && i < |s.history.chain|
  {
    var h := s.history;
    var node := s.nodes[h.chain[i]];
    && node.next == (if i == |h.chain| - 1 || Linking(s, |h.popped| + i) then None else Some(h.chain[i + 1]))
    && (i == |h.chain| - 1 || (i == 0 && s.consumer.StoreHead?)
        || s.nodes[h.chain[i + 1]].data == Some(h.exchanged[|h.popped| + i].value))
  }

  ghost predicate ProducerOk<T>(s: State<T>, p: nat)
    requires ChainOk(s)
  {
    var h := s.history;
    match Pc(s, p)
    case Idle => true
    case Exchange(node, v) =>
      && node in s.nodes && s.nodes[node] == Node(None, Some(v)) && node !in h.chain
      && (s.consumer.Delete? ==> node != s.consumer.node)
    case Link(node, prev, t) =>
      && |h.popped| <= t < |h.exchanged| && h.exchanged[t].pusher == p
      && h.chain[t - |h.popped|] == prev && h.chain[t - |h.popped| + 1] == node
  }

  ghost predicate ConsumerOk<T>(s: State<T>)
    requires ChainOk(s)
  {
    var h := s.history;
    match s.consumer
    case Outside => true
    case LoadNext(node) => node == s.head
    case Peek(node) => node == s.head
    case Read(node, next) => node == s.head && s.nodes[node].next == Some(next)
    case StoreHead(node, next, out) =>
      && node == s.head && s.nodes[node].next == Some(next)
      && |h.popped| < |h.exchanged| && out == Some(h.exchanged[|h.popped|].value)
    case Delete(node, out) => node in s.nodes && node !in h.chain
  }

  // A live node is in the chain, or not yet exchanged in, or about to be deleted.
  ghost predicate Owned<T>(s: State<T>, node: nat) {
    || node in s.history.chain
    || (exists p :: Pc(s, p).Exchange? && Pc(s, p).node == node)
    || (s.consumer.Delete? && s.consumer.node == node)
  }

  ghost predicate Inv<T>(s: State<T>) {
    && !s.fault
    && ChainOk(s)
    && (forall i | 0 <= i < |s.history.chain| :: LinkOk(s, i))
    && (forall p :: ProducerOk(s, p))
    && (forall p, q :: p != q && Pc(s, p).Exchange? && Pc(s, q).Exchange? ==> Pc(s, p).node != Pc(s, q).node)
    && ConsumerOk(s)
    && (forall node | node in s.nodes :: Owned(s, node))
    && |s.history.popped| <= |s.history.exchanged|
    && (forall i | 0 <= i < |s.history.popped| :: s.history.popped[i] == Some(s.history.exchanged[i].value))
  }

  lemma StartInv<T>(dummy: nat)
    ensures Inv<T>(Start(dummy))
  {}

  lemma InvStep<T>(s: State<T>, a: Action<T>)
    requires Inv(s) && Enabled(s, a)
    ensures Inv(Step(s, a))
  {
    var s' := Step(s, a);
    NoFault(s, a);
    ChainStep(s, a);
    forall i | 0 <= i < |s'.history.chain| ensures LinkOk(s', i) {
      match a
      case PopStoreHead => LinkAfterHead(s, a, i);
      case PushExchange(_) => LinkAfterExchange(s, a, i);
      case PushLink(_) => LinkAfterLink(s, a, i);
      case PushNew(_, _, _) => LinkBesideChain(s, a, i);
      case PopRead => LinkAfterRead(s, a, i);
      case PopDelete => LinkBesideChain(s, a, i);
      case _ => LinkAfterLook(s, a, i);
    }
    forall p ensures ProducerOk(s', p) {
      if a.PopStoreHead? {
        ProducerAfterHead(s, a, p);
      } else if a.PushNew? || a.PushExchange? || a.PushLink? {
        ProducerBesidePush(s, a, p);
      } else {
        ProducerBesidePop(s, a, p);
      }
    }
    forall p, q | p != q && Pc(s', p).Exchange? && Pc(s', q).Exchange? ensures Pc(s', p).node != Pc(s', q).node {
      PrivateStep(s, a, p, q);
    }
    ConsumerStep(s, a);
    DeliveryStep(s, a);
    forall node | node in s'.nodes ensures Owned(s', node) { OwnedStep(s, a, node); }
  }

  // The producer a step moves, if any; all others stay where they are.
  ghost predicate Mover<T>(a: Action<T>, p: nat) {
    (a.PushNew? || a.PushExchange? || a.PushLink?) && a.p == p
  }

  lemma OthersStay<T>(s: State<T>, a: Action<T>, p: nat)
    requires Enabled(s, a) && !Mover(a, p)
    ensures Pc(Step(s, a), p) == Pc(s, p)
  {}

  // No step touches a node that is not live.
  lemma NoFault<T>(s: State<T>, a: Action<T>)
    requires Inv(s) && Enabled(s, a)
    ensures !Step(s, a).fault
  {
    assert LinkOk(s, 0);
    if a.PushLink? { assert ProducerOk(s, a.p); }
  }

  lemma ChainStep<T>(s: State<T>, a: Action<T>)
    requires Inv(s) && Enabled(s, a)
    ensures ChainOk(Step(s, a))
  {
    NoFault(s, a);
    if a.PushExchange? || a.PushLink? {
      assert ProducerOk(s, a.p);
    } else if a.PopStoreHead? {
      assert LinkOk(s, 0);
    }
  }

  lemma LinkAfterHead<T>(s: State<T>, a: Action<T>, i: nat)
    requires Inv(s) && Enabled(s, a) && a.PopStoreHead?
    requires ChainOk(Step(s, a)) && i < |Step(s, a).history.chain|
    ensures LinkOk(Step(s, a), i)
  {
    assert LinkOk(s, i + 1);
    assert |Step(s, a).history.popped| + i == |s.history.popped| + (i + 1);
  }

  lemma LinkAfterExchange<T>(s: State<T>, a: Action<T>, i: nat)
    requires Inv(s) && Enabled(s, a) && a.PushExchange?
    requires ChainOk(Step(s, a)) && i < |Step(s, a).history.chain|
    ensures LinkOk(Step(s, a), i)
  {
    var s' := Step(s, a);
    var k := |s.history.popped|;
    assert ProducerOk(s, a.p);
    if i < |s.history.chain| {
      assert LinkOk(s, i);
      if k + i < |s.history.exchanged| {
        assert s'.history.exchanged[k + i] == s.history.exchanged[k + i];
      }
    }
  }

  lemma LinkAfterLink<T>(s: State<T>, a: Action<T>, i: nat)
    requires Inv(s) && Enabled(s, a) && a.PushLink?
    requires ChainOk(Step(s, a)) && i < |Step(s, a).history.chain|
    ensures LinkOk(Step(s, a), i)
  {
    var s' := Step(s, a);
    var k := |s.history.popped|;
    assert ProducerOk(s, a.p);
    var at := Pc(s, a.p).ticket - k;
    assert LinkOk(s, i);
    if i != at && k + i < |s.history.exchanged| {
      LinkingElsewhere(s, a, k + i);
    }
  }

  // Storing one link settles that ticket's and no other.
  lemma LinkingElsewhere<T>(s: State<T>, a: Action<T>, t: nat)
    requires Inv(s) && Enabled(s, a) && a.PushLink? && t < |s.history.exchanged| && t != Pc(s, a.p).ticket
    requires |Step(s, a).history.exchanged| == |s.history.exchanged|
    ensures Linking(Step(s, a), t) == Linking(s, t)
  {
    var q := s.history.exchanged[t].pusher;
    assert Step(s, a).history.exchanged == s.history.exchanged;
    if !Mover(a, q) { OthersStay(s, a, q); }
  }

  lemma LinkAfterRead<T>(s: State<T>, a: Action<T>, i: nat)
    requires Inv(s) && Enabled(s, a) && a.PopRead?
    requires ChainOk(Step(s, a)) && i < |Step(s, a).history.chain|
    ensures LinkOk(Step(s, a), i)
  {
    var s', chain := Step(s, a), s.history.chain;
    ReadEmptiesNext(s);
    assert LinkOk(s, i);
    assert s'.nodes[chain[i]].next == s.nodes[chain[i]].next;
    if 0 < i < |chain| - 1 {
      assert chain[i + 1] != chain[1];
      assert s'.nodes[chain[i + 1]] == s.nodes[chain[i + 1]];
    }
  }

  // try_pop moves the value out of the first node after the dummy and touches no other.
  lemma ReadEmptiesNext<T>(s: State<T>)
    requires Inv(s) && s.consumer.Read?
    ensures
      var chain, s' := s.history.chain, Step(s, PopRead);
      && |chain| > 1 && s'.history == s.history && s'.producers == s.producers && s'.consumer.StoreHead?
      && s'.nodes == s.nodes[chain[1] := s.nodes[chain[1]].(data := None)]
  {
    assert LinkOk(s, 0);
  }

  // Steps that add or delete a node outside the chain.
  lemma LinkBesideChain<T>(s: State<T>, a: Action<T>, i: nat)
    requires Inv(s) && Enabled(s, a) && (a.PushNew? || a.PopDelete?)
    requires ChainOk(Step(s, a)) && i < |Step(s, a).history.chain|
    ensures LinkOk(Step(s, a), i)
  {
    assert LinkOk(s, i);
  }

  // Steps that only look at nodes.
  lemma LinkAfterLook<T>(s: State<T>, a: Action<T>, i: nat)
    requires Inv(s) && Enabled(s, a) && (a.PopLoadHead? || a.PopLoadNext? || a.EmptyLoadHead? || a.EmptyLoadNext?)
    requires ChainOk(Step(s, a)) && i < |Step(s, a).history.chain|
    ensures LinkOk(Step(s, a), i)
  {
    assert LinkOk(s, i);
  }

  lemma ProducerAfterHead<T>(s: State<T>, a: Action<T>, p: nat)
    requires Inv(s) && Enabled(s, a) && a.PopStoreHead? && ChainOk(Step(s, a))
    ensures ProducerOk(Step(s, a), p)
  {
    var h := s.history;
    assert ProducerOk(s, p) && LinkOk(s, 0);
    if Pc(s, p).Link? {
      var t, k := Pc(s, p).ticket, |h.popped|;
      assert Linking(s, t);
      assert h.chain[1..][t - (k + 1)] == h.chain[t - k];
    }
  }

  lemma ProducerBesidePush<T>(s: State<T>, a: Action<T>, p: nat)
    requires Inv(s) && Enabled(s, a) && ChainOk(Step(s, a))
    requires a.PushNew? || a.PushExchange? || a.PushLink?
    ensures ProducerOk(Step(s, a), p)
  {
    assert ProducerOk(s, p);
    if !Mover(a, p) { OthersStay(s, a, p); }
    if !a.PushNew? { assert ProducerOk(s, a.p); }
  }

  lemma ProducerBesidePop<T>(s: State<T>, a: Action<T>, p: nat)
    requires Inv(s) && Enabled(s, a) && ChainOk(Step(s, a))
    requires !a.PopStoreHead? && !a.PushNew? && !a.PushExchange? && !a.PushLink?
    ensures ProducerOk(Step(s, a), p)
  {
    var s' := Step(s, a);
    assert ProducerOk(s, p);
    assert s'.history == s.history && s'.producers == s.producers;
    if a.PopRead? {
      ReadEmptiesNext(s);
    } else if !a.PopDelete? {
      assert s'.nodes == s.nodes;
    }
  }

  // Two threads never prepare the same node.
  lemma PrivateStep<T>(s: State<T>, a: Action<T>, p: nat, q: nat)
    requires Inv(s) && Enabled(s, a) && p != q
    requires Pc(Step(s, a), p).Exchange? && Pc(Step(s, a), q).Exchange?
    ensures Pc(Step(s, a), p).node != Pc(Step(s, a), q).node
  {
    assert ProducerOk(s, p) && ProducerOk(s, q);
    if !Mover(a, p) { OthersStay(s, a, p); }
    if !Mover(a, q) { OthersStay(s, a, q); }
  }

  lemma ConsumerStep<T>(s: State<T>, a: Action<T>)
    requires Inv(s) && Enabled(s, a) && ChainOk(Step(s, a))
    ensures ConsumerOk(Step(s, a))
  {
    assert LinkOk(s, 0);
    if a.PushLink? {
      assert ProducerOk(s, a.p);
    } else if a.PushExchange? {
      assert ProducerOk(s, a.p);
    }
  }

  lemma DeliveryStep<T>(s: State<T>, a: Action<T>)
    requires Inv(s) && Enabled(s, a)
    ensures
      var h := Step(s, a).history;
      && |h.popped| <= |h.exchanged|
      && forall i | 0 <= i < |h.popped| :: h.popped[i] == Some(h.exchanged[i].value)
  {}

  // Whatever is still live after a step has an owner after it.
  lemma OwnedStep<T>(s: State<T>, a: Action<T>, node: nat)
    requires Inv(s) && Enabled(s, a) && node in Step(s, a).nodes
    ensures Owned(Step(s, a), node)
  {
    var s' := Step(s, a);
    if a.PushNew? && node == a.node {
      assert Pc(s', a.p).Exchange?;
      return;
    }
    assert LinkOk(s, 0) && Owned(s, node);
    if a.PushLink? { assert ProducerOk(s, a.p); }
    if i :| 0 <= i < |s.history.chain| && s.history.chain[i] == node {
      if a.PopStoreHead? && i > 0 { assert s'.history.chain[i - 1] == node; }
      else if a.PushExchange? { assert s'.history.chain[i] == node; }
    } else if p :| Pc(s, p).Exchange? && Pc(s, p).node == node {
      if Mover(a, p) { assert s'.history.chain[|s.history.chain|] == node; } else { OthersStay(s, a, p); }
    }
  }

  // Linked once, linked ever after.
  lemma LinkedLasts<T>(s: State<T>, a: Action<T>)
    requires Enabled(s, a)
    ensures Lasting(s, Step(s, a))
  {
    forall t: nat | Linked(s, t) ensures Linked(Step(s, a), t) {
      var q := s.history.exchanged[t].pusher;
      if !Mover(a, q) { OthersStay(s, a, q); }
    }
  }
}
