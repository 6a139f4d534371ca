/** The linked queue's whole-run results. */
module LinkedTheorems {
  import opened Common
  import opened Claims
  import opened LinkedModel
  import opened LinkedSafety

  // The value of a push that has exchanged its node in and not yet returned.
  function Pending<T>(s: State<T>, p: nat): seq<T> {
    var pc := Pc(s, p);
    if pc.Link? then ValueOf(s.history, pc.ticket) else []
  }

  ghost predicate Ordered<T>(s: State<T>) {
    forall p :: ClaimedBy(s.history.exchanged, p) == AcceptedBy(s, p) + Pending(s, p)
  }

  lemma OrderedStep<T>(s: State<T>, a: Action<T>)
    requires Inv(s) && Ordered(s) && Enabled(s, a)
    ensures Ordered(Step(s, a))
  {
    var s' := Step(s, a);
    forall p ensures ClaimedBy(s'.history.exchanged, p) == AcceptedBy(s', p) + Pending(s', p) {
      assert ClaimedBy(s.history.exchanged, p) == AcceptedBy(s, p) + Pending(s, p);
      if a.PushExchange? {
        ClaimedByOneMore(s.history.exchanged, Claim(a.p, Pc(s, a.p).value), p);
        ExchangeOrders(s, a, p);
      } else if a.PushLink? {
        LinkOrders(s, a, p);
      } else {
        OtherwiseOrders(s, a, p);
      }
    }
  }

  lemma ExchangeOrders<T>(s: State<T>, a: Action<T>, p: nat)
    requires Inv(s) && Enabled(s, a) && a.PushExchange?
    ensures
      var s' := Step(s, a);
      && s'.history.exchanged == s.history.exchanged + [Claim(a.p, Pc(s, a.p).value)]
      && AcceptedBy(s', p) == AcceptedBy(s, p)
      && Pending(s', p) == Pending(s, p) + if a.p == p then [Pc(s, p).value] else []
  {
    assert ProducerOk(s, p);
    if p != a.p { OthersStay(s, a, p); }
  }

  lemma LinkOrders<T>(s: State<T>, a: Action<T>, p: nat)
    requires Inv(s) && Enabled(s, a) && a.PushLink?
    ensures
      var s' := Step(s, a);
      && s'.history.exchanged == s.history.exchanged
      && AcceptedBy(s', p) + Pending(s', p) == AcceptedBy(s, p) + Pending(s, p)
  {
    NoFault(s, a);
    if p != a.p { OthersStay(s, a, p); }
  }

  lemma OtherwiseOrders<T>(s: State<T>, a: Action<T>, p: nat)
    requires Enabled(s, a) && !a.PushExchange? && !a.PushLink?
    ensures
      var s' := Step(s, a);
      && s'.history.exchanged == s.history.exchanged
      && AcceptedBy(s', p) == AcceptedBy(s, p) && Pending(s', p) == Pending(s, p)
  {}

  ghost predicate Reachable<T(!new)>(s: State<T>) {
    exists dummy, trace, run {:trigger Behaviour(trace, run), Start<T>(dummy)} ::
      Behaviour(trace, run) && trace[0] == Start(dummy) && trace[|run|] == s
  }

  lemma ReachableInv<T(!new)>(s: State<T>)
    requires Reachable(s)
    ensures Inv(s) && Ordered(s)
  {
    var dummy, trace, run :| Behaviour(trace, run) && trace[0] == Start<T>(dummy) && trace[|run|] == s;
    StartInv<T>(dummy);
    var i := 0;
    while i < |run|
      invariant i <= |run| && Inv(trace[i]) && Ordered(trace[i])
    {
      InvStep(trace[i], run[i]);
      OrderedStep(trace[i], run[i]);
      i := i + 1;
    }
  }

  lemma ReachableStart<T(!new)>(dummy: nat)
    ensures Reachable(Start<T>(dummy))
  {
    assert Behaviour<T>([Start(dummy)], []);
  }

  lemma ReachableStep<T(!new)>(s: State<T>, a: Action<T>)
    requires Reachable(s) && Enabled(s, a)
    ensures Reachable(Step(s, a))
  {
    var dummy, trace, run :| Behaviour(trace, run) && trace[0] == Start<T>(dummy) && trace[|run|] == s;
    assert Behaviour(trace + [Step(s, a)], run + [a]);
  }

  /**
   FIFO across broken links. What has been popped is a prefix of the exchange order, value for
   value; and what was popped from one thread is a prefix of the pushes that thread has finished.
   */
  lemma Fifo<T(!new)>(s: State<T>)
    requires Reachable(s)
    ensures |s.history.popped| <= |s.history.exchanged|
    ensures forall i | 0 <= i < |s.history.popped| :: s.history.popped[i] == Some(s.history.exchanged[i].value)
    ensures forall p :: ClaimedBy(s.history.exchanged[..|s.history.popped|], p) <= AcceptedBy(s, p)
  {
    ReachableInv(s);
    var n := |s.history.popped|;
    forall p ensures ClaimedBy(s.history.exchanged[..n], p) <= AcceptedBy(s, p) {
      ClaimedByPrefix(s.history.exchanged, n, p);
      assert ProducerOk(s, p);
      assert ClaimedBy(s.history.exchanged, p) == AcceptedBy(s, p) + Pending(s, p);
      if Pending(s, p) != [] {
        assert s.history.exchanged[Pc(s, p).ticket].pusher == p;
      }
    }
  }

  /**
   try_pop fails exactly when everything exchanged has been popped or the very next push has not
   stored its link; otherwise it goes on to the next value in exchange order. empty() looks at the
   same link.
   */
  lemma PopAnswer<T(!new)>(s: State<T>)
    requires Reachable(s) && s.consumer.LoadNext?
    ensures |s.history.popped| <= |s.history.exchanged| && s.head in s.nodes
    ensures
      var n := |s.history.popped|;
      var seen := Step(s, PopLoadNext);
      && (seen.consumer == Outside <==> n == |s.history.exchanged| || Linking(s, n))
      && (seen.consumer != Outside ==>
            && seen.consumer.Read?
            && Step(seen, PopRead).consumer.StoreHead?
            && Step(seen, PopRead).consumer.out == Some(s.history.exchanged[n].value))
      && (seen.consumer == Outside <==> s.nodes[s.head].next == None)
  {
    ReachableInv(s);
    assert LinkOk(s, 0);
  }

  /**
   Node lifetimes. No step has ever touched a dead node; the live nodes are exactly the chain from
   the dummy on, the nodes not yet exchanged in, and the one the consumer is about to delete.
   */
  lemma LiveNodes<T(!new)>(s: State<T>, node: nat)
    requires Reachable(s)
    ensures !s.fault
    ensures node in s.nodes <==> Owned(s, node)
    ensures |s.history.chain| == |s.history.exchanged| - |s.history.popped| + 1
  {
    ReachableInv(s);
    if p :| Pc(s, p).Exchange? && Pc(s, p).node == node { assert ProducerOk(s, p); }
  }

  // While a link is pending, neither of its ends is dead or being deleted: prev, and the new node itself.
  lemma PendingEndsLive<T(!new)>(s: State<T>, p: nat)
    requires Reachable(s) && Pc(s, p).Link?
    ensures Pc(s, p).prev in s.nodes && Pc(s, p).node in s.nodes
    ensures s.nodes[Pc(s, p).prev].next == None
    ensures s.consumer.Delete? ==> s.consumer.node != Pc(s, p).prev && s.consumer.node != Pc(s, p).node
    ensures s.consumer.Read? || s.consumer.StoreHead? ==> s.consumer.next != Pc(s, p).node
  {
    ReachableInv(s);
    assert ProducerOk(s, p);
    var h, at := s.history, Pc(s, p).ticket - |s.history.popped|;
    assert LinkOk(s, at) && LinkOk(s, 0) && Linking(s, Pc(s, p).ticket);
    if s.consumer.Read? || s.consumer.StoreHead? { assert at != 0; }
  }

  // The nodes met by following next from node.
  function Follow<T>(nodes: map<nat, Node<T>>, node: nat, fuel: nat): seq<nat>
    decreases fuel
  {
    if fuel == 0 || node !in nodes then []
    else [node] + match nodes[node].next case None => [] case Some(next) => Follow(nodes, next, fuel - 1)
  }

  // Following next along linked nodes that end in one without a successor meets exactly those nodes.
  lemma {:induction false} FollowPath<T>(nodes: map<nat, Node<T>>, path: seq<nat>, fuel: nat)
    requires 0 < |path| <= fuel
    requires forall i | 0 <= i < |path| :: path[i] in nodes
    requires forall i | 0 <= i < |path| - 1 :: nodes[path[i]].next == Some(path[i + 1])
    requires nodes[path[|path| - 1]].next == None
    ensures Follow(nodes, path[0], fuel) == path
    decreases |path|
  {
    if |path| > 1 {
      FollowPath(nodes, path[1..], fuel - 1);
      assert path == [path[0]] + path[1..];
    }
  }

  // How many nodes of the chain precede the first pending link.
  lemma LinkedPart<T>(s: State<T>) returns (n: nat)
    requires Inv(s)
    ensures 1 <= n <= |s.history.chain|
    ensures forall t | |s.history.popped| <= t < |s.history.popped| + n - 1 :: !Linking(s, t)
    ensures n < |s.history.chain| ==> Linking(s, |s.history.popped| + n - 1)
  {
    n := 1;
    while n < |s.history.chain| && !Linking(s, |s.history.popped| + n - 1)
      invariant 1 <= n <= |s.history.chain|
      invariant forall t | |s.history.popped| <= t < |s.history.popped| + n - 1 :: !Linking(s, t)
    {
      n := n + 1;
    }
  }

  /**
   The chain spells the queue. Following next from head always meets a prefix of the exchanged
   nodes, and meets all of them exactly when no push is between its exchange and its link.
   */
  lemma ChainSpells<T(!new)>(s: State<T>)
    requires Reachable(s)
    ensures
      var met := Follow(s.nodes, s.head, |s.history.chain|);
      && met <= s.history.chain
      && (met == s.history.chain <==> forall p :: !Pc(s, p).Link?)
  {
    ReachableInv(s);
    var chain := s.history.chain;
    var n := LinkedPart(s);
    forall i | 0 <= i < n
      ensures chain[i] in s.nodes && s.nodes[chain[i]].next == if i == n - 1 then None else Some(chain[i + 1])
    {
      assert LinkOk(s, i);
    }
    assert LinkOk(s, n - 1);
    FollowPath(s.nodes, chain[..n], |chain|);
    if n < |chain| {
      assert Pc(s, s.history.exchanged[|s.history.popped| + n - 1].pusher).Link?;
    } else if p :| Pc(s, p).Link? {
      assert ProducerOk(s, p);
      assert Linking(s, Pc(s, p).ticket);
    }
  }

  // The nodes after the dummy hold, in order, exactly the values exchanged and not popped.
  lemma ChainValues<T(!new)>(s: State<T>)
    requires Reachable(s)
    ensures |s.history.popped| <= |s.history.exchanged|
    ensures
      var h := s.history;
      && |h.chain| == |h.exchanged| - |h.popped| + 1
      && forall i | 1 <= i < |h.chain| && (i == 1 ==> !s.consumer.StoreHead?) ::
           h.chain[i] in s.nodes && s.nodes[h.chain[i]].data == Some(h.exchanged[|h.popped| + i - 1].value)
  {
    ReachableInv(s);
    var h := s.history;
    forall i | 1 <= i < |h.chain| && (i == 1 ==> !s.consumer.StoreHead?)
      ensures h.chain[i] in s.nodes && s.nodes[h.chain[i]].data == Some(h.exchanged[|h.popped| + i - 1].value)
    {
      assert LinkOk(s, i - 1);
    }
  }
}
