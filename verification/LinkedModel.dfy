/**
 The linked multi-producer, single-consumer queue of twe/core/queue/mpsc_queue.h as a step system:
 one action per atomic load, store or exchange, per allocation, per move of a value and per delete.
 A node is named by its address; an address may be handed out again once its node is deleted.
 */
module LinkedModel {
  import opened Common
  import opened Claims

  // data is None in the first dummy and in a node whose value has been moved out.
  datatype Node<T> = Node(next: Option<nat>, data: Option<T>)

  // Where a thread stands inside try_push. ticket is the place of its node in the exchange order.
  datatype Producer<T> =
    | Idle
    | Exchange(node: nat, value: T)
    | Link(node: nat, prev: nat, ticket: nat)

  // Where the consumer stands inside try_pop, or inside empty().
  datatype Consumer<T> =
    | Outside
    | LoadNext(node: nat)
    | Read(node: nat, next: nat)
    | StoreHead(node: nat, next: nat, out: Option<T>)
    | Delete(node: nat, out: Option<T>)
    | Peek(node: nat)

  /**
   What happened so far, for the record only (see LinkedRecord). exchanged lists the pushes in the order of their
   exchanges of tail, accepted what each thread's finished pushes were, popped the values whose
   nodes head has moved to, chain the nodes exchanged in and not yet passed, dummy first.
   */
  datatype History<T> = History(
    exchanged: seq<Claim<T>>, accepted: map<nat, seq<T>>, popped: seq<Option<T>>, chain: seq<nat>)

  datatype State<T> = State(
    head: nat,
    tail: nat,
    nodes: map<nat, Node<T>>,  // the live nodes
    producers: map<nat, Producer<T>>,
    consumer: Consumer<T>,
    fault: bool,  // some step touched or deleted a node that was not live
    history: History<T>)

  datatype Action<T> =
    | PushNew(p: nat, value: T, node: nat)
    | PushExchange(p: nat)
    | PushLink(p: nat)
    | PopLoadHead
    | PopLoadNext
    | PopRead
    | PopStoreHead
    | PopDelete
    | EmptyLoadHead
    | EmptyLoadNext

  function Pc<T>(s: State<T>, p: nat): Producer<T> {
    if p in s.producers then s.producers[p] else Idle
  }

  function AcceptedBy<T>(s: State<T>, p: nat): seq<T> {
    if p in s.history.accepted then s.history.accepted[p] else []
  }

  // The value exchanged in at place t.
  function ValueOf<T>(h: History<T>, t: nat): seq<T> {
    if t < |h.exchanged| then [h.exchanged[t].value] else []
  }

  function Passed(chain: seq<nat>): seq<nat> {
    if chain == [] then [] else chain[1..]
  }

  function Start<T>(dummy: nat): State<T> {
    State(dummy, dummy, map[dummy := Node(None, None)], map[], Outside, false, History([], map[], [], [dummy]))
  }

  predicate Enabled<T>(s: State<T>, a: Action<T>) {
    match a
    case PushNew(p, _, node) => Pc(s, p).Idle? && node !in s.nodes
    case PushExchange(p) => Pc(s, p).Exchange?
    case PushLink(p) => Pc(s, p).Link?
    case PopLoadHead => s.consumer.Outside?
    case PopLoadNext => s.consumer.LoadNext?
    case PopRead => s.consumer.Read?
    case PopStoreHead => s.consumer.StoreHead?
    case PopDelete => s.consumer.Delete?
    case EmptyLoadHead => s.consumer.Outside?
    case EmptyLoadNext => s.consumer.Peek?
  }

  function Step<T>(s: State<T>, a: Action<T>): State<T>
    requires Enabled(s, a)
  {
    match a
    case PushNew(p, value, node) =>
      s.(nodes := s.nodes[node := Node(None, Some(value))], producers := s.producers[p := Exchange(node, value)])
    case PushExchange(p) =>
      var pc := Pc(s, p);
      s.(tail := pc.node,
         producers := s.producers[p := Link(pc.node, s.tail, |s.history.exchanged|)],
         history := s.history.(exchanged := s.history.exchanged + [Claim(p, pc.value)],
                               chain := s.history.chain + [pc.node]))
    case PushLink(p) =>
      var pc := Pc(s, p);
      if pc.prev !in s.nodes then s.(fault := true)
      else
        s.(nodes := s.nodes[pc.prev := s.nodes[pc.prev].(next := Some(pc.node))],
           producers := s.producers[p := Idle],
           history := s.history.(accepted := s.history.accepted[p := AcceptedBy(s, p) + ValueOf(s.history, pc.ticket)]))
    case PopLoadHead => s.(consumer := LoadNext(s.head))
    case PopLoadNext =>
      var node := s.consumer.node;
      if node !in s.nodes then s.(fault := true)
      else
        s.(consumer := match s.nodes[node].next case None => Outside case Some(next) => Read(node, next))
    case PopRead =>
      var next := s.consumer.next;
      if next !in s.nodes then s.(fault := true)
      else
        s.(nodes := s.nodes[next := s.nodes[next].(data := None)],
           consumer := StoreHead(s.consumer.node, next, s.nodes[next].data))
    case PopStoreHead =>
      s.(head := s.consumer.next,
         consumer := Delete(s.consumer.node, s.consumer.out),
         history := s.history.(popped := s.history.popped + [s.consumer.out], chain := Passed(s.history.chain)))
    case PopDelete =>
      var node := s.consumer.node;
      if node !in s.nodes then s.(fault := true)
      else s.(nodes := s.nodes - {node}, consumer := Outside)
    case EmptyLoadHead => s.(consumer := Peek(s.head))
    case EmptyLoadNext =>
      if s.consumer.node !in s.nodes then s.(fault := true) else s.(consumer := Outside)
  }

  // trace lists the states a run goes through, one step from each to the next.
  ghost predicate Behaviour<T>(trace: seq<State<T>>, run: seq<Action<T>>) {
    && |trace| == |run| + 1
    && forall i | 0 <= i < |run| :: Enabled(trace[i], run[i]) && trace[i + 1] == Step(trace[i], run[i])
  }
}
