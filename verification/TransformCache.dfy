/**
 The version-stamped cache of world matrices of twe/src/scene/transform_node.cpp. The matrix type,
 the conversion of a local transform and the matrix product are parameters; versions are unbounded.
 */
module TransformCache {
  import opened Common

  // transform and mul of wz::math, left abstract.
  datatype Math<!L, !M> = Math(transform: L -> M, mul: (M, M) -> M)

  datatype Node<L, M> = Node(
    local: L,
    parent: Option<nat>,  // None stands for INVALID_TRANSFORM_NODE
    world: M,
    localVersion: int,
    worldVersion: int,
    parentVersion: int)

  // The parent links stay inside the array and lead to nodes of lower rank, so there is no cycle.
  ghost predicate Forest<L, M>(nodes: seq<Node<L, M>>, rank: seq<nat>) {
    && |rank| == |nodes|
    && forall i | 0 <= i < |nodes| :: nodes[i].parent.Some? ==>
         nodes[i].parent.value < |nodes| && rank[nodes[i].parent.value] < rank[i]
  }

  // The reference: the plain product of locals from the root down.
  ghost function World<L, M>(m: Math<L, M>, nodes: seq<Node<L, M>>, rank: seq<nat>, id: nat): M
    requires Forest(nodes, rank) && id < |nodes|
    decreases rank[id]
  {
    var own := m.transform(nodes[id].local);
    match nodes[id].parent
    case None => own
    case Some(p) => m.mul(World(m, nodes, rank, p), own)
  }

  predicate NeedsUpdate<L, M>(node: Node<L, M>, parent: Option<Node<L, M>>) {
    || node.localVersion != node.worldVersion
    || (parent.Some? && node.parentVersion != parent.value.worldVersion)
  }

  // One node's own part of update_world_transform, its parent being up to date.
  function Refreshed<L, M>(m: Math<L, M>, node: Node<L, M>, parent: Option<Node<L, M>>): Node<L, M> {
    var dirty := NeedsUpdate(node, parent);
    var forced :=
      if parent.Some? && node.parentVersion != parent.value.worldVersion
      then node.(worldVersion := node.localVersion - 1)
      else node;
    if !dirty then forced
    else
      var own := m.transform(forced.local);
      forced.(world := match parent case None => own case Some(p) => m.mul(p.world, own),
              parentVersion := match parent case None => 0 case Some(p) => p.worldVersion,
              worldVersion := forced.localVersion)
  }

  // The whole of update_world_transform.
  ghost function Updated<L, M>(m: Math<L, M>, nodes: seq<Node<L, M>>, rank: seq<nat>, id: nat): (r: seq<Node<L, M>>)
    requires Forest(nodes, rank) && id < |nodes|
    ensures |r| == |nodes|
    decreases rank[id]
  {
    match nodes[id].parent
    case None => nodes[id := Refreshed(m, nodes[id], None)]
    case Some(p) =>
      var above := Updated(m, nodes, rank, p);
      above[id := Refreshed(m, above[id], Some(above[p]))]
  }

  method UpdateWorldTransform<L, M>(m: Math<L, M>, nodes: array<Node<L, M>>, id: nat, ghost rank: seq<nat>)
    requires Forest(nodes[..], rank) && id < nodes.Length
    modifies nodes
    ensures nodes[..] == Updated(m, old(nodes[..]), rank, id)
    decreases rank[id]
  {
    var parent := nodes[id].parent;
    ghost var before := nodes[..];
    if parent.Some? {
      UpdateWorldTransform(m, nodes, parent.value, rank);
      UpdatedFrame(m, before, rank, parent.value);
    }
    ghost var above := nodes[..];
    var dirty :=
      || nodes[id].localVersion != nodes[id].worldVersion
      || (parent.Some? && nodes[id].parentVersion != nodes[parent.value].worldVersion);
    if parent.Some? && nodes[id].parentVersion != nodes[parent.value].worldVersion {
      nodes[id] := nodes[id].(worldVersion := nodes[id].localVersion - 1);
    }
    if dirty {
      var own := m.transform(nodes[id].local);
      nodes[id] := nodes[id].(world := if parent.Some? then m.mul(nodes[parent.value].world, own) else own);
      nodes[id] := nodes[id].(parentVersion := if parent.Some? then nodes[parent.value].worldVersion else 0);
      nodes[id] := nodes[id].(worldVersion := nodes[id].localVersion);
    }
    assert nodes[..] == above[id := nodes[id]];
  }

  // a is id or one of its ancestors.
  ghost predicate OnChain<L, M>(nodes: seq<Node<L, M>>, rank: seq<nat>, a: nat, id: nat)
    requires Forest(nodes, rank) && id < |nodes|
    decreases rank[id]
  {
    a == id || (nodes[id].parent.Some? && OnChain(nodes, rank, a, nodes[id].parent.value))
  }

  // What no update changes: the locals, the links and the local versions.
  ghost predicate SameScene<L, M>(nodes: seq<Node<L, M>>, r: seq<Node<L, M>>) {
    && |r| == |nodes|
    && forall i | 0 <= i < |nodes| ::
         r[i].local == nodes[i].local && r[i].parent == nodes[i].parent && r[i].localVersion == nodes[i].localVersion
  }

  lemma {:induction false} ChainBelow<L, M>(nodes: seq<Node<L, M>>, rank: seq<nat>, a: nat, id: nat)
    requires Forest(nodes, rank) && id < |nodes| && OnChain(nodes, rank, a, id)
    ensures a < |nodes| && rank[a] <= rank[id]
    decreases rank[id]
  {
    if a != id { ChainBelow(nodes, rank, a, nodes[id].parent.value); }
  }

  // An update leaves the scene alone and touches only the chain of id.
  lemma {:induction false} UpdatedFrame<L, M>(m: Math<L, M>, nodes: seq<Node<L, M>>, rank: seq<nat>, id: nat)
    requires Forest(nodes, rank) && id < |nodes|
    ensures
      var r := Updated(m, nodes, rank, id);
      && SameScene(nodes, r)
      && forall i | 0 <= i < |nodes| && !OnChain(nodes, rank, i, id) :: r[i] == nodes[i]
    ensures nodes[id].parent.Some? ==> Updated(m, nodes, rank, nodes[id].parent.value)[id] == nodes[id]
    decreases rank[id]
  {
    if nodes[id].parent.Some? {
      var p := nodes[id].parent.value;
      UpdatedFrame(m, nodes, rank, p);
      if OnChain(nodes, rank, id, p) { ChainBelow(nodes, rank, id, p); }
    }
  }

  lemma {:induction false} WorldOfScene<L, M>(m: Math<L, M>, nodes: seq<Node<L, M>>, r: seq<Node<L, M>>,
                                              rank: seq<nat>, id: nat)
    requires Forest(nodes, rank) && id < |nodes| && SameScene(nodes, r)
    ensures Forest(r, rank) && World(m, r, rank, id) == World(m, nodes, rank, id)
    decreases rank[id]
  {
    if nodes[id].parent.Some? { WorldOfScene(m, nodes, r, rank, nodes[id].parent.value); }
  }

  /**
   Whether an update of node i would recompute its matrix. By the time it looks, its parent's
   world version has become the parent's local version.
   */
  ghost predicate WillRecompute<L, M>(nodes: seq<Node<L, M>>, i: nat)
    requires i < |nodes| && (nodes[i].parent.Some? ==> nodes[i].parent.value < |nodes|)
  {
    || nodes[i].localVersion != nodes[i].worldVersion
    || (nodes[i].parent.Some? && nodes[i].parentVersion != nodes[nodes[i].parent.value].localVersion)
  }

  // Every matrix that an update would keep is right.
  ghost predicate Coherent<L, M>(m: Math<L, M>, nodes: seq<Node<L, M>>, rank: seq<nat>)
    requires Forest(nodes, rank)
  {
    forall i | 0 <= i < |nodes| && !WillRecompute(nodes, i) :: nodes[i].world == World(m, nodes, rank, i)
  }

  // After an update no node of the chain would be recomputed again; one that would not have been keeps its matrix.
  lemma {:induction false} UpdatedSettles<L, M>(m: Math<L, M>, nodes: seq<Node<L, M>>, rank: seq<nat>, id: nat)
    requires Forest(nodes, rank) && id < |nodes|
    ensures
      var r := Updated(m, nodes, rank, id);
      && SameScene(nodes, r) && Forest(r, rank)
      && r[id].worldVersion == r[id].localVersion
      && (forall i | 0 <= i < |nodes| && OnChain(nodes, rank, i, id) :: !WillRecompute(r, i))
      && (!WillRecompute(nodes, id) ==> r[id].world == nodes[id].world)
    decreases rank[id]
  {
    UpdatedFrame(m, nodes, rank, id);
    if nodes[id].parent.Some? {
      var p := nodes[id].parent.value;
      UpdatedSettles(m, nodes, rank, p);
      var above, r := Updated(m, nodes, rank, p), Updated(m, nodes, rank, id);
      forall i | 0 <= i < |nodes| && OnChain(nodes, rank, i, id) ensures !WillRecompute(r, i) {
        if i != id { assert r[i] == above[i]; assert !WillRecompute(above, i); }
      }
    }
  }

  // On a coherent scene an update makes every matrix of the chain right.
  lemma {:induction false} UpdatedRight<L, M>(m: Math<L, M>, nodes: seq<Node<L, M>>, rank: seq<nat>, id: nat)
    requires Forest(nodes, rank) && id < |nodes| && Coherent(m, nodes, rank)
    ensures forall i | 0 <= i < |nodes| && OnChain(nodes, rank, i, id) ::
              Updated(m, nodes, rank, id)[i].world == World(m, nodes, rank, i)
    decreases rank[id]
  {
    UpdatedFrame(m, nodes, rank, id);
    if nodes[id].parent.Some? {
      var p := nodes[id].parent.value;
      UpdatedRight(m, nodes, rank, p);
      UpdatedSettles(m, nodes, rank, p);
      assert OnChain(nodes, rank, p, p);
    }
  }

  /**
   Exactly when the cache can be trusted: updating any node yields its plain product if and only
   if the scene is coherent as the update begins.
   */
  lemma TrustedExactly<L, M>(m: Math<L, M>, nodes: seq<Node<L, M>>, rank: seq<nat>)
    requires Forest(nodes, rank)
    ensures Coherent(m, nodes, rank) <==>
            forall id | 0 <= id < |nodes| :: Updated(m, nodes, rank, id)[id].world == World(m, nodes, rank, id)
  {
    if Coherent(m, nodes, rank) {
      forall id | 0 <= id < |nodes| ensures Updated(m, nodes, rank, id)[id].world == World(m, nodes, rank, id) {
        UpdatedRight(m, nodes, rank, id);
        assert OnChain(nodes, rank, id, id);
      }
    } else {
      var i :| 0 <= i < |nodes| && !WillRecompute(nodes, i) && nodes[i].world != World(m, nodes, rank, i);
      UpdatedSettles(m, nodes, rank, i);
    }
  }

  // An update never spoils another node: coherence survives it, and a second update changes nothing.
  lemma UpdateKeeps<L, M>(m: Math<L, M>, nodes: seq<Node<L, M>>, rank: seq<nat>, id: nat)
    requires Forest(nodes, rank) && id < |nodes| && Coherent(m, nodes, rank)
    ensures
      var r := Updated(m, nodes, rank, id);
      Forest(r, rank) && Coherent(m, r, rank)
  {
    var r := Updated(m, nodes, rank, id);
    UpdatedFrame(m, nodes, rank, id);
    UpdatedSettles(m, nodes, rank, id);
    UpdatedRight(m, nodes, rank, id);
    forall i | 0 <= i < |r| && !WillRecompute(r, i) ensures r[i].world == World(m, r, rank, i) {
      WorldOfScene(m, nodes, r, rank, i);
      if !OnChain(nodes, rank, i, id) { assert r[i] == nodes[i] && !WillRecompute(nodes, i); }
    }
  }

  // Updating where nothing on the chain would be recomputed changes nothing.
  lemma {:induction false} SettledStays<L, M>(m: Math<L, M>, nodes: seq<Node<L, M>>, rank: seq<nat>, id: nat)
    requires Forest(nodes, rank) && id < |nodes|
    requires forall i | 0 <= i < |nodes| && OnChain(nodes, rank, i, id) :: !WillRecompute(nodes, i)
    ensures Updated(m, nodes, rank, id) == nodes
    decreases rank[id]
  {
    assert OnChain(nodes, rank, id, id);
    if nodes[id].parent.Some? {
      var p := nodes[id].parent.value;
      assert OnChain(nodes, rank, p, p);
      SettledStays(m, nodes, rank, p);
    }
  }

  lemma {:induction false} ChainOfScene<L, M>(nodes: seq<Node<L, M>>, r: seq<Node<L, M>>,
                                              rank: seq<nat>, a: nat, id: nat)
    requires Forest(nodes, rank) && Forest(r, rank) && id < |nodes| && SameScene(nodes, r)
    ensures OnChain(r, rank, a, id) == OnChain(nodes, rank, a, id)
    decreases rank[id]
  {
    if nodes[id].parent.Some? { ChainOfScene(nodes, r, rank, a, nodes[id].parent.value); }
  }

  // A second update of the same node changes nothing, coherent or not.
  lemma UpdateIdempotent<L, M>(m: Math<L, M>, nodes: seq<Node<L, M>>, rank: seq<nat>, id: nat)
    requires Forest(nodes, rank) && id < |nodes|
    ensures
      var r := Updated(m, nodes, rank, id);
      Forest(r, rank) && Updated(m, r, rank, id) == r
  {
    var r := Updated(m, nodes, rank, id);
    UpdatedSettles(m, nodes, rank, id);
    forall i | 0 <= i < |r| && OnChain(r, rank, i, id) ensures !WillRecompute(r, i) {
      ChainOfScene(nodes, r, rank, i, id);
    }
    SettledStays(m, r, rank, id);
  }
}
