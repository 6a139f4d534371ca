/**
 Runs of edits and updates over the transform cache: which edits keep it trustworthy, and that no
 others do.
 */
module TransformRuns {
  import opened Common
  import opened TransformCache

  // Versions only look back: a recorded version is never ahead of the local version it was taken from.
  ghost predicate VersionsOk<L, M>(nodes: seq<Node<L, M>>, rank: seq<nat>)
    requires Forest(nodes, rank)
  {
    forall i | 0 <= i < |nodes| ::
      && nodes[i].worldVersion <= nodes[i].localVersion
      && (nodes[i].parent.Some? ==> nodes[i].parentVersion <= nodes[nodes[i].parent.value].localVersion)
  }

  // Nodes as they are created: local version 1, nothing computed.
  ghost predicate Created<L, M>(nodes: seq<Node<L, M>>) {
    forall i | 0 <= i < |nodes| ::
      nodes[i].localVersion == 1 && nodes[i].worldVersion == 0 && nodes[i].parentVersion == 0
  }

  // Node e gets a new local transform, and the local version of every node in bumped goes up by one.
  function Edited<L, M>(nodes: seq<Node<L, M>>, e: nat, local: L, bumped: set<nat>): (r: seq<Node<L, M>>)
    requires e < |nodes|
    ensures |r| == |nodes|
  {
    seq(|nodes|, i requires 0 <= i < |nodes| =>
      nodes[i].(local := if i == e then local else nodes[i].local,
                localVersion := if i in bumped then nodes[i].localVersion + 1 else nodes[i].localVersion))
  }

  // What a caller can check before an edit: each node below e has its own or its parent's version
  // bumped, or would be recomputed anyway.
  ghost predicate Covered<L, M>(nodes: seq<Node<L, M>>, rank: seq<nat>, e: nat, bumped: set<nat>)
    requires Forest(nodes, rank) && e < |nodes|
  {
    forall n | 0 <= n < |nodes| && OnChain(nodes, rank, e, n) ::
      n in bumped || (nodes[n].parent.Some? && nodes[n].parent.value in bumped) || WillRecompute(nodes, n)
  }

  // The edit changes the true matrix of every node below it, as it does unless the products happen to agree.
  ghost predicate Visible<L, M>(m: Math<L, M>, nodes: seq<Node<L, M>>, rank: seq<nat>,
                                e: nat, local: L, bumped: set<nat>)
    requires Forest(nodes, rank) && e < |nodes|
  {
    var r := Edited(nodes, e, local, bumped);
    Forest(r, rank) &&
    forall n | 0 <= n < |nodes| && OnChain(nodes, rank, e, n) :: World(m, r, rank, n) != World(m, nodes, rank, n)
  }

  lemma {:induction false} EditElsewhere<L, M>(
      m: Math<L, M>, nodes: seq<Node<L, M>>, rank: seq<nat>, e: nat, local: L, bumped: set<nat>, n: nat)
    requires Forest(nodes, rank) && e < |nodes| && n < |nodes| && !OnChain(nodes, rank, e, n)
    ensures Forest(Edited(nodes, e, local, bumped), rank)
    ensures World(m, Edited(nodes, e, local, bumped), rank, n) == World(m, nodes, rank, n)
    decreases rank[n]
  {
    if nodes[n].parent.Some? { EditElsewhere(m, nodes, rank, e, local, bumped, nodes[n].parent.value); }
  }

  // A bump makes a node and its children recompute; nothing else changes what would be recomputed.
  lemma RecomputeAfterEdit<L, M>(nodes: seq<Node<L, M>>, rank: seq<nat>, e: nat, local: L, bumped: set<nat>, n: nat)
    requires Forest(nodes, rank) && VersionsOk(nodes, rank) && e < |nodes| && n < |nodes|
    ensures WillRecompute(Edited(nodes, e, local, bumped), n) <==>
              n in bumped || (nodes[n].parent.Some? && nodes[n].parent.value in bumped) || WillRecompute(nodes, n)
  {}

  /**
   Which edits are safe. On a coherent scene, an edit that bumps its node leaves the scene coherent
   if it is covered; and if its effect is visible, only if it is covered.
   */
  lemma SafeEditExactly<L, M>(
      m: Math<L, M>, nodes: seq<Node<L, M>>, rank: seq<nat>, e: nat, local: L, bumped: set<nat>)
    requires Forest(nodes, rank) && Coherent(m, nodes, rank) && VersionsOk(nodes, rank)
    requires e < |nodes| && e in bumped
    ensures
      var r := Edited(nodes, e, local, bumped);
      && Forest(r, rank) && VersionsOk(r, rank)
      && (Covered(nodes, rank, e, bumped) ==> Coherent(m, r, rank))
      && (Visible(m, nodes, rank, e, local, bumped) && Coherent(m, r, rank) ==> Covered(nodes, rank, e, bumped))
  {
    var r := Edited(nodes, e, local, bumped);
    forall n | 0 <= n < |nodes|
      ensures WillRecompute(r, n) <==>
              n in bumped || (nodes[n].parent.Some? && nodes[n].parent.value in bumped) || WillRecompute(nodes, n)
    {
      RecomputeAfterEdit(nodes, rank, e, local, bumped, n);
    }
    if Covered(nodes, rank, e, bumped) {
      forall n | 0 <= n < |r| && !WillRecompute(r, n) ensures r[n].world == World(m, r, rank, n) {
        EditElsewhere(m, nodes, rank, e, local, bumped, n);
      }
    }
  }

  ghost predicate HasGrandchild<L, M>(nodes: seq<Node<L, M>>, e: nat) {
    exists c, g :: 0 <= c < |nodes| && 0 <= g < |nodes| && nodes[c].parent == Some(e) && nodes[g].parent == Some(c)
  }

  // Edits that bump only their own node are covered when the node has no grandchildren.
  lemma NoGrandchildrenCovered<L, M>(nodes: seq<Node<L, M>>, rank: seq<nat>, e: nat)
    requires Forest(nodes, rank) && e < |nodes| && !HasGrandchild(nodes, e)
    ensures Covered(nodes, rank, e, {e})
  {
    forall n | 0 <= n < |nodes| && OnChain(nodes, rank, e, n)
      ensures n == e || nodes[n].parent == Some(e)
    {
      if n != e { StepsBelow(nodes, rank, e, n); }
    }
  }

  lemma {:induction false} StepsBelow<L, M>(nodes: seq<Node<L, M>>, rank: seq<nat>, e: nat, n: nat)
    requires Forest(nodes, rank) && e < |nodes| && n < |nodes| && n != e && OnChain(nodes, rank, e, n)
    ensures nodes[n].parent == Some(e) || HasGrandchild(nodes, e)
    decreases rank[n]
  {
    var p := nodes[n].parent.value;
    if p != e {
      StepsBelow(nodes, rank, e, p);
      if nodes[p].parent == Some(e) { assert nodes[n].parent == Some(p); }
    }
  }

  // So are edits that also bump every node below the edited one that has children.
  lemma InnerBumpsCovered<L, M>(nodes: seq<Node<L, M>>, rank: seq<nat>, e: nat, bumped: set<nat>)
    requires Forest(nodes, rank) && e < |nodes| && e in bumped
    requires forall p, c | 0 <= p < |nodes| && 0 <= c < |nodes|
                            && nodes[c].parent == Some(p) && OnChain(nodes, rank, e, p) ::
               p in bumped
    ensures Covered(nodes, rank, e, bumped)
  {
    forall n | 0 <= n < |nodes| && OnChain(nodes, rank, e, n) && n != e
      ensures nodes[n].parent.Some? && nodes[n].parent.value in bumped
    {
      assert nodes[n].parent == Some(nodes[n].parent.value);
    }
  }

  lemma GrandchildUncovered<L, M>(nodes: seq<Node<L, M>>, rank: seq<nat>, e: nat)
    requires Forest(nodes, rank) && e < |nodes| && HasGrandchild(nodes, e)
    requires forall i | 0 <= i < |nodes| :: !WillRecompute(nodes, i)
    ensures !Covered(nodes, rank, e, {e})
  {
    var c, g :| 0 <= c < |nodes| && 0 <= g < |nodes| && nodes[c].parent == Some(e) && nodes[g].parent == Some(c);
    assert OnChain(nodes, rank, e, e) && OnChain(nodes, rank, e, c) && OnChain(nodes, rank, e, g);
  }

  /**
   The grandparent problem, exactly. When every cached matrix is up to date, a visible edit that
   bumps only its own node leaves every later update right if and only if the node has no
   grandchildren.
   */
  lemma LoneEditExactly<L, M>(m: Math<L, M>, nodes: seq<Node<L, M>>, rank: seq<nat>, e: nat, local: L)
    requires Forest(nodes, rank) && Coherent(m, nodes, rank) && VersionsOk(nodes, rank) && e < |nodes|
    requires forall i | 0 <= i < |nodes| :: !WillRecompute(nodes, i)
    requires Visible(m, nodes, rank, e, local, {e})
    ensures
      var r := Edited(nodes, e, local, {e});
      && Forest(r, rank)
      && ((forall id | 0 <= id < |r| :: Updated(m, r, rank, id)[id].world == World(m, r, rank, id)) <==>
            !HasGrandchild(nodes, e))
  {
    var r := Edited(nodes, e, local, {e});
    SafeEditExactly(m, nodes, rank, e, local, {e});
    TrustedExactly(m, r, rank);
    if HasGrandchild(nodes, e) {
      GrandchildUncovered(nodes, rank, e);
    } else {
      NoGrandchildrenCovered(nodes, rank, e);
    }
  }

  datatype Op<L> = Edit(e: nat, local: L, bumped: set<nat>) | Update(id: nat)

  ghost function Apply<L, M>(m: Math<L, M>, nodes: seq<Node<L, M>>, rank: seq<nat>, op: Op<L>): seq<Node<L, M>>
    requires Forest(nodes, rank) && (if op.Edit? then op.e else op.id) < |nodes|
  {
    match op
    case Edit(e, local, bumped) => Edited(nodes, e, local, bumped)
    case Update(id) => Updated(m, nodes, rank, id)
  }

  ghost predicate Allowed<L, M>(nodes: seq<Node<L, M>>, rank: seq<nat>, op: Op<L>)
    requires Forest(nodes, rank)
  {
    match op
    case Edit(e, _, bumped) => e < |nodes| && e in bumped && Covered(nodes, rank, e, bumped)
    case Update(id) => id < |nodes|
  }

  // states lists the scenes a run of allowed operations goes through.
  ghost predicate Scenes<L, M>(m: Math<L, M>, states: seq<seq<Node<L, M>>>, rank: seq<nat>, ops: seq<Op<L>>) {
    && |states| == |ops| + 1
    && forall i | 0 <= i < |ops| ::
         && Forest(states[i], rank) && Allowed(states[i], rank, ops[i])
         && states[i + 1] == Apply(m, states[i], rank, ops[i])
  }

  lemma CreatedCoherent<L, M>(m: Math<L, M>, nodes: seq<Node<L, M>>, rank: seq<nat>)
    requires Forest(nodes, rank) && Created(nodes)
    ensures Coherent(m, nodes, rank) && VersionsOk(nodes, rank)
  {}

  lemma UpdateVersions<L, M>(m: Math<L, M>, nodes: seq<Node<L, M>>, rank: seq<nat>, id: nat)
    requires Forest(nodes, rank) && id < |nodes| && VersionsOk(nodes, rank)
    ensures
      var r := Updated(m, nodes, rank, id);
      Forest(r, rank) && VersionsOk(r, rank)
    decreases rank[id]
  {
    UpdatedSettles(m, nodes, rank, id);
    if nodes[id].parent.Some? {
      UpdatedSettles(m, nodes, rank, nodes[id].parent.value);
      UpdateVersions(m, nodes, rank, nodes[id].parent.value);
    }
  }

  /**
   Coherence over whole runs, at any depth. From newly created nodes, through any covered edits and
   any updates in any order, each update leaves the matrices of its node and all ancestors equal to
   the plain product, and every other node as it was.
   */
  lemma UpdatesAlwaysRight<L, M>(
      m: Math<L, M>, states: seq<seq<Node<L, M>>>, rank: seq<nat>, ops: seq<Op<L>>, i: nat)
    requires Scenes(m, states, rank, ops) && i < |ops| && ops[i].Update?
    requires Forest(states[0], rank) && Created(states[0])
    ensures
      var id := ops[i].id;
      var before, after := states[i], states[i + 1];
      && Forest(before, rank) && Forest(after, rank) && SameScene(before, after)
      && (forall a | 0 <= a < |after| && OnChain(before, rank, a, id) :: after[a].world == World(m, after, rank, a))
      && (forall a | 0 <= a < |after| && !OnChain(before, rank, a, id) :: after[a] == before[a])
  {
    CreatedCoherent(m, states[0], rank);
    var k := 0;
    while k < i
      invariant k <= i && Forest(states[k], rank) && Coherent(m, states[k], rank) && VersionsOk(states[k], rank)
    {
      match ops[k] {
        case Edit(e, local, bumped) => SafeEditExactly(m, states[k], rank, e, local, bumped);
        case Update(id) =>
          UpdateKeeps(m, states[k], rank, id);
          UpdateVersions(m, states[k], rank, id);
      }
      k := k + 1;
    }
    var before, after, id := states[i], states[i + 1], ops[i].id;
    UpdatedFrame(m, before, rank, id);
    UpdatedSettles(m, before, rank, id);
    UpdatedRight(m, before, rank, id);
    forall a | 0 <= a < |after| ensures World(m, after, rank, a) == World(m, before, rank, a) {
      WorldOfScene(m, before, after, rank, a);
    }
  }

  // Matrices as words: transform gives a one-letter word, the product puts words side by side.
  const WORDS: Math<int, seq<int>> := Math((l: int) => [l], (a: seq<int>, b: seq<int>) => a + b)

  // Three nodes in a row, as created and after the last one is updated.
  const ROW_RANK: seq<nat> := [0, 1, 2]
  const ROW: seq<Node<int, seq<int>>> :=
    [Node(1, None, [], 1, 0, 0), Node(2, Some(0), [], 1, 0, 0), Node(3, Some(1), [], 1, 0, 0)]
  const ROW_UPDATED: seq<Node<int, seq<int>>> :=
    [Node(1, None, [1], 1, 1, 0), Node(2, Some(0), [1, 2], 1, 1, 1), Node(3, Some(1), [1, 2, 3], 1, 1, 1)]

  lemma RowUpdated()
    ensures Forest(ROW, ROW_RANK) && Updated(WORDS, ROW, ROW_RANK, 2) == ROW_UPDATED
  {
    assert [1] + [2] == [1, 2] && [1, 2] + [3] == [1, 2, 3];
    var n0 := Updated(WORDS, ROW, ROW_RANK, 0);
    assert n0 == ROW[0 := ROW_UPDATED[0]];
    var n1 := Updated(WORDS, ROW, ROW_RANK, 1);
    assert n1 == n0[1 := ROW_UPDATED[1]];
  }

  /**
   A run that goes wrong: update the last node of the row, edit the first, update the last again.
   Its matrix is still the old product.
   */
  lemma GrandparentEditGoesStale()
    ensures Forest(ROW, ROW_RANK) && Created(ROW)
    ensures
      var edited := Edited(Updated(WORDS, ROW, ROW_RANK, 2), 0, 9, {0});
      && Forest(edited, ROW_RANK)
      && Updated(WORDS, edited, ROW_RANK, 2)[2].world == [1, 2, 3]
      && World(WORDS, edited, ROW_RANK, 2) == [9, 2, 3]
  {
    RowUpdated();
    var e := Edited(ROW_UPDATED, 0, 9, {0});
    assert Forest(e, ROW_RANK);
    assert [9] + [2] == [9, 2] && [9, 2] + [3] == [9, 2, 3];
    assert World(WORDS, e, ROW_RANK, 0) == [9] && World(WORDS, e, ROW_RANK, 1) == [9, 2];
    UpdatedSettles(WORDS, e, ROW_RANK, 2);
    assert !WillRecompute(e, 2);
  }
}
