/**
 The frame builder of twe/core/render/frame.cpp over the current Buffer. The frustum planes' sphere
 test and the quantised depth are parameters, one answer per plane and primitive.
 */
module FrameBuilder {
  import opened Buffers
  import opened Algorithms
  import opened SortKeys
  import opened StableSorting

  datatype Primitive = Primitive(materialId: nat)
  datatype Material = Material(pipelineStateId: nat)
  datatype DrawRef = DrawRef(sortKey: nat, primitiveId: nat, passMask: nat)
  datatype PassNode = PassNode(drawStart: nat, drawCount: nat, passBit: nat)

  // The parts of RenderIR that decide a frame: rejects(j, i) is plane j's answer for primitive i.
  datatype Scene = Scene(
    primitives: seq<Primitive>, materials: seq<Material>, rejects: (nat, nat) -> bool, depth: nat -> nat)

  predicate WellFormed(scene: Scene) {
    forall i | 0 <= i < |scene.primitives| :: scene.primitives[i].materialId < |scene.materials|
  }

  // The buffer, reset when it had refused w elements, was then offered exactly these.
  ghost predicate Offered<T>(b: Buffer<T>, ys: seq<T>, w: nat)
    reads b, b.data
  {
    b.Valid() && Poured(ys, b.capacity, false, [], b.Contents(), w, b.overflowCount)
  }

  method Offer<T>(b: Buffer<T>, y: T, ghost ys: seq<T>, ghost all: seq<T>, ghost w: nat)
    requires Offered(b, ys, w) && all == ys + [y]
    modifies b`count, b`overflowCount, b.data
    ensures Offered(b, all, w)
  {
    ghost var mid, v := b.Contents(), b.overflowCount;
    var ok := b.Push(y);
    PourOn(ys, y, b.capacity, [], mid, b.Contents(), w, v, b.overflowCount, ok);
  }

  // The same while another buffer is being read.
  method OfferBeside<S, T>(input: Buffer<S>, b: Buffer<T>, y: T, ghost ys: seq<T>, ghost all: seq<T>, ghost w: nat)
    requires Offered(b, ys, w) && all == ys + [y] && input.Valid()
    requires input as object != b as object && input.data as object != b.data as object
    modifies b`count, b`overflowCount, b.data
    ensures Offered(b, all, w)
    ensures input.Valid() && input.count == old(input.count) && input.Contents() == old(input.Contents())
  {
    Offer(b, y, ys, all, w);
  }

  // ---- cull -----------------------------------------------------------------------------------

  predicate IsVisible(scene: Scene, i: nat) {
    forall j | 0 <= j < 6 :: !scene.rejects(j, i)
  }

  // The visible ones of the first n primitives, in index order.
  function VisibleBelow(scene: Scene, n: nat): seq<nat> {
    if n == 0 then [] else VisibleBelow(scene, n - 1) + if IsVisible(scene, n - 1) then [n - 1] else []
  }

  lemma {:induction false} VisibleSpec(scene: Scene, n: nat)
    ensures forall i: nat :: i in VisibleBelow(scene, n) <==> i < n && forall j | 0 <= j <= 5 :: !scene.rejects(j, i)
    ensures forall i, j | 0 <= i < j < |VisibleBelow(scene, n)| :: VisibleBelow(scene, n)[i] < VisibleBelow(scene, n)[j]
  {
    assert forall i: nat :: IsVisible(scene, i) <==> forall j | 0 <= j <= 5 :: !scene.rejects(j, i);
    if n > 0 {
      VisibleSpec(scene, n - 1);
      var before, r := VisibleBelow(scene, n - 1), VisibleBelow(scene, n);
      assert forall j | 0 <= j < |before| :: r[j] == before[j] && before[j] in before;
    }
  }

  method Rejected(scene: Scene, i: nat) returns (rejected: bool)
    ensures rejected <==> !IsVisible(scene, i)
  {
    rejected := false;
    var j := 0;
    while j < 6 && !rejected
      invariant j <= 6
      invariant rejected <==> exists k | 0 <= k < j :: scene.rejects(k, i)
    {
      if scene.rejects(j, i) { rejected := true; }
      j := j + 1;
    }
  }

  method Cull(scene: Scene, out: Buffer<nat>)
    requires out.Valid()
    modifies out`count, out`overflowCount, out.data
    ensures Offered(out, VisibleBelow(scene, |scene.primitives|), old(out.overflowCount))
  {
    ghost var w := out.overflowCount;
    out.Reset();
    var i := 0;
    while i < |scene.primitives|
      invariant i <= |scene.primitives| && Offered(out, VisibleBelow(scene, i), w)
    {
      var rejected := Rejected(scene, i);
      if !rejected { Offer(out, i, VisibleBelow(scene, i), VisibleBelow(scene, i + 1), w); }
      i := i + 1;
    }
  }

  // ---- classify -------------------------------------------------------------------------------

  function DrawOf(scene: Scene, i: nat): DrawRef {
    if i < |scene.primitives| && scene.primitives[i].materialId < |scene.materials| then
      var material := scene.primitives[i].materialId;
      DrawRef(MakeSortKey(scene.materials[material].pipelineStateId, material, scene.depth(i)), i, 1)
    else DrawRef(0, i, 1)
  }

  // d draws primitive i: in the one pass there is, keyed by pipe, material and depth, each cut to its field.
  predicate Draws(scene: Scene, i: nat, d: DrawRef)
    requires WellFormed(scene) && i < |scene.primitives|
  {
    var material := scene.primitives[i].materialId;
    var pipe := scene.materials[material].pipelineStateId;
    && d.primitiveId == i && d.passMask == 1
    && d.sortKey == Packed(pipe % 0x1_0000, material % 0x1_0000, scene.depth(i) % 0x100_0000)
  }

  lemma DrawOfDraws(scene: Scene, i: nat)
    requires WellFormed(scene) && i < |scene.primitives|
    ensures Draws(scene, i, DrawOf(scene, i))
  {
    var material := scene.primitives[i].materialId;
    KeyIsSum(scene.materials[material].pipelineStateId, material, scene.depth(i));
  }

  // The draws of the primitives named, in that order.
  function DrawsOf(scene: Scene, ids: seq<nat>): (r: seq<DrawRef>)
    ensures |r| == |ids| && forall k | 0 <= k < |ids| :: r[k] == DrawOf(scene, ids[k])
  {
    if ids == [] then [] else DrawsOf(scene, ids[..|ids| - 1]) + [DrawOf(scene, ids[|ids| - 1])]
  }

  method Draw(scene: Scene, id: nat) returns (draw: DrawRef)
    requires WellFormed(scene) && id < |scene.primitives|
    ensures draw == DrawOf(scene, id)
  {
    var material := scene.primitives[id].materialId;
    var pipe := scene.materials[material].pipelineStateId;
    var key := MakeSortKey(pipe, material, scene.depth(id));
    draw := DrawRef(key, id, 1);
  }

  method Classify(scene: Scene, visible: Buffer<nat>, draws: Buffer<DrawRef>)
    requires WellFormed(scene) && visible.Valid() && draws.Valid()
    requires forall k | 0 <= k < visible.count :: visible.Contents()[k] < |scene.primitives|
    modifies draws`count, draws`overflowCount, draws.data
    ensures visible.Valid() && visible.Contents() == old(visible.Contents())
    ensures Offered(draws, DrawsOf(scene, visible.Contents()), old(draws.overflowCount))
    ensures Classified(scene, visible.Contents(), draws.capacity, draws.Contents())
  {
    ghost var seen, w := visible.Contents(), draws.overflowCount;
    assert visible as object != draws as object && visible.data as object != draws.data as object;
    draws.Reset();
    ghost var done: seq<DrawRef> := [];
    var k := 0;
    while k < visible.count
      invariant visible.Valid() && visible.Contents() == seen && k <= |seen| == visible.count
      invariant Listed(scene, seen, k, done)
      invariant Offered(draws, done, w)
    {
      var id := visible.At(k);
      var draw := Draw(scene, id);
      ListOn(scene, seen, k, done);
      OfferBeside(visible, draws, draw, done, done + [draw], w);
      done := done + [draw];
      k := k + 1;
    }
    ListEnds(scene, seen, k, done);
    AllClassified(scene, seen, draws.capacity, draws.Contents());
  }

  // One draw for each primitive listed, in that order, as far as there is room.
  ghost predicate Classified(scene: Scene, ids: seq<nat>, room: nat, ds: seq<DrawRef>)
    requires WellFormed(scene) && forall k | 0 <= k < |ids| :: ids[k] < |scene.primitives|
  {
    && |ds| == (if |ids| <= room then |ids| else room)
    && forall k | 0 <= k < |ds| :: Draws(scene, ids[k], ds[k])
  }

  lemma AllClassified(scene: Scene, ids: seq<nat>, room: nat, ds: seq<DrawRef>)
    requires WellFormed(scene) && forall k | 0 <= k < |ids| :: ids[k] < |scene.primitives|
    requires ds == Take(room, DrawsOf(scene, ids))
    ensures Classified(scene, ids, room, ds)
  {
    forall k | 0 <= k < |ds| ensures Draws(scene, ids[k], ds[k]) { DrawOfDraws(scene, ids[k]); }
  }

  // The first k primitives of the list have their draws.
  ghost predicate Listed(scene: Scene, ids: seq<nat>, k: nat, done: seq<DrawRef>) {
    k <= |ids| && done == DrawsOf(scene, ids[..k])
  }

  lemma ListOn(scene: Scene, ids: seq<nat>, k: nat, done: seq<DrawRef>)
    requires k < |ids| && Listed(scene, ids, k, done)
    ensures Listed(scene, ids, k + 1, done + [DrawOf(scene, ids[k])])
  {
    assert ids[..k + 1][..k] == ids[..k];
  }

  lemma ListEnds(scene: Scene, ids: seq<nat>, k: nat, done: seq<DrawRef>)
    requires k == |ids| && Listed(scene, ids, k, done)
    ensures done == DrawsOf(scene, ids)
  {
    assert ids[..k] == ids;
  }

  // ---- sort -----------------------------------------------------------------------------------

  function KeyOf(d: DrawRef): int {
    d.sortKey
  }

  // In place; std::stable_sort is taken at its word.
  method Sort(draws: Buffer<DrawRef>)
    requires draws.Valid()
    modifies draws.data
    ensures draws.Valid() && draws.Contents() == Sorted(KeyOf, old(draws.Contents()))
  {
    var sorted := Sorted(KeyOf, draws.data[draws.base..draws.base + draws.count]);
    var i := 0;
    while i < draws.count
      invariant i <= draws.count == |sorted| && draws.Valid()
      invariant draws.data[draws.base..draws.base + i] == sorted[..i]
    {
      draws.data[draws.base + i] := sorted[i];
      i := i + 1;
    }
  }

  // Draw a goes before draw b: by pipe, material and depth, each cut to its field, and then by primitive index.
  ghost predicate Before(scene: Scene, a: nat, b: nat)
    requires WellFormed(scene) && a < |scene.primitives| && b < |scene.primitives|
  {
    var x, y := scene.primitives[a].materialId, scene.primitives[b].materialId;
    var p, q := scene.materials[x].pipelineStateId % 0x1_0000, scene.materials[y].pipelineStateId % 0x1_0000;
    var m, n := x % 0x1_0000, y % 0x1_0000;
    var d, e := scene.depth(a) % 0x100_0000, scene.depth(b) % 0x100_0000;
    LexLess(p, m, d, q, n, e) || (p == q && m == n && d == e && a < b)
  }

  // Ascending by key and, within a key, by primitive index.
  ghost predicate InOrder(ds: seq<DrawRef>) {
    forall i, j | 0 <= i < j < |ds| :: KeyedBefore(ds[i], ds[j])
  }

  // Draw a comes before draw b by key, then by primitive index.
  predicate KeyedBefore(a: DrawRef, b: DrawRef) {
    a.sortKey < b.sortKey || (a.sortKey == b.sortKey && a.primitiveId < b.primitiveId)
  }

  lemma {:induction false} InsertInOrder(ds: seq<DrawRef>, x: DrawRef)
    requires InOrder(ds) && forall i | 0 <= i < |ds| :: ds[i].primitiveId < x.primitiveId
    ensures InOrder(Insert(KeyOf, ds, x))
    decreases |ds|
  {
    var r := Insert(KeyOf, ds, x);
    if ds == [] || KeyOf(ds[|ds| - 1]) <= KeyOf(x) {
      assert r[..|ds|] == ds && r[|ds|] == x;
      forall i | 0 <= i < |ds| ensures KeyedBefore(r[i], x) {
        if i < |ds| - 1 { assert KeyedBefore(ds[i], ds[|ds| - 1]); }
      }
    } else {
      var n := |ds| - 1;
      InsertInOrder(ds[..n], x);
      InsertMembers(ds[..n], x);
      assert r[..|ds|] == Insert(KeyOf, ds[..n], x) && r[|ds|] == ds[n];
      forall i | 0 <= i < |ds| ensures KeyedBefore(r[i], ds[n]) {
        assert r[i] in Insert(KeyOf, ds[..n], x);
      }
    }
  }

  lemma {:induction false} InsertMembers(ds: seq<DrawRef>, x: DrawRef)
    ensures forall e :: e in Insert(KeyOf, ds, x) <==> e in ds || e == x
    decreases |ds|
  {
    if !(ds == [] || KeyOf(ds[|ds| - 1]) <= KeyOf(x)) { InsertMembers(ds[..|ds| - 1], x); }
  }

  // Sorting what stands in primitive order breaks ties by primitive index.
  lemma {:induction false} SortInOrder(ds: seq<DrawRef>)
    requires forall i, j | 0 <= i < j < |ds| :: ds[i].primitiveId < ds[j].primitiveId
    ensures InOrder(Sorted(KeyOf, ds))
    ensures forall e :: e in Sorted(KeyOf, ds) <==> e in ds
    decreases |ds|
  {
    if ds != [] {
      var n := |ds| - 1;
      SortInOrder(ds[..n]);
      var r := Sorted(KeyOf, ds[..n]);
      forall i | 0 <= i < |r| ensures r[i].primitiveId < ds[n].primitiveId {
        assert r[i] in r && r[i] in ds[..n];
      }
      assert ds == ds[..n] + [ds[n]];
      InsertInOrder(r, ds[n]);
      InsertMembers(r, ds[n]);
    }
  }

  // These draws are exactly those of the primitives listed, each once, ordered by pipe, material,
  // depth and primitive index.
  ghost predicate DrawnInOrder(scene: Scene, ids: seq<nat>, ds: seq<DrawRef>)
    requires WellFormed(scene) && forall i | i in ids :: i < |scene.primitives|
  {
    && |ds| == |ids|
    && (forall k | 0 <= k < |ds| :: ds[k].primitiveId in ids && Draws(scene, ds[k].primitiveId, ds[k]))
    && (forall i | i in ids :: exists k | 0 <= k < |ds| :: ds[k].primitiveId == i)
    && (forall k, l | 0 <= k < l < |ds| :: Before(scene, ds[k].primitiveId, ds[l].primitiveId))
  }

  /**
   The draw list of a frame with room for n of the visible primitives: exactly the first n of them, in
   draw order.
   */
  lemma FrameOrder(scene: Scene, n: nat)
    requires WellFormed(scene) && n <= |VisibleBelow(scene, |scene.primitives|)|
    ensures
      var ids := VisibleBelow(scene, |scene.primitives|)[..n];
      && (forall i | i in ids :: i < |scene.primitives| && forall j | 0 <= j <= 5 :: !scene.rejects(j, i))
      && DrawnInOrder(scene, ids, Sorted(KeyOf, DrawsOf(scene, ids)))
  {
    VisiblePrefix(scene, n);
    SortedDraws(scene, VisibleBelow(scene, |scene.primitives|)[..n]);
  }

  lemma VisiblePrefix(scene: Scene, n: nat)
    requires n <= |VisibleBelow(scene, |scene.primitives|)|
    ensures
      var ids := VisibleBelow(scene, |scene.primitives|)[..n];
      && (forall i | i in ids :: i < |scene.primitives| && IsVisible(scene, i))
      && (forall i, j | 0 <= i < j < |ids| :: ids[i] < ids[j])
  {
    var ids := VisibleBelow(scene, |scene.primitives|);
    VisibleSpec(scene, |scene.primitives|);
    forall i | i in ids[..n] ensures i < |scene.primitives| && IsVisible(scene, i) {
      assert i in ids;
    }
  }

  lemma SortedDraws(scene: Scene, ids: seq<nat>)
    requires WellFormed(scene) && forall i | i in ids :: i < |scene.primitives|
    requires forall i, j | 0 <= i < j < |ids| :: ids[i] < ids[j]
    ensures DrawnInOrder(scene, ids, Sorted(KeyOf, DrawsOf(scene, ids)))
  {
    var list := DrawsOf(scene, ids);
    var ds := Sorted(KeyOf, list);
    SortInOrder(list);
    forall k | 0 <= k < |ds|
      ensures ds[k].primitiveId in ids && ds[k] == DrawOf(scene, ds[k].primitiveId)
      ensures Draws(scene, ds[k].primitiveId, ds[k])
    {
      assert ds[k] in list;
      ListedDraw(scene, ids, ds[k]);
      DrawOfDraws(scene, ds[k].primitiveId);
    }
    forall i | i in ids ensures exists k | 0 <= k < |ds| :: ds[k].primitiveId == i {
      DrawListed(scene, ids, i);
      var k :| 0 <= k < |ds| && ds[k] == DrawOf(scene, i);
      DrawOfDraws(scene, i);
    }
    OrderedBefore(scene, ds);
  }

  lemma OrderedBefore(scene: Scene, ds: seq<DrawRef>)
    requires WellFormed(scene) && InOrder(ds)
    requires forall k | 0 <= k < |ds| ::
               ds[k].primitiveId < |scene.primitives| && ds[k] == DrawOf(scene, ds[k].primitiveId)
    ensures forall k, l | 0 <= k < l < |ds| :: Before(scene, ds[k].primitiveId, ds[l].primitiveId)
  {
    forall k, l | 0 <= k < l < |ds| ensures Before(scene, ds[k].primitiveId, ds[l].primitiveId) {
      KeysDecide(scene, ds[k].primitiveId, ds[l].primitiveId);
    }
  }

  lemma ListedDraw(scene: Scene, ids: seq<nat>, d: DrawRef)
    requires d in DrawsOf(scene, ids)
    ensures d.primitiveId in ids && d == DrawOf(scene, d.primitiveId)
  {
    var k :| 0 <= k < |ids| && DrawsOf(scene, ids)[k] == d;
    assert ids[k] in ids;
  }

  lemma DrawListed(scene: Scene, ids: seq<nat>, i: nat)
    requires i in ids
    ensures DrawOf(scene, i) in DrawsOf(scene, ids)
  {
    var k :| 0 <= k < |ids| && ids[k] == i;
    assert DrawsOf(scene, ids)[k] == DrawOf(scene, i);
  }

  lemma KeysDecide(scene: Scene, a: nat, b: nat)
    requires WellFormed(scene) && a < |scene.primitives| && b < |scene.primitives|
    ensures Before(scene, a, b) <==>
              || DrawOf(scene, a).sortKey < DrawOf(scene, b).sortKey
              || (DrawOf(scene, a).sortKey == DrawOf(scene, b).sortKey && a < b)
  {
    var x, y := scene.primitives[a].materialId, scene.primitives[b].materialId;
    KeyOrder(scene.materials[x].pipelineStateId, x, scene.depth(a),
             scene.materials[y].pipelineStateId, y, scene.depth(b));
  }

  // ---- bin ------------------------------------------------------------------------------------

  // The runs of equal pass masks, as passes.
  function RunsOf(ds: seq<DrawRef>): (r: seq<PassNode>)
    ensures |r| > 0 <==> ds != []
  {
    if ds == [] then []
    else
      Extended(RunsOf(ds[..|ds| - 1]), |ds| - 1, ds[|ds| - 1].passMask)
  }

  // Draw n, of this mask, joins the last run or starts one.
  function Extended(runs: seq<PassNode>, n: nat, mask: nat): (r: seq<PassNode>)
    ensures r != []
  {
    var m := |runs| - 1;
    if m >= 0 && runs[m].passBit == mask then runs[..m] + [runs[m].(drawCount := runs[m].drawCount + 1)]
    else runs + [PassNode(n, 1, mask)]
  }

  method Bin(draws: Buffer<DrawRef>, passes: Buffer<PassNode>)
    requires draws.Valid() && passes.Valid()
    modifies passes`count, passes`overflowCount, passes.data
    ensures draws.Valid() && draws.Contents() == old(draws.Contents())
    ensures Offered(passes, RunsOf(old(draws.Contents())), old(passes.overflowCount))
  {
    ghost var ds, w := draws.Contents(), passes.overflowCount;
    assert draws as object != passes as object && draws.data as object != passes.data as object;
    passes.Reset();
    if draws.count == 0 { return; }
    var rangeStart := 0;
    var currentPass := draws.At(0).passMask;
    ghost var closed := [];
    var i := 0;
    while i < draws.count
      invariant draws.Valid() && draws.Contents() == ds && |ds| == draws.count
      invariant i <= |ds| && Scanned(ds, i, closed, rangeStart, currentPass)
      invariant Offered(passes, closed, w)
    {
      var mask := draws.At(i).passMask;
      ScanOn(ds, i, closed, rangeStart, currentPass, mask);
      if mask != currentPass {
        var pass := PassNode(rangeStart, i - rangeStart, currentPass);
        OfferBeside(draws, passes, pass, closed, closed + [pass], w);
        closed := closed + [pass];
        rangeStart := i;
        currentPass := mask;
      }
      i := i + 1;
    }
    var pass := PassNode(rangeStart, draws.count - rangeStart, currentPass);
    ScanEnds(ds, i, closed, pass);
    OfferBeside(draws, passes, pass, closed, RunsOf(ds), w);
  }

  // After i draws: the runs closed so far, and where the open one starts and its mask.
  ghost predicate Scanned(ds: seq<DrawRef>, i: nat, closed: seq<PassNode>, start: nat, mask: nat)
    requires 0 < |ds| && i <= |ds|
  {
    if i == 0 then closed == [] && start == 0 && mask == ds[0].passMask
    else start < i && RunsOf(ds[..i]) == closed + [PassNode(start, i - start, mask)]
  }

  lemma ScanOn(ds: seq<DrawRef>, i: nat, closed: seq<PassNode>, start: nat, mask: nat, next: nat)
    requires i < |ds| && next == ds[i].passMask && Scanned(ds, i, closed, start, mask)
    ensures next == mask ==> Scanned(ds, i + 1, closed, start, mask)
    ensures next != mask ==> start < i && Scanned(ds, i + 1, closed + [PassNode(start, i - start, mask)], i, next)
  {
    assert ds[..i + 1][..i] == ds[..i];
    if i > 0 {
      var runs := closed + [PassNode(start, i - start, mask)];
      assert RunsOf(ds[..i + 1]) == Extended(runs, i, next);
      assert runs[..|runs| - 1] == closed;
    }
  }

  lemma ScanEnds(ds: seq<DrawRef>, i: nat, closed: seq<PassNode>, pass: PassNode)
    requires ds != [] && i == |ds| == EndOf(pass) && Scanned(ds, i, closed, pass.drawStart, pass.passBit)
    ensures RunsOf(ds) == closed + [pass]
  {
    assert ds[..i] == ds;
  }

  // Pass k starts where the one before ends, is not empty, holds draws of its own mask only, and
  // differs from the one before.
  ghost predicate PassFits(passes: seq<PassNode>, ds: seq<DrawRef>, k: nat)
    requires k < |passes|
  {
    && passes[k].drawCount > 0 && EndOf(passes[k]) <= |ds|
    && (if k == 0 then passes[k].drawStart == 0
        else passes[k].drawStart == EndOf(passes[k - 1]) && passes[k].passBit != passes[k - 1].passBit)
    && forall i | passes[k].drawStart <= i < EndOf(passes[k]) :: ds[i].passMask == passes[k].passBit
  }

  function EndOf(p: PassNode): nat {
    p.drawStart + p.drawCount
  }

  // The passes tile the draws, from 0 to the end.
  ghost predicate Tiles(passes: seq<PassNode>, ds: seq<DrawRef>) {
    && (forall k | 0 <= k < |passes| :: PassFits(passes, ds, k))
    && (if passes == [] then ds == [] else EndOf(passes[|passes| - 1]) == |ds|)
  }

  // A pass that fits goes on fitting whatever comes after it.
  lemma FitsStill(a: seq<PassNode>, b: seq<PassNode>, ds: seq<DrawRef>, es: seq<DrawRef>, k: nat)
    requires k < |a| && k < |b| && a[..k + 1] == b[..k + 1] && PassFits(a, ds, k)
    requires EndOf(a[k]) <= |es|
    requires forall i | 0 <= i < |ds| && i < |es| :: ds[i] == es[i]
    ensures PassFits(b, es, k)
  {
    assert a[k] == a[..k + 1][k] && b[k] == b[..k + 1][k];
    if k > 0 { assert a[k - 1] == a[..k + 1][k - 1] && b[k - 1] == b[..k + 1][k - 1]; }
  }

  lemma {:induction false} RunsTile(ds: seq<DrawRef>)
    ensures Tiles(RunsOf(ds), ds)
    decreases |ds|
  {
    if ds != [] {
      var n := |ds| - 1;
      var front := ds[..n];
      RunsTile(front);
      var before, r := RunsOf(front), RunsOf(ds);
      var m := |r| - 1;
      LastFits(before, ds);
      forall k | 0 <= k < m ensures PassFits(r, ds, k) {
        assert r[..k + 1] == r[..m][..k + 1] == before[..k + 1];
        EndsWithin(before, front, k);
        FitsStill(before, r, front, ds, k);
      }
    }
  }

  lemma EndsWithin(passes: seq<PassNode>, ds: seq<DrawRef>, k: nat)
    requires k < |passes| && PassFits(passes, ds, k)
    ensures EndOf(passes[k]) <= |ds|
  {}

  lemma LastFits(before: seq<PassNode>, ds: seq<DrawRef>)
    requires ds != [] && Tiles(before, ds[..|ds| - 1])
    ensures
      var r := Extended(before, |ds| - 1, ds[|ds| - 1].passMask);
      PassFits(r, ds, |r| - 1) && EndOf(r[|r| - 1]) == |ds| && r[..|r| - 1] == before[..|r| - 1]
  {
    var n := |ds| - 1;
    var front := ds[..n];
    var r := Extended(before, n, ds[n].passMask);
    if before != [] {
      assert PassFits(before, front, |before| - 1);
      assert forall i | 0 <= i < n :: front[i] == ds[i];
    }
  }

  // There is no other tiling.
  lemma {:induction false} TilesUnique(passes: seq<PassNode>, ds: seq<DrawRef>)
    requires Tiles(passes, ds)
    ensures passes == RunsOf(ds)
    decreases |ds|
  {
    if passes != [] {
      var n, m := |ds| - 1, |passes| - 1;
      var last := passes[m];
      assert PassFits(passes, ds, m);
      assert ds[n].passMask == last.passBit;
      var shorter := ShortenedLast(passes);
      ShorterTiles(passes, ds);
      TilesUnique(shorter, ds[..n]);
      ExtendShortened(passes, ds);
    } else {
      assert ds == [];
    }
  }

  // The tiling of one draw less: the last pass loses its last draw, or goes if that was its only one.
  function ShortenedLast(passes: seq<PassNode>): seq<PassNode>
    requires passes != [] && passes[|passes| - 1].drawCount > 0
  {
    var m := |passes| - 1;
    passes[..m] + if passes[m].drawCount == 1 then [] else [passes[m].(drawCount := passes[m].drawCount - 1)]
  }

  lemma ExtendShortened(passes: seq<PassNode>, ds: seq<DrawRef>)
    requires Tiles(passes, ds) && passes != [] && ds != [] && PassFits(passes, ds, |passes| - 1)
    ensures Extended(ShortenedLast(passes), |ds| - 1, ds[|ds| - 1].passMask) == passes
  {
    var m := |passes| - 1;
    var shorter := ShortenedLast(passes);
    assert passes == passes[..m] + [passes[m]];
    if passes[m].drawCount == 1 {
      assert shorter == passes[..m];
    } else {
      assert shorter[..m] == passes[..m];
    }
  }

  lemma ShorterTiles(passes: seq<PassNode>, ds: seq<DrawRef>)
    requires Tiles(passes, ds) && passes != [] && PassFits(passes, ds, |passes| - 1)
    ensures ds != [] && Tiles(ShortenedLast(passes), ds[..|ds| - 1])
  {
    var m, n := |passes| - 1, |ds| - 1;
    var shorter := ShortenedLast(passes);
    forall k | 0 <= k < m ensures PassFits(shorter, ds[..n], k) {
      PassesApart(passes, ds, k, m);
      assert shorter[..k + 1] == passes[..k + 1];
      FitsStill(passes, shorter, ds, ds[..n], k);
    }
    if m > 0 { assert PassFits(passes, ds, m - 1); }
  }

  lemma {:induction false} OnePass(ds: seq<DrawRef>)
    requires ds != [] && forall i | 0 <= i < |ds| :: ds[i].passMask == 1
    ensures RunsOf(ds) == [PassNode(0, |ds|, 1)]
  {
    var passes := [PassNode(0, |ds|, 1)];
    assert PassFits(passes, ds, 0);
    TilesUnique(passes, ds);
  }

  // So each draw is in exactly one pass, of its own mask.
  lemma {:induction false} OnePassEach(passes: seq<PassNode>, ds: seq<DrawRef>, i: nat)
    requires Tiles(passes, ds) && i < |ds|
    ensures exists k | 0 <= k < |passes| ::
              && passes[k].drawStart <= i < EndOf(passes[k]) && ds[i].passMask == passes[k].passBit
              && forall l | 0 <= l < |passes| && l != k :: !(passes[l].drawStart <= i < EndOf(passes[l]))
  {
    var k := 0;
    assert PassFits(passes, ds, 0);
    while EndOf(passes[k]) <= i
      invariant k < |passes| && passes[k].drawStart <= i
      decreases |passes| - k
    {
      assert PassFits(passes, ds, k + 1);
      k := k + 1;
    }
    assert PassFits(passes, ds, k);
    forall l | 0 <= l < |passes| && l != k ensures !(passes[l].drawStart <= i < EndOf(passes[l])) {
      if l < k { PassesApart(passes, ds, l, k); } else { PassesApart(passes, ds, k, l); }
    }
  }

  lemma {:induction false} PassesApart(passes: seq<PassNode>, ds: seq<DrawRef>, a: nat, b: nat)
    requires Tiles(passes, ds) && a < b < |passes|
    ensures EndOf(passes[a]) <= passes[b].drawStart
    decreases b
  {
    assert PassFits(passes, ds, b) && PassFits(passes, ds, b - 1);
    if a < b - 1 { PassesApart(passes, ds, a, b - 1); }
  }

  // ---- The whole frame ------------------------------------------------------------------------

  function Min(a: nat, b: nat): nat {
    if a < b then a else b
  }

  // How many of the visible primitives get drawn: as many as both buffers hold.
  function Drawn(scene: Scene, visibleRoom: nat, drawRoom: nat): (n: nat)
    ensures n <= |VisibleBelow(scene, |scene.primitives|)|
  {
    Min(Min(visibleRoom, drawRoom), |VisibleBelow(scene, |scene.primitives|)|)
  }

  lemma FirstDrawn(scene: Scene, visibleRoom: nat, drawRoom: nat)
    ensures
      var ids := VisibleBelow(scene, |scene.primitives|);
      Take(drawRoom, DrawsOf(scene, Take(visibleRoom, ids)))
      == DrawsOf(scene, ids[..Drawn(scene, visibleRoom, drawRoom)])
  {}

  lemma OfferedTake<T>(b: Buffer<T>, ys: seq<T>, w: nat)
    requires Offered(b, ys, w)
    ensures b.Contents() == Take(b.capacity, ys)
  {}

  method CullAndClassify(scene: Scene, visible: Buffer<nat>, draws: Buffer<DrawRef>)
    requires WellFormed(scene) && visible.Valid() && draws.Valid()
    modifies visible`count, visible`overflowCount, visible.data
    modifies draws`count, draws`overflowCount, draws.data
    ensures draws.Valid()
    ensures draws.Contents() ==
            DrawsOf(scene, VisibleBelow(scene, |scene.primitives|)[..Drawn(scene, visible.capacity, draws.capacity)])
  {
    assert visible as object != draws as object && visible.data as object != draws.data as object;
    ghost var v := visible.overflowCount;
    Cull(scene, visible);
    ghost var ids := VisibleBelow(scene, |scene.primitives|);
    OfferedTake(visible, ids, v);
    ghost var seen := visible.Contents();
    CulledInRange(scene, visible.capacity, seen);
    assert |seen| == visible.count;
    ghost var w := draws.overflowCount;
    Classify(scene, visible, draws);
    OfferedTake(draws, DrawsOf(scene, seen), w);
    FirstDrawn(scene, visible.capacity, draws.capacity);
  }

  lemma CulledInRange(scene: Scene, room: nat, seen: seq<nat>)
    requires seen == Take(room, VisibleBelow(scene, |scene.primitives|))
    ensures forall k | 0 <= k < |seen| :: seen[k] < |scene.primitives|
  {
    var ids := VisibleBelow(scene, |scene.primitives|);
    VisibleSpec(scene, |scene.primitives|);
    forall k | 0 <= k < |seen| ensures seen[k] < |scene.primitives| {
      assert seen[k] == ids[k] && ids[k] in ids;
    }
  }

  /**
   cull, classify, sort and bin in turn, for buffers of any capacity: the draws are the first visible
   primitives that fit, in draw order, and the passes tile them: there is one pass over all draws, if
   there are any and there is room for it.
   */
  method BuildFrame(scene: Scene, visible: Buffer<nat>, draws: Buffer<DrawRef>, passes: Buffer<PassNode>)
    requires WellFormed(scene) && visible.Valid() && draws.Valid() && passes.Valid()
    modifies visible`count, visible`overflowCount, visible.data
    modifies draws`count, draws`overflowCount, draws.data
    modifies passes`count, passes`overflowCount, passes.data
    ensures draws.Valid() && passes.Valid()
    ensures
      var ids := VisibleBelow(scene, |scene.primitives|)[..Drawn(scene, visible.capacity, draws.capacity)];
      (forall i | i in ids :: i < |scene.primitives|) && DrawnInOrder(scene, ids, draws.Contents())
    ensures passes.capacity > 0 ==> Tiles(passes.Contents(), draws.Contents())
    ensures passes.Contents() ==
            if draws.count == 0 || passes.capacity == 0 then [] else [PassNode(0, draws.count, 1)]
  {
    CullAndClassify(scene, visible, draws);
    FrameOrder(scene, Drawn(scene, visible.capacity, draws.capacity));
    Sort(draws);
    ghost var ds, w := draws.Contents(), passes.overflowCount;
    Bin(draws, passes);
    OfferedTake(passes, RunsOf(ds), w);
    RunsTile(ds);
    if ds != [] { OnePass(ds); }
  }
}
