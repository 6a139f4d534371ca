/**
 The whole-range algorithms of twe/core/algo/next.h, which stop at the first refused push, and of
 twe/core/algo/algo.h, which go on; and the fused forms of pipeline stages.
 */
module Algorithms {
  import opened Buffers
  import opened Pipeline

  // ---- Fused stages ---------------------------------------------------------------------------

  // map | map as one map.
  lemma {:induction false} MapMapFuses<V>(f: V -> V, g: V -> V, xs: seq<V>)
    ensures Staged([Map(v => g(f(v)))], xs) == Staged([Map(f), Map(g)], xs)
  {
    OneStage(Map(v => g(f(v))), xs);
    TwoStages(Map(f), Map(g), xs);
    ComposedMap(f, g, xs);
  }

  lemma {:induction false} ComposedMap<V>(f: V -> V, g: V -> V, xs: seq<V>)
    ensures Mapped(v => g(f(v)), xs) == Mapped(g, Mapped(f, xs))
    decreases |xs|
  {
    if xs != [] {
      var n := |xs| - 1;
      ComposedMap(f, g, xs[..n]);
      assert Mapped(f, xs)[..n] == Mapped(f, xs[..n]);
    }
  }

  // filter | filter as one filter.
  lemma {:induction false} FilterFilterFuses<V>(p: V -> bool, q: V -> bool, xs: seq<V>)
    ensures Staged([Filter(v => p(v) && q(v))], xs) == Staged([Filter(p), Filter(q)], xs)
  {
    OneStage(Filter(v => p(v) && q(v)), xs);
    TwoStages(Filter(p), Filter(q), xs);
    ComposedFilter(p, q, xs);
  }

  lemma {:induction false} ComposedFilter<V>(p: V -> bool, q: V -> bool, xs: seq<V>)
    ensures Filtered(v => p(v) && q(v), xs) == Filtered(q, Filtered(p, xs))
    decreases |xs|
  {
    if xs != [] {
      var n := |xs| - 1;
      ComposedFilter(p, q, xs[..n]);
      if p(xs[n]) {
        assert Filtered(p, xs)[..|Filtered(p, xs)| - 1] == Filtered(p, xs[..n]);
      } else {
        assert Filtered(p, xs) == Filtered(p, xs[..n]);
      }
    }
  }

  lemma OneStage<V>(op: Op<V>, xs: seq<V>)
    ensures Staged([op], xs) == Stage(op, xs)
  {
    assert [op][1..] == [];
  }

  lemma TwoStages<V>(a: Op<V>, b: Op<V>, xs: seq<V>)
    ensures Staged([a, b], xs) == Stage(b, Stage(a, xs))
  {
    assert [a, b][1..] == [b];
    OneStage(b, Stage(a, xs));
  }

  // Where the fused stage takes one element, and what it makes of it.
  lemma FusedOne<V>(pre: seq<Op<V>>, f: V -> V, p: V -> bool, g: V -> V, x: V)
    ensures
      var ys := Staged(pre, [x]);
      && |ys| <= 1
      && Staged(pre + [MapFilterMap(f, p, g)], [x]) == if ys != [] && p(f(ys[0])) then [g(f(ys[0]))] else []
  {
    var one := MapFilterMap(f, p, g);
    var ys := Staged(pre, [x]);
    StagedOne(pre, x);
    ComposeStages(pre, [one], [x]);
    OneStage(one, ys);
    if ys == [] {
      assert Stage(one, ys) == [];
    } else {
      assert ys == [ys[0]];
      StagesOfOne(one, ys[0]);
    }
  }

  // The fused stage does what the three stages do in turn.
  lemma FusedIsThree<V>(pre: seq<Op<V>>, f: V -> V, p: V -> bool, g: V -> V, xs: seq<V>)
    ensures Staged(pre + [MapFilterMap(f, p, g)], xs) == Staged(pre + [Map(f), Filter(p), Map(g)], xs)
  {
    var one, three := MapFilterMap(f, p, g), [Map(f), Filter(p), Map(g)];
    var ys := Staged(pre, xs);
    ComposeStages(pre, [one], xs);
    ComposeStages(pre, three, xs);
    OneStage(one, ys);
    assert three[1..] == [Filter(p), Map(g)];
    TwoStages(Filter(p), Map(g), Mapped(f, ys));
  }

  // If element x reaches the fused stage and passes it, the later stages leave its result as it is.
  ghost predicate Spared<V>(pre: seq<Op<V>>, f: V -> V, p: V -> bool, g: V -> V, rest: seq<Op<V>>, x: V) {
    var ys := Staged(pre, [x]);
    ys != [] && p(f(ys[0])) ==> Staged(rest, [g(f(ys[0]))]) == [g(f(ys[0]))]
  }

  // What takes effect: the fused stage ends its pipeline, plain stages do not.
  lemma FusedEnds<V>(pre: seq<Op<V>>, one: seq<Op<V>>, rest: seq<Op<V>>)
    requires |one| == 1 && one[0].MapFilterMap?
    ensures Effective(pre + one + rest) == if Plain(pre) then pre + one else Effective(pre)
  {
    EffectiveBetween(pre, one, rest);
    assert (one + rest)[..1] == one && (one + rest)[0] == one[0];
  }

  lemma PlainGoesOn<V>(pre: seq<Op<V>>, mid: seq<Op<V>>, rest: seq<Op<V>>)
    requires Plain(mid)
    ensures Effective(pre + mid + rest) == if Plain(pre) then pre + mid + Effective(rest) else Effective(pre)
  {
    EffectiveBetween(pre, mid, rest);
    EffectiveConcat(mid, rest);
    Regroup(pre, mid, Effective(rest));
  }

  lemma Regroup<T>(a: seq<T>, b: seq<T>, c: seq<T>)
    ensures a + (b + c) == a + b + c
  {}

  lemma EffectiveBetween<V>(pre: seq<Op<V>>, mid: seq<Op<V>>, rest: seq<Op<V>>)
    ensures Effective(pre + mid + rest) == if Plain(pre) then pre + Effective(mid + rest) else Effective(pre)
  {
    Regroup(pre, mid, rest);
    EffectiveConcat(pre, mid + rest);
  }

  /**
   The fused map-filter-map stage. With anything before and after it, the fused pipeline gives what
   the unfused one gives on an input exactly when an earlier fused stage cuts both off, or each
   element of the input that gets through the stage would be left as it is by the later ones. So the
   two always agree when the stage comes last.
   */
  lemma FusedExactly<V>(pre: seq<Op<V>>, f: V -> V, p: V -> bool, g: V -> V, rest: seq<Op<V>>, xs: seq<V>)
    ensures
      var fused := pre + [MapFilterMap(f, p, g)] + rest;
      var unfused := pre + [Map(f), Filter(p), Map(g)] + rest;
      && (Staged(Effective(fused), xs) == Staged(Effective(unfused), xs) <==>
            !Plain(pre) || forall i | 0 <= i < |xs| :: Spared(pre, f, p, g, Effective(rest), xs[i]))
      && (rest == [] ==> Staged(Effective(fused), xs) == Staged(Effective(unfused), xs))
  {
    FusedEnds(pre, [MapFilterMap(f, p, g)], rest);
    PlainGoesOn(pre, [Map(f), Filter(p), Map(g)], rest);
    if Plain(pre) {
      ComposeStages(pre + [Map(f), Filter(p), Map(g)], Effective(rest), xs);
      FusedIsThree(pre, f, p, g, xs);
      SparedAll(pre, f, p, g, Effective(rest), xs);
    }
  }

  // Later stages change nothing of what the fused stage lets out exactly when they spare every element.
  lemma SparedAll<V>(pre: seq<Op<V>>, f: V -> V, p: V -> bool, g: V -> V, rest: seq<Op<V>>, xs: seq<V>)
    ensures
      var out := Staged(pre + [MapFilterMap(f, p, g)], xs);
      Staged(rest, out) == out <==> forall i | 0 <= i < |xs| :: Spared(pre, f, p, g, rest, xs[i])
  {
    var upTo := pre + [MapFilterMap(f, p, g)];
    LeavesAll(upTo, rest, xs);
    StagedNothing(rest);
    forall i | 0 <= i < |xs| ensures LeavesResult(upTo, rest, xs[i]) <==> Spared(pre, f, p, g, rest, xs[i]) {
      FusedOne(pre, f, p, g, xs[i]);
    }
  }

  function Same(x: int): int { x }

  predicate Always(x: int) { true }

  predicate Never(x: int) { false }

  // What is composed after the fused stage is lost: here a filter that should let nothing through.
  lemma FusedInsideLosesStages()
    ensures
      var fused := [MapFilterMap(Same, Always, Same), Filter(Never)];
      var unfused := [Map(Same), Filter(Always), Map(Same), Filter(Never)];
      Staged(Effective(fused), [7]) == [7] && Staged(Effective(unfused), [7]) == []
  {
    var three := [Map(Same), Filter(Always), Map(Same)];
    FusedEnds([], [MapFilterMap(Same, Always, Same)], [Filter(Never)]);
    assert [MapFilterMap(Same, Always, Same), Filter(Never)]
        == [] + [MapFilterMap(Same, Always, Same)] + [Filter(Never)];
    assert [] + [MapFilterMap(Same, Always, Same)] == [MapFilterMap(Same, Always, Same)];
    OneStage(MapFilterMap(Same, Always, Same), [7]);
    StagesOfOne(MapFilterMap(Same, Always, Same), 7);
    var unfused := [Map(Same), Filter(Always), Map(Same), Filter(Never)];
    assert unfused == three + [Filter(Never)];
    PlainEffective(unfused);
    ComposeStages(three, [Filter(Never)], [7]);
    OneStage(Filter(Never), Staged(three, [7]));
    NothingPasses(Staged(three, [7]));
  }

  lemma {:induction false} NothingPasses(ys: seq<int>)
    ensures Filtered(Never, ys) == []
    decreases |ys|
  {
    if ys != [] { NothingPasses(ys[..|ys| - 1]); }
  }

  // ---- Loops that push their results one by one ------------------------------------------------

  // The results of an input cut after its i-th element, for a map and for a filter.
  lemma MappedUpTo<A, B>(f: A -> B, input: seq<A>, i: nat)
    requires i < |input|
    ensures Mapped(f, input[..i + 1]) == Mapped(f, input[..i]) + [f(input[i])]
  {
    assert input[..i + 1][..i] == input[..i];
  }

  lemma CutAt<T>(xs: seq<T>, i: nat)
    requires i <= |xs|
    ensures xs == xs[..i] + xs[i..]
  {}

  lemma MappedParts<A, B>(f: A -> B, whole: seq<A>, front: seq<A>, back: seq<A>)
    requires whole == front + back
    ensures Mapped(f, whole) == Mapped(f, front) + Mapped(f, back)
  {
    MappedConcat(f, front, back);
  }

  lemma MappedSplit<A, B>(f: A -> B, input: seq<A>, i: nat)
    requires i < |input|
    ensures Mapped(f, input[..i + 1]) == Mapped(f, input[..i]) + [f(input[i])]
    ensures Mapped(f, input) == Mapped(f, input[..i]) + [f(input[i])] + Mapped(f, input[i + 1..])
  {
    MappedUpTo(f, input, i);
    CutAt(input, i + 1);
    MappedParts(f, input, input[..i + 1], input[i + 1..]);
  }

  lemma MappedAt<A, B>(f: A -> B, input: seq<A>, i: nat)
    requires i < |input|
    ensures Mapped(f, input)[i] == f(input[i])
  {
    MappedSplit(f, input, i);
  }

  // One element's part of a filter's result.
  function Kept<V>(p: V -> bool, x: V): seq<V> {
    if p(x) then [x] else []
  }

  lemma FilteredUpTo<V>(p: V -> bool, input: seq<V>, i: nat)
    requires i < |input|
    ensures Filtered(p, input[..i + 1]) == Filtered(p, input[..i]) + Kept(p, input[i])
  {
    assert input[..i + 1][..i] == input[..i];
  }

  lemma FilteredParts<V>(p: V -> bool, whole: seq<V>, front: seq<V>, back: seq<V>)
    requires whole == front + back
    ensures Filtered(p, whole) == Filtered(p, front) + Filtered(p, back)
  {
    FilteredConcat(p, front, back);
  }

  lemma FilteredSplit<V>(p: V -> bool, input: seq<V>, i: nat)
    requires i < |input|
    ensures Filtered(p, input[..i + 1]) == Filtered(p, input[..i]) + Kept(p, input[i])
    ensures Filtered(p, input) == Filtered(p, input[..i]) + Kept(p, input[i]) + Filtered(p, input[i + 1..])
  {
    FilteredUpTo(p, input, i);
    CutAt(input, i + 1);
    FilteredParts(p, input, input[..i + 1], input[i + 1..]);
  }

  // next::transform: stops at the first refusal.
  method NextTransform<A, B>(input: seq<A>, out: Buffer<B>, fn: A -> B)
    requires out.Valid()
    modifies out`count, out`overflowCount, out.data
    ensures out.Valid()
    ensures Poured(Mapped(fn, input), old(out.Remaining()), true,
                   old(out.Contents()), out.Contents(), old(out.overflowCount), out.overflowCount)
  {
    ghost var before, room := out.Contents(), out.Remaining();
    for i := 0 to |input|
      invariant out.Valid() && out.overflowCount == old(out.overflowCount)
      invariant out.Contents() == before + Mapped(fn, input[..i]) && out.Remaining() == room - i
    {
      MappedSplit(fn, input, i);
      var ok := out.Push(fn(input[i]));
      PourNext(Mapped(fn, input[..i]), [fn(input[i])], Mapped(fn, input[i + 1..]), room,
               before, out.Contents(), old(out.overflowCount), out.overflowCount);
      if !ok { return; }
    }
    assert input[..|input|] == input;
  }

  // next::filter: stops at the first refusal.
  method NextFilter<V>(input: seq<V>, out: Buffer<V>, pred: V -> bool)
    requires out.Valid()
    modifies out`count, out`overflowCount, out.data
    ensures out.Valid()
    ensures Poured(Filtered(pred, input), old(out.Remaining()), true,
                   old(out.Contents()), out.Contents(), old(out.overflowCount), out.overflowCount)
  {
    ghost var before, room := out.Contents(), out.Remaining();
    for i := 0 to |input|
      invariant out.Valid() && out.overflowCount == old(out.overflowCount)
      invariant out.Contents() == before + Filtered(pred, input[..i])
      invariant out.Remaining() == room - |Filtered(pred, input[..i])|
    {
      FilteredSplit(pred, input, i);
      if pred(input[i]) {
        var ok := out.Push(input[i]);
        PourNext(Filtered(pred, input[..i]), [input[i]], Filtered(pred, input[i + 1..]), room,
                 before, out.Contents(), old(out.overflowCount), out.overflowCount);
        if !ok { return; }
      }
    }
    assert input[..|input|] == input;
  }

  // next::map_filter_t: one loop for the two stages, with the same result as both in turn.
  method NextMapFilter<A, B>(input: seq<A>, out: Buffer<B>, fn: A -> B, pred: B -> bool)
    requires out.Valid()
    modifies out`count, out`overflowCount, out.data
    ensures out.Valid()
    ensures Poured(Filtered(pred, Mapped(fn, input)), old(out.Remaining()), true,
                   old(out.Contents()), out.Contents(), old(out.overflowCount), out.overflowCount)
  {
    ghost var before, room, ys := out.Contents(), out.Remaining(), Mapped(fn, input);
    for i := 0 to |input|
      invariant out.Valid() && out.overflowCount == old(out.overflowCount)
      invariant out.Contents() == before + Filtered(pred, ys[..i])
      invariant out.Remaining() == room - |Filtered(pred, ys[..i])|
    {
      MappedAt(fn, input, i);
      FilteredSplit(pred, ys, i);
      var x := fn(input[i]);
      if pred(x) {
        var ok := out.Push(x);
        PourNext(Filtered(pred, ys[..i]), [x], Filtered(pred, ys[i + 1..]), room,
                 before, out.Contents(), old(out.overflowCount), out.overflowCount);
        if !ok { return; }
      }
    }
    assert ys[..|input|] == ys;
  }

  // One more push that is not followed by a stop.
  lemma PourOn<V>(done: seq<V>, y: V, room: nat, before: seq<V>, mid: seq<V>, after: seq<V>,
                  v0: nat, v: nat, v': nat, ok: bool)
    requires Poured(done, room, false, before, mid, v0, v)
    requires ok == (|mid| - |before| < room)
    requires after == mid + (if ok then [y] else []) && v' == v + if ok then 0 else 1
    ensures Poured(done + [y], room, false, before, after, v0, v')
  {
    if ok {
      assert before + done + [y] == before + (done + [y]);
    } else {
      assert Take(room, done + [y]) == Take(room, done);
    }
  }

  // algo::transform: goes on after a refusal, so every dropped element is counted.
  method AlgoTransform<A, B>(input: seq<A>, out: Buffer<B>, fn: A -> B)
    requires out.Valid()
    modifies out`count, out`overflowCount, out.data
    ensures out.Valid()
    ensures Poured(Mapped(fn, input), old(out.Remaining()), false,
                   old(out.Contents()), out.Contents(), old(out.overflowCount), out.overflowCount)
  {
    ghost var before, room, v0 := out.Contents(), out.Remaining(), out.overflowCount;
    var i := 0;
    while i < |input|
      invariant out.Valid() && i <= |input|
      invariant Poured(Mapped(fn, input[..i]), room, false, before, out.Contents(), v0, out.overflowCount)
    {
      MappedSplit(fn, input, i);
      ghost var mid, v := out.Contents(), out.overflowCount;
      var ok := out.Push(fn(input[i]));
      PourOn(Mapped(fn, input[..i]), fn(input[i]), room, before, mid, out.Contents(), v0, v, out.overflowCount, ok);
      i := i + 1;
    }
    assert input[..|input|] == input;
  }

  // algo::filter likewise.
  method AlgoFilter<V>(input: seq<V>, out: Buffer<V>, pred: V -> bool)
    requires out.Valid()
    modifies out`count, out`overflowCount, out.data
    ensures out.Valid()
    ensures Poured(Filtered(pred, input), old(out.Remaining()), false,
                   old(out.Contents()), out.Contents(), old(out.overflowCount), out.overflowCount)
  {
    ghost var before, room, v0 := out.Contents(), out.Remaining(), out.overflowCount;
    var i := 0;
    while i < |input|
      invariant out.Valid() && i <= |input|
      invariant Poured(Filtered(pred, input[..i]), room, false, before, out.Contents(), v0, out.overflowCount)
    {
      FilteredSplit(pred, input, i);
      if pred(input[i]) {
        ghost var mid, v := out.Contents(), out.overflowCount;
        var ok := out.Push(input[i]);
        PourOn(Filtered(pred, input[..i]), input[i], room, before, mid, out.Contents(), v0, v, out.overflowCount, ok);
      }
      i := i + 1;
    }
    assert input[..|input|] == input;
  }

  // The reduction from the right end's point of view: the last element is applied last.
  function Folded<A, B>(f: (B, A) -> B, init: B, xs: seq<A>): B {
    if xs == [] then init else f(Folded(f, init, xs[..|xs| - 1]), xs[|xs| - 1])
  }

  // reduce of both headers.
  method Reduce<A, B>(input: seq<A>, init: B, fn: (B, A) -> B) returns (acc: B, ghost accs: seq<B>)
    ensures acc == Folded(fn, init, input)
    ensures |accs| == |input| + 1 && accs[0] == init && acc == accs[|input|]
    ensures forall i | 0 <= i < |input| :: accs[i + 1] == fn(accs[i], input[i])
  {
    acc, accs := init, [init];
    for i := 0 to |input|
      invariant acc == Folded(fn, init, input[..i])
      invariant |accs| == i + 1 && accs[0] == init && acc == accs[i]
      invariant forall j | 0 <= j < i :: accs[j + 1] == fn(accs[j], input[j])
    {
      assert input[..i + 1][..i] == input[..i];
      acc := fn(acc, input[i]);
      accs := accs + [acc];
    }
    assert input[..|input|] == input;
  }

  // A reduction can be cut anywhere: the second part starts from the first part's result.
  lemma {:induction false} FoldedConcat<A, B>(f: (B, A) -> B, init: B, xs: seq<A>, ys: seq<A>)
    ensures Folded(f, init, xs + ys) == Folded(f, Folded(f, init, xs), ys)
    decreases |ys|
  {
    if ys == [] {
      assert xs + ys == xs;
    } else {
      var n := |ys| - 1;
      FoldedConcat(f, init, xs, ys[..n]);
      assert (xs + ys)[..|xs| + n] == xs + ys[..n];
    }
  }

  // The same from the other end: the first element is applied first, once, to the initial value.
  lemma {:induction false} FoldedFirst<A, B>(f: (B, A) -> B, init: B, x: A, xs: seq<A>)
    ensures Folded(f, init, []) == init
    ensures Folded(f, init, [x] + xs) == Folded(f, f(init, x), xs)
  {
    FoldedConcat(f, init, [x], xs);
    assert [x][..0] == [];
  }
}
