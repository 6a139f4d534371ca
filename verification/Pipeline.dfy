/**
 The one-pass pipeline of twe/core/algo/pipeline.h. All element types are one type V here.
 */
module Pipeline {
  import opened Buffers

  datatype Op<!V> =
    | Map(fn: V -> V)
    | Filter(pred: V -> bool)
    | MapFilterMap(f: V -> V, p: V -> bool, g: V -> V)

  // ---- The reference: one stage after the other over whole lists ------------------------------

  function Mapped<A, B>(f: A -> B, xs: seq<A>): (r: seq<B>)
    ensures |r| == |xs|
  {
    if xs == [] then [] else Mapped(f, xs[..|xs| - 1]) + [f(xs[|xs| - 1])]
  }

  function Filtered<V>(p: V -> bool, xs: seq<V>): seq<V> {
    if xs == [] then []
    else Filtered(p, xs[..|xs| - 1]) + if p(xs[|xs| - 1]) then [xs[|xs| - 1]] else []
  }

  function Stage<V>(op: Op<V>, xs: seq<V>): seq<V> {
    match op
    case Map(f) => Mapped(f, xs)
    case Filter(p) => Filtered(p, xs)
    case MapFilterMap(f, p, g) => Mapped(g, Filtered(p, Mapped(f, xs)))
  }

  function Staged<V>(ops: seq<Op<V>>, xs: seq<V>): seq<V> {
    if ops == [] then xs else Staged(ops[1..], Stage(ops[0], xs))
  }

  // The part of a pipeline that takes effect: map_filter_map_t pushes straight into the output, so
  // whatever is composed after it never runs.
  function Effective<V>(ops: seq<Op<V>>): seq<Op<V>> {
    if ops == [] then []
    else if ops[0].MapFilterMap? then ops[..1]
    else ops[..1] + Effective(ops[1..])
  }

  // ---- Lists and stages -----------------------------------------------------------------------

  lemma {:induction false} MappedConcat<A, B>(f: A -> B, xs: seq<A>, ys: seq<A>)
    ensures Mapped(f, xs + ys) == Mapped(f, xs) + Mapped(f, ys)
    decreases |ys|
  {
    if ys == [] {
      assert xs + ys == xs;
    } else {
      var n := |ys| - 1;
      MappedConcat(f, xs, ys[..n]);
      assert (xs + ys)[..|xs| + n] == xs + ys[..n];
    }
  }

  lemma {:induction false} FilteredConcat<V>(p: V -> bool, xs: seq<V>, ys: seq<V>)
    ensures Filtered(p, xs + ys) == Filtered(p, xs) + Filtered(p, ys)
    decreases |ys|
  {
    if ys == [] {
      assert xs + ys == xs;
    } else {
      var n := |ys| - 1;
      FilteredConcat(p, xs, ys[..n]);
      assert (xs + ys)[..|xs| + n] == xs + ys[..n];
    }
  }

  // Stage by stage, a pipeline treats the parts of a list independently.
  lemma {:induction false} StagedConcat<V>(ops: seq<Op<V>>, xs: seq<V>, ys: seq<V>)
    ensures Staged(ops, xs + ys) == Staged(ops, xs) + Staged(ops, ys)
    decreases |ops|
  {
    if ops != [] {
      match ops[0] {
        case Map(f) => MappedConcat(f, xs, ys);
        case Filter(p) => FilteredConcat(p, xs, ys);
        case MapFilterMap(f, p, g) =>
          MappedConcat(f, xs, ys);
          FilteredConcat(p, Mapped(f, xs), Mapped(f, ys));
          MappedConcat(g, Filtered(p, Mapped(f, xs)), Filtered(p, Mapped(f, ys)));
      }
      StagedConcat(ops[1..], Stage(ops[0], xs), Stage(ops[0], ys));
    }
  }

  // Whole lists through the stages of a and then of b.
  lemma {:induction false} ComposeStages<V>(a: seq<Op<V>>, b: seq<Op<V>>, xs: seq<V>)
    ensures Staged(a + b, xs) == Staged(b, Staged(a, xs))
    decreases |a|
  {
    if a == [] {
      assert a + b == b;
    } else {
      assert (a + b)[1..] == a[1..] + b;
      ComposeStages(a[1..], b, Stage(a[0], xs));
    }
  }

  lemma {:induction false} StagedNothing<V>(ops: seq<Op<V>>)
    ensures Staged(ops, []) == []
    decreases |ops|
  {
    if ops != [] { StagedNothing(ops[1..]); }
  }

  // What one element becomes: the rest of the pipeline from stage i on lets out at most one.
  lemma {:induction false} StagedOne<V>(ops: seq<Op<V>>, v: V)
    ensures |Staged(ops, [v])| <= 1
    decreases |ops|
  {
    if ops != [] {
      var one := Stage(ops[0], [v]);
      StagesOfOne(ops[0], v);
      if one == [] { StagedNothing(ops[1..]); } else { StagedOne(ops[1..], one[0]); }
    }
  }

  lemma StagesOfOne<V>(op: Op<V>, v: V)
    ensures op.Map? ==> Stage(op, [v]) == [op.fn(v)]
    ensures op.Filter? ==> Stage(op, [v]) == if op.pred(v) then [v] else []
    ensures op.MapFilterMap? ==> Stage(op, [v]) == if op.p(op.f(v)) then [op.g(op.f(v))] else []
    ensures |Stage(op, [v])| == 1 ==> Stage(op, [v]) == [Stage(op, [v])[0]]
    ensures |Stage(op, [v])| <= 1
  {
    match op
    case Map(f) => assert Mapped(f, [v]) == [f(v)];
    case Filter(p) => assert Filtered(p, [v]) == if p(v) then [v] else [];
    case MapFilterMap(f, p, g) =>
      assert Mapped(f, [v]) == [f(v)];
      assert Filtered(p, [f(v)]) == if p(f(v)) then [f(v)] else [];
      if p(f(v)) { assert Mapped(g, [f(v)]) == [g(f(v))]; } else { assert Mapped(g, []) == []; }
  }

  // ---- Composition ----------------------------------------------------------------------------

  ghost predicate Plain<V>(ops: seq<Op<V>>) {
    forall i | 0 <= i < |ops| :: !ops[i].MapFilterMap?
  }

  // What is composed after a pipeline takes effect if that pipeline has no fused stage, and else not at all.
  lemma {:induction false} EffectiveConcat<V>(a: seq<Op<V>>, b: seq<Op<V>>)
    ensures Effective(a + b) == if Plain(a) then a + Effective(b) else Effective(a)
    decreases |a|
  {
    if a == [] {
      assert a + b == b;
    } else {
      assert (a + b)[1..] == a[1..] + b && (a + b)[..1] == a[..1];
      if !a[0].MapFilterMap? {
        EffectiveConcat(a[1..], b);
        assert Plain(a) <==> Plain(a[1..]) by { PlainTail(a); }
        if Plain(a) { assert a[..1] + (a[1..] + Effective(b)) == a + Effective(b); }
      }
    }
  }

  lemma PlainTail<V>(ops: seq<Op<V>>)
    requires ops != [] && !ops[0].MapFilterMap?
    ensures Plain(ops) <==> Plain(ops[1..])
  {
    if Plain(ops[1..]) {
      forall i | 0 <= i < |ops| ensures !ops[i].MapFilterMap? {
        if i > 0 { assert ops[i] == ops[1..][i - 1]; }
      }
    }
  }

  lemma PlainEffective<V>(ops: seq<Op<V>>)
    requires Plain(ops)
    ensures Effective(ops) == ops
  {
    EffectiveConcat(ops, []);
    assert ops + [] == ops && ops + Effective<V>([]) == ops;
  }

  lemma {:induction false} FilteredShrinks<V>(p: V -> bool, xs: seq<V>)
    ensures |Filtered(p, xs)| <= |xs|
    decreases |xs|
  {
    if xs != [] { FilteredShrinks(p, xs[..|xs| - 1]); }
  }

  // No pipeline makes a list longer.
  lemma {:induction false} StagedShrinks<V>(ops: seq<Op<V>>, xs: seq<V>)
    ensures |Staged(ops, xs)| <= |xs|
    decreases |ops|
  {
    if ops != [] {
      match ops[0] {
        case Map(f) =>
        case Filter(p) => FilteredShrinks(p, xs);
        case MapFilterMap(f, p, g) => FilteredShrinks(p, Mapped(f, xs));
      }
      StagedShrinks(ops[1..], Stage(ops[0], xs));
    }
  }

  // So the stages leave a list alone exactly when they leave each of its parts alone.
  lemma LeavesConcat<V>(ops: seq<Op<V>>, ys: seq<V>, zs: seq<V>)
    ensures Staged(ops, ys + zs) == ys + zs <==> Staged(ops, ys) == ys && Staged(ops, zs) == zs
  {
    StagedConcat(ops, ys, zs);
    StagedShrinks(ops, ys);
    StagedShrinks(ops, zs);
    var us, vs := Staged(ops, ys), Staged(ops, zs);
    if us + vs == ys + zs {
      assert |us + vs| == |ys + zs|;
      assert us == (us + vs)[..|us|] && vs == (us + vs)[|us|..];
    }
  }

  // The stages b would change nothing of what the stages a make of element x.
  ghost predicate LeavesResult<V>(a: seq<Op<V>>, b: seq<Op<V>>, x: V) {
    Staged(b, Staged(a, [x])) == Staged(a, [x])
  }

  lemma {:induction false} LeavesAll<V>(a: seq<Op<V>>, b: seq<Op<V>>, xs: seq<V>)
    ensures Staged(b, Staged(a, xs)) == Staged(a, xs) <==> forall i | 0 <= i < |xs| :: LeavesResult(a, b, xs[i])
    decreases |xs|
  {
    if xs == [] {
      StagedNothing(a);
      StagedNothing(b);
    } else {
      var n := |xs| - 1;
      LeavesAll(a, b, xs[..n]);
      assert xs[..n] + [xs[n]] == xs;
      StagedConcat(a, xs[..n], [xs[n]]);
      LeavesConcat(b, Staged(a, xs[..n]), Staged(a, [xs[n]]));
      assert (forall i | 0 <= i < |xs| :: LeavesResult(a, b, xs[i])) <==>
             (forall i | 0 <= i < n :: LeavesResult(a, b, xs[..n][i])) && LeavesResult(a, b, xs[n]);
    }
  }

  /**
   operator| on pipelines. The joint pipeline does the left one and then the right one, on a given
   input, exactly when the left one has no fused stage, or the right one would not change what the
   left one makes of any single element.
   */
  lemma ComposesExactly<V>(a: seq<Op<V>>, b: seq<Op<V>>, xs: seq<V>)
    ensures Plain(a) ==> Effective(a + b) == a + Effective(b)
    ensures Staged(Effective(a + b), xs) == Staged(Effective(b), Staged(Effective(a), xs)) <==>
              Plain(a) || forall i | 0 <= i < |xs| :: LeavesResult(Effective(a), Effective(b), xs[i])
  {
    EffectiveConcat(a, b);
    if Plain(a) {
      PlainEffective(a);
      ComposeStages(a, Effective(b), xs);
    } else {
      LeavesAll(Effective(a), Effective(b), xs);
    }
  }

  // ---- The program ----------------------------------------------------------------------------

  /**
   apply_all_impl: what is left of the pipeline from stage i on is applied to one element, and the
   result, if any gets through, is pushed. False says the buffer refused it.
   */
  method ApplyFrom<V>(ops: seq<Op<V>>, i: nat, v: V, out: Buffer<V>) returns (ok: bool)
    requires i <= |ops| && out.Valid()
    modifies out`count, out`overflowCount, out.data
    ensures out.Valid()
    ensures
      var ys := Staged(Effective(ops[i..]), [v]);
      && ok == (|ys| <= old(out.Remaining()))
      && Poured(ys, old(out.Remaining()), true, old(out.Contents()), out.Contents(),
                old(out.overflowCount), out.overflowCount)
    decreases |ops| - i
  {
    ghost var rest := ops[i..];
    if i == |ops| {
      assert Effective(rest) == [];
      ok := out.Push(v);
    } else {
      EffectiveStep(ops, i, v);
      match ops[i] {
        case Map(fn) =>
          ok := ApplyFrom(ops, i + 1, fn(v), out);
        case Filter(pred) =>
          if pred(v) {
            ok := ApplyFrom(ops, i + 1, v, out);
          } else {
            ok := true;
          }
        case MapFilterMap(f, p, g) =>
          var y := f(v);
          if p(y) {
            ok := out.Push(g(y));
          } else {
            ok := true;
          }
      }
    }
  }

  // How the first stage that takes effect treats one element.
  lemma EffectiveStep<V>(ops: seq<Op<V>>, i: nat, v: V)
    requires i < |ops|
    ensures
      var ys := Staged(Effective(ops[i..]), [v]);
      match ops[i]
      case Map(fn) => ys == Staged(Effective(ops[i + 1..]), [fn(v)])
      case Filter(pred) => ys == if pred(v) then Staged(Effective(ops[i + 1..]), [v]) else []
      case MapFilterMap(f, p, g) => ys == if p(f(v)) then [g(f(v))] else []
  {
    var rest := ops[i..];
    assert rest[0] == ops[i] && rest[1..] == ops[i + 1..];
    StagesOfOne(ops[i], v);
    if ops[i].MapFilterMap? {
      assert Effective(rest) == [ops[i]];
      assert [ops[i]][1..] == [];
    } else {
      assert Effective(rest) == [ops[i]] + Effective(ops[i + 1..]);
      assert ([ops[i]] + Effective(ops[i + 1..]))[1..] == Effective(ops[i + 1..]);
      StagedNothing(Effective(ops[i + 1..]));
    }
  }

  // One more element of a pass: either its result fits and extends what was poured, or the pass is over.
  lemma PourNext<V>(done: seq<V>, one: seq<V>, more: seq<V>, room: nat, before: seq<V>, after: seq<V>, v: nat, v': nat)
    requires |done| <= room && |one| <= 1
    requires Poured(one, room - |done|, true, before + done, after, v, v')
    ensures |one| <= room - |done| ==> after == before + (done + one) && v' == v
    ensures |one| > room - |done| ==> Poured(done + one + more, room, true, before, after, v, v')
  {
    if |one| > room - |done| {
      assert |done| == room;
      assert Take(room, done + one + more) == done;
    } else {
      assert before + done + one == before + (done + one);
    }
  }

  // The stage-by-stage meaning of an input, cut after its i-th element.
  lemma StagedSplit<V>(ops: seq<Op<V>>, input: seq<V>, i: nat)
    requires i < |input|
    ensures Staged(ops, input[..i + 1]) == Staged(ops, input[..i]) + Staged(ops, [input[i]])
    ensures Staged(ops, input) == Staged(ops, input[..i]) + Staged(ops, [input[i]]) + Staged(ops, input[i + 1..])
  {
    StagedConcat(ops, input[..i], [input[i]]);
    assert input[..i + 1] == input[..i] + [input[i]];
    StagedConcat(ops, input[..i + 1], input[i + 1..]);
    assert input == input[..i + 1] + input[i + 1..];
  }

  /**
   pipeline_t::operator(). One pass over the input appends exactly the first results of the
   stage-by-stage meaning that there is room for, and counts one overflow if there are more.
   */
  method Run<V>(ops: seq<Op<V>>, input: seq<V>, out: Buffer<V>)
    requires out.Valid()
    modifies out`count, out`overflowCount, out.data
    ensures out.Valid()
    ensures Poured(Staged(Effective(ops), input), old(out.Remaining()), true,
                   old(out.Contents()), out.Contents(), old(out.overflowCount), out.overflowCount)
  {
    ghost var eff, before, room := Effective(ops), out.Contents(), out.Remaining();
    assert ops[0..] == ops;
    StagedNothing(eff);
    for i := 0 to |input|
      invariant out.Valid() && out.overflowCount == old(out.overflowCount)
      invariant out.Contents() == before + Staged(eff, input[..i])
      invariant out.Remaining() == room - |Staged(eff, input[..i])|
    {
      StagedSplit(eff, input, i);
      StagedOne(eff, input[i]);
      var ok := ApplyFrom(ops, 0, input[i], out);
      PourNext(Staged(eff, input[..i]), Staged(eff, [input[i]]), Staged(eff, input[i + 1..]), room,
               before, out.Contents(), old(out.overflowCount), out.overflowCount);
      if !ok { return; }
    }
    assert input[..|input|] == input;
  }
}
