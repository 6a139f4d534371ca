/** The linked queue's record of what happened decides nothing. */
module LinkedRecord {
  import opened LinkedModel

  // A thread's place and a state without the record: what the program itself has.
  function BarePc<T>(pc: Producer<T>): Producer<T> {
    match pc
    case Link(node, prev, _) => Link(node, prev, 0)
    case _ => pc
  }

  function Bare<T>(s: State<T>): State<T> {
    s.(producers := map p | p in s.producers :: BarePc(s.producers[p]), history := History([], map[], [], []))
  }

  lemma PcOfBare<T>(s: State<T>, p: nat)
    ensures Pc(Bare(s), p) == BarePc(Pc(s, p))
  {}

  // The record decides nothing: states that differ only in it allow the same steps, with the same effect.
  lemma HistoryInert<T>(s: State<T>, t: State<T>, a: Action<T>)
    requires Bare(s) == Bare(t) && Enabled(s, a)
    ensures Enabled(t, a) && Bare(Step(s, a)) == Bare(Step(t, a))
  {
    if a.PushNew? || a.PushExchange? || a.PushLink? {
      PcOfBare(s, a.p);
      PcOfBare(t, a.p);
      InertPush(s, t, a);
    } else {
      assert Bare(Step(s, a)).producers == Bare(Step(t, a)).producers;
    }
  }

  lemma InertPush<T>(s: State<T>, t: State<T>, a: Action<T>)
    requires Bare(s) == Bare(t) && Enabled(s, a) && Enabled(t, a)
    requires (a.PushNew? || a.PushExchange? || a.PushLink?) && BarePc(Pc(s, a.p)) == BarePc(Pc(t, a.p))
    ensures Bare(Step(s, a)) == Bare(Step(t, a))
  {
    if a.PushLink? && Pc(s, a.p).prev !in s.nodes {
      assert Step(s, a).producers == s.producers && Step(t, a).producers == t.producers;
    } else {
      BareMoves(s, a);
      BareMoves(t, a);
    }
  }

  // The moved thread's place is the only one that changes.
  lemma BareMoves<T>(s: State<T>, a: Action<T>)
    requires Enabled(s, a) && (a.PushNew? || a.PushExchange? || a.PushLink?)
    requires !(a.PushLink? && Pc(s, a.p).prev !in s.nodes)
    ensures Bare(Step(s, a)).producers == Bare(s).producers[a.p := BarePc(Pc(Step(s, a), a.p))]
  {}
}
