/** normalize is a canonical form: what it keeps of a path, and that it keeps nothing else. */
module PathNormalForm {
  import opened Paths

  lemma SpelledLonger(cs: seq<string>, c: char)
    requires cs != []
    ensures Spelled(Longer(cs, c)) == Spelled(cs) + [c]
  {
    if |cs| > 1 {
      var n := |cs| - 1;
      assert Longer(cs, c)[..n] == cs[..n];
      assert Spelled(cs) + [c] == Spelled(cs[..n]) + "\\" + (cs[n] + [c]);
    }
  }

  function Ending(p: Path): string {
    if Components(p) != [] && EndsSep(p) then "\\" else ""
  }

  ghost predicate SpellsOut(p: Path) {
    Collapsed(p) == Root(p) + Spelled(Components(p)) + Ending(p)
  }

  lemma SpellsSeparator(p: Path)
    requires EndsSep(p) && SpellsOut(p[..|p| - 1])
    ensures SpellsOut(p)
  {
    var front := p[..|p| - 1];
    assert Components(p) == Components(front);
    if front != "" { assert Root(p) == Root(front); }
  }

  lemma SpellsNewComponent(p: Path)
    requires p != "" && !EndsSep(p) && (|p| == 1 || EndsSep(p[..|p| - 1])) && SpellsOut(p[..|p| - 1])
    ensures SpellsOut(p)
  {
    var front, c := p[..|p| - 1], p[|p| - 1];
    var cs := Components(front);
    assert Components(p) == cs + [[c]] && (cs + [[c]])[..|cs|] == cs;
    if front != "" { assert Root(p) == Root(front); }
    if cs != [] {
      assert Spelled(cs + [[c]]) == Spelled(cs) + "\\" + [c];
    } else {
      assert Spelled([[c]]) == [c];
    }
  }

  lemma SpellsLonger(p: Path)
    requires |p| > 1 && !EndsSep(p) && !EndsSep(p[..|p| - 1]) && SpellsOut(p[..|p| - 1])
    ensures SpellsOut(p)
  {
    var front, c := p[..|p| - 1], p[|p| - 1];
    assert Root(p) == Root(front);
    SpelledLonger(Components(front), c);
  }

  // Collapsing spells out the components, with one backslash in front if the path began with any and
  // one behind if it ended with any.
  lemma {:induction false} CollapsedSpells(p: Path)
    ensures SpellsOut(p)
    decreases |p|
  {
    if p != "" {
      CollapsedSpells(p[..|p| - 1]);
      if EndsSep(p) {
        SpellsSeparator(p);
      } else if |p| == 1 || EndsSep(p[..|p| - 1]) {
        SpellsNewComponent(p);
      } else {
        SpellsLonger(p);
      }
    }
  }

  lemma {:induction false} CollapsedKeeps(p: Path)
    ensures Components(Collapsed(p)) == Components(p) && Rooted(Collapsed(p)) == Rooted(p)
    decreases |p|
  {
    if p != "" {
      var front, c := p[..|p| - 1], p[|p| - 1];
      CollapsedKeeps(front);
      var r := Collapsed(front);
      if IsSep(c) {
        if !EndsSep(r) { assert Collapsed(p)[..|r|] == r; }
      } else {
        assert Collapsed(p)[..|r|] == r;
      }
      if front != "" { assert Collapsed(p)[0] == r[0] && p[0] == front[0]; }
    }
  }

  // A backslash is the only separator left, and no two stand together.
  lemma {:induction false} CollapsedClean(p: Path)
    ensures forall i | 0 <= i < |Collapsed(p)| :: Collapsed(p)[i] != '/'
    ensures forall i | 0 < i < |Collapsed(p)| :: !(IsSep(Collapsed(p)[i - 1]) && IsSep(Collapsed(p)[i]))
    decreases |p|
  {
    if p != "" { CollapsedClean(p[..|p| - 1]); }
  }

  lemma DriveRootAlone(p: Path)
    ensures IsDriveRoot(Collapsed(p)) <==> DriveRooted(p)
  {
    CollapsedSpells(p);
    CollapsedKeeps(p);
    var r := Collapsed(p);
    if IsDriveRoot(r) {
      assert r[..2][..1][..0] == "";
      assert Components(r[..2][..1]) == [[r[0]]];
      assert Components(r[..2]) == [[r[0]] + [r[1]]];
      assert Components(r) == Components(r[..2]);
    }
  }

  // The form itself.
  lemma NormalizedSpells(p: Path)
    ensures Normalized(p) == Root(p) + Spelled(Components(p)) + if DriveRooted(p) then "\\" else ""
  {
    CollapsedSpells(p);
    DriveRootAlone(p);
    if Components(p) != [] { SpelledNotEmpty(Components(p)); }
  }

  lemma {:induction false} SpelledNotEmpty(cs: seq<string>)
    requires cs != [] && forall i | 0 <= i < |cs| :: cs[i] != ""
    ensures Spelled(cs) != ""
  {}

  // normalize keeps the components, a separator in front, and a bare drive's separator.
  lemma NormalizedKeeps(p: Path)
    ensures Components(Normalized(p)) == Components(p)
    ensures Rooted(Normalized(p)) == Rooted(p)
    ensures DriveRooted(Normalized(p)) == DriveRooted(p)
  {
    var r := Collapsed(p);
    CollapsedKeeps(p);
    DriveRootAlone(p);
    if Normalized(p) != r {
      CollapsedClean(p);
      var n := |r| - 1;
      assert !IsSep(r[n - 1]);
      assert !EndsSep(Normalized(p));
    }
  }

  /**
   Two paths normalize alike exactly when they have the same components in the same order, both or
   neither begin with a separator, and both or neither are a bare drive root.
   */
  lemma NormalForm(p: Path, q: Path)
    ensures Normalized(p) == Normalized(q) <==>
              Components(p) == Components(q) && Rooted(p) == Rooted(q) && DriveRooted(p) == DriveRooted(q)
  {
    NormalizedSpells(p);
    NormalizedSpells(q);
    NormalizedKeeps(p);
    NormalizedKeeps(q);
  }

  // A way to see it: same components, same front, same end.
  lemma SameForm(p: Path, q: Path)
    requires Components(p) == Components(q) && Rooted(p) == Rooted(q) && EndsSep(p) == EndsSep(q)
    ensures Normalized(p) == Normalized(q)
  {
    NormalForm(p, q);
  }

  lemma Idempotent(p: Path)
    ensures Normalized(Normalized(p)) == Normalized(p)
  {
    NormalizedKeeps(p);
    NormalForm(Normalized(p), p);
  }

  // The result has backslashes only, no two together, and none at the end but as a root.
  lemma NormalizedClean(p: Path)
    ensures
      var r := Normalized(p);
      && (forall i | 0 <= i < |r| :: r[i] != '/')
      && (forall i | 0 < i < |r| :: !(IsSep(r[i - 1]) && IsSep(r[i])))
      && (EndsSep(r) <==> r == "\\" || IsDriveRoot(r))
  {
    var c := Collapsed(p);
    CollapsedClean(p);
    if Normalized(p) != c {
      assert !IsSep(c[|c| - 2]);
    }
  }
}
