/** How join, parent_path, filename, stem, extension and is_absolute fit together. */
module PathLaws {
  import opened Paths
  import opened PathNormalForm

  // ---- The characters -------------------------------------------------------------------------

  // Drive letters are the ASCII letters, upper and lower case, by their codes; separators are the two slashes.
  lemma Characters(c: char)
    ensures IsAlpha(c) <==> 65 <= c as int <= 90 || 97 <= c as int <= 122
    ensures IsSep(c) <==> c in {'/', '\\'}
  {}

  // ---- join -----------------------------------------------------------------------------------

  // A path without one separator at its end, or in front.
  function WithoutLast(p: Path): Path {
    if EndsSep(p) then p[..|p| - 1] else p
  }

  function WithoutFirst(p: Path): Path {
    if StartsSep(p) then p[1..] else p
  }

  /**
   The text of a join: the first side up to its separator, one separator, and the second side from its
   separator on. The separator is the first side's, or else the second's, or else a backslash.
   */
  lemma JoinText(a: Path, b: Path)
    ensures Join(a, "") == a && Join("", b) == b
    ensures a != "" && b != "" ==>
              var seam := if EndsSep(a) then a[|a| - 1] else if StartsSep(b) then b[0] else '\\';
              && Join(a, b) == WithoutLast(a) + [seam] + WithoutFirst(b)
              && a <= Join(a, b)
    ensures '/' in Join(a, b) ==> '/' in a || '/' in b
  {
    if EndsSep(a) { assert a == WithoutLast(a) + [a[|a| - 1]]; }
    if StartsSep(b) { assert b == [b[0]] + WithoutFirst(b); }
  }

  // One character more, as Components sees it.
  function Extended(cs: seq<string>, front: Path, c: char): seq<string>
    requires front != "" && !EndsSep(front) ==> cs != []
  {
    if IsSep(c) then cs else if front == "" || EndsSep(front) then cs + [[c]] else Longer(cs, c)
  }

  lemma ComponentsOneMore(front: Path, c: char)
    ensures Components(front + [c]) == Extended(Components(front), front, c)
  {
    assert (front + [c])[..|front|] == front;
  }

  lemma ConcatStep(u: Path, f: Path, c: char)
    requires u != "" && Components(u + f) == Components(u) + Components(f)
    requires f == "" ==> EndsSep(u) || IsSep(c)
    ensures Components(u + (f + [c])) == Components(u) + Components(f + [c])
  {
    assert u + (f + [c]) == (u + f) + [c];
    ComponentsOneMore(u + f, c);
    ComponentsOneMore(f, c);
    assert EndsSep(u + f) <==> if f == "" then EndsSep(u) else EndsSep(f);
    if f != "" && !IsSep(c) && !EndsSep(f) {
      LongerBehind(Components(u), Components(f), c);
    }
  }

  lemma LongerBehind(cs: seq<string>, ds: seq<string>, c: char)
    requires ds != []
    ensures Longer(cs + ds, c) == cs + Longer(ds, c)
  {
    assert (cs + ds)[..|cs + ds| - 1] == cs + ds[..|ds| - 1];
  }

  lemma {:induction false} ComponentsConcat(u: Path, v: Path)
    requires u == "" || v == "" || EndsSep(u) || StartsSep(v)
    ensures Components(u + v) == Components(u) + Components(v)
    decreases |v|
  {
    if u == "" {
      assert u + v == v;
    } else if v == "" {
      assert u + v == u;
    } else {
      var f := v[..|v| - 1];
      ComponentsConcat(u, f);
      ConcatStep(u, f, v[|v| - 1]);
      assert f + [v[|v| - 1]] == v;
    }
  }

  // The components of a join are those of its two sides.
  lemma JoinComponents(a: Path, b: Path)
    ensures Components(Join(a, b)) == Components(a) + Components(b)
  {
    if a != "" && b != "" {
      if EndsSep(a) && StartsSep(b) {
        FirstSeparator(b);
        ComponentsConcat(a, b[1..]);
      } else if !EndsSep(a) && !StartsSep(b) {
        BetweenComponents(a, b);
      } else {
        ComponentsConcat(a, b);
      }
    }
  }

  lemma FirstSeparator(b: Path)
    requires StartsSep(b)
    ensures Components(b) == Components(b[1..])
  {
    assert b == b[..1] + b[1..];
    ComponentsConcat(b[..1], b[1..]);
    assert b[..1][..0] == "";
  }

  // Its front is the first side's and its end the second's.
  lemma JoinEnds(a: Path, b: Path)
    ensures Rooted(Join(a, b)) == if a == "" then Rooted(b) else Rooted(a)
    ensures EndsSep(Join(a, b)) == if b == "" then EndsSep(a) else EndsSep(b)
    ensures Join(a, b) == "" <==> a == "" && b == ""
  {}

  lemma BetweenComponents(a: Path, b: Path)
    ensures Components(a + "\\" + b) == Components(a) + Components(b)
  {
    ComponentsConcat(a, "\\");
    assert "\\"[..0] == "";
    ComponentsConcat(a + "\\", b);
  }

  // Joining is putting a backslash between, whatever separators were there already.
  lemma JoinIsBackslash(a: Path, b: Path)
    requires a != "" && b != ""
    ensures Normalized(Join(a, b)) == Normalized(a + "\\" + b)
  {
    JoinComponents(a, b);
    JoinEnds(a, b);
    BetweenComponents(a, b);
    SameForm(Join(a, b), a + "\\" + b);
  }

  lemma JoinAssociative(a: Path, b: Path, c: Path)
    ensures Normalized(Join(Join(a, b), c)) == Normalized(Join(a, Join(b, c)))
  {
    JoinThrice(a, b, c);
    JoinThriceEnds(a, b, c);
    SameForm(Join(Join(a, b), c), Join(a, Join(b, c)));
  }

  lemma JoinThriceEnds(a: Path, b: Path, c: Path)
    ensures Rooted(Join(Join(a, b), c)) == Rooted(Join(a, Join(b, c)))
    ensures EndsSep(Join(Join(a, b), c)) == EndsSep(Join(a, Join(b, c)))
  {
    JoinEnds(a, b);
    JoinEnds(b, c);
    JoinEnds(Join(a, b), c);
    JoinEnds(a, Join(b, c));
  }

  lemma JoinThrice(a: Path, b: Path, c: Path)
    ensures Components(Join(Join(a, b), c)) == Components(Join(a, Join(b, c)))
  {
    JoinComponents(a, b);
    JoinComponents(b, c);
    JoinComponents(Join(a, b), c);
    JoinComponents(a, Join(b, c));
    ConcatAssociative(Components(a), Components(b), Components(c), Components(Join(a, b)), Components(Join(b, c)),
                      Components(Join(Join(a, b), c)), Components(Join(a, Join(b, c))));
  }

  lemma ConcatAssociative<T>(a: seq<T>, b: seq<T>, c: seq<T>, ab: seq<T>, bc: seq<T>, l: seq<T>, r: seq<T>)
    requires ab == a + b && bc == b + c && l == ab + c && r == a + bc
    ensures l == r
  {}

  // Normalizing the sides first makes no difference.
  lemma JoinOfNormalized(a: Path, b: Path)
    ensures Normalized(Join(Normalized(a), Normalized(b))) == Normalized(Join(a, b))
  {
    var a', b' := Normalized(a), Normalized(b);
    NormalizedKeeps(a);
    NormalizedKeeps(b);
    JoinComponents(a, b);
    JoinComponents(a', b');
    JoinEnds(a, b);
    JoinEnds(a', b');
    SepsOnly(a);
    SepsOnly(b);
    SepsOnly(b');
    NormalForm(Join(a', b'), Join(a, b));
  }

  // A nonempty path without components begins and ends with separators.
  lemma {:induction false} SepsOnly(p: Path)
    ensures p != "" && Components(p) == [] ==> Rooted(p) && EndsSep(p)
    decreases |p|
  {
    if p != "" { SepsOnly(p[..|p| - 1]); }
  }

  // ---- The parts of a path --------------------------------------------------------------------

  lemma LastSepOf(front: Path, file: Path)
    requires (front == "" || EndsSep(front)) && SepFree(file)
    ensures LastSep(front + file) == if front == "" then |file| else |front| - 1
  {
    var k := LastSep(front + file);
    assert forall i | |front| <= i < |front + file| :: !IsSep((front + file)[i]);
    if front != "" { assert IsSep((front + file)[|front| - 1]); }
  }

  // filename cuts off all up to the last separator.
  lemma FilenameIsLast(p: Path)
    ensures |Filename(p)| <= |p| && SepFree(Filename(p))
    ensures
      var front := p[..|p| - |Filename(p)|];
      p == front + Filename(p) && (front == "" || EndsSep(front))
  {}

  // parent_path is the rest without its separator, unless that is a root: a separator alone or "X:" with one.
  lemma ParentIsFront(p: Path)
    ensures
      var front := p[..|p| - |Filename(p)|];
      ParentPath(p) == if |front| <= 1 || (|front| == 3 && front[1] == ':') then front else front[..|front| - 1]
  {
    FilenameIsLast(p);
  }

  // What was joined on is the filename.
  lemma FilenameOfJoin(a: Path, b: Path)
    requires b != "" && SepFree(b)
    ensures Filename(Join(a, b)) == b
  {
    if a == "" {
      LastSepOf("", b);
      assert "" + b == b;
    } else {
      var front := if EndsSep(a) then a else a + "\\";
      assert Join(a, b) == front + b;
      LastSepOf(front, b);
    }
  }

  lemma {:induction false} SingleComponent(p: Path)
    requires p != "" && !Rooted(p)
    ensures Components(p) != [] && (|Components(p)| == 1 && !EndsSep(p) ==> p == Components(p)[0])
    decreases |p|
  {
    var front, c := p[..|p| - 1], p[|p| - 1];
    if front == "" {
      assert Components(p) == [[c]] && p == [c];
    } else {
      SingleComponent(front);
      if !IsSep(c) && !EndsSep(front) {
        assert Components(p) == Longer(Components(front), c);
        assert p == front + [c];
      }
    }
  }

  /**
   parent_path undoes join up to normalize, exactly when the first side is not a bare drive like
   "C:", which comes back as "C:\".
   */
  lemma ParentUndoesJoinExactly(a: Path, b: Path)
    requires b != "" && SepFree(b)
    ensures Normalized(ParentPath(Join(a, b))) == Normalized(a) <==> !(|a| == 2 && HasDrive(a))
  {
    if a == "" {
      LastSepOf("", b);
      assert "" + b == b;
    } else if EndsSep(a) {
      assert Join(a, b) == a + b;
      LastSepOf(a, b);
      ParentOfEnded(a, b);
    } else {
      var front := a + "\\";
      assert Join(a, b) == front + b;
      LastSepOf(front, b);
      assert (front + b)[..|a|] == a && (front + b)[..|front|] == front;
      ParentOfBare(a);
    }
  }

  // parent_path keeps the separator in one case and cuts it in the other.
  lemma ParentOfBare(a: Path)
    requires a != "" && !EndsSep(a)
    ensures |a| == 2 && a[1] == ':' ==>
              (Normalized(a + "\\") == Normalized(a) <==> !HasDrive(a))
  {
    if |a| == 2 && a[1] == ':' {
      var front := a + "\\";
      assert front[..2] == a;
      NormalForm(front, a);
      if !Rooted(a) {
        assert a[..1][..0] == "";
        assert Components(a[..1]) == [[a[0]]];
        assert Components(a) == [[a[0]] + [a[1]]];
      }
    }
  }

  lemma ParentOfEnded(a: Path, b: Path)
    requires EndsSep(a) && LastSep(a + b) == |a| - 1
    ensures Normalized(ParentPath(a + b)) == Normalized(a)
  {
    var n := |a| - 1;
    assert (a + b)[..n] == a[..n] && (a + b)[..|a|] == a;
    if n > 0 && !(n == 2 && a[1] == ':') {
      var front := a[..n];
      assert Components(a) == Components(front) && Rooted(a) == Rooted(front);
      if DriveRooted(a) != DriveRooted(front) { SingleComponent(front); }
      NormalForm(front, a);
    }
  }

  // Stem and extension put the filename together again around its last dot, unless it has none or
  // only a leading one; then the stem is all of it.
  lemma StemAndExtension(p: Path)
    ensures
      var file, stem, ext := Filename(p), Stem(p), Extension(p);
      if exists i | 0 < i < |file| :: LastDotAt(file, i)
      then file == stem + "." + ext && stem != "" && '.' !in ext
      else stem == file && ext == ""
  {
    var file := Filename(p);
    var pos := LastDot(file);
    if 0 < pos < |file| {
      assert file == file[..pos] + "." + file[pos + 1..];
      assert forall i | pos < i < |file| :: !IsDot(file[i]);
      assert LastDotAt(file, pos);
    } else if i :| 0 < i < |file| && LastDotAt(file, i) {
      assert IsDot(file[i]);
    }
  }

  // There is an extension exactly if the filename's last dot has something on both sides.
  lemma ExtensionExactly(p: Path)
    ensures
      var file := Filename(p);
      Extension(p) != "" <==> exists i | 0 < i < |file| - 1 :: LastDotAt(file, i)
  {
    var file := Filename(p);
    var pos := LastDot(file);
    if pos < |file| { assert LastDotAt(file, pos); }
    if i :| 0 < i < |file| - 1 && LastDotAt(file, i) {
      assert IsDot(file[i]);
      assert pos == i;
    }
  }

  predicate LastDotAt(file: Path, i: nat)
    requires i < |file|
  {
    file[i] == '.' && forall j | i < j < |file| :: file[j] != '.'
  }

  // ---- is_absolute ----------------------------------------------------------------------------

  lemma {:induction false} CollapsedFront(p: Path)
    ensures p != "" ==> Collapsed(p) != "" && Collapsed(p)[0] == if IsSep(p[0]) then '\\' else p[0]
    ensures |p| > 1 && !IsSep(p[0]) ==>
              |Collapsed(p)| > 1 && Collapsed(p)[1] == if IsSep(p[1]) then '\\' else p[1]
    ensures |Collapsed(p)| <= |p|
    decreases |p|
  {
    if p != "" {
      CollapsedFront(p[..|p| - 1]);
      if |p| == 1 { assert p[..0] == ""; }
    }
  }

  // Only a drive letter survives normalize as a mark of an absolute path; so is_absolute and
  // normalize agree exactly off the paths that begin with two separators, of either kind.
  lemma AbsoluteExactly(p: Path)
    ensures IsUnc(p) <==> |p| >= 2 && p[0] in {'/', '\\'} && p[1] in {'/', '\\'}
    ensures IsAbsolute(Normalized(p)) <==> HasDrive(p)
    ensures (IsAbsolute(Normalized(p)) <==> IsAbsolute(p)) <==> !IsUnc(p)
  {
    CollapsedFront(p);
    NormalizedClean(p);
    var r, n := Collapsed(p), Normalized(p);
    assert !IsUnc(n);
  }
}
