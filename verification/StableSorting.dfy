/** What std::stable_sort by key promises, as a function. */
module StableSorting {
  // Puts x after every element whose key is not larger.
  function Insert<T>(key: T -> int, s: seq<T>, x: T): (r: seq<T>)
    ensures |r| == |s| + 1
  {
    if s == [] || key(s[|s| - 1]) <= key(x) then s + [x]
    else Insert(key, s[..|s| - 1], x) + [s[|s| - 1]]
  }

  function Sorted<T>(key: T -> int, s: seq<T>): (r: seq<T>)
    ensures |r| == |s|
  {
    if s == [] then [] else Insert(key, Sorted(key, s[..|s| - 1]), s[|s| - 1])
  }

  ghost predicate Ascending<T>(key: T -> int, s: seq<T>) {
    forall i, j | 0 <= i < j < |s| :: key(s[i]) <= key(s[j])
  }

  // The elements of one key, in the order they stand.
  function WithKey<T>(key: T -> int, s: seq<T>, k: int): seq<T> {
    if s == [] then []
    else WithKey(key, s[..|s| - 1], k) + if key(s[|s| - 1]) == k then [s[|s| - 1]] else []
  }

  lemma {:induction false} InsertSpec<T>(key: T -> int, s: seq<T>, x: T, k: int)
    requires Ascending(key, s)
    ensures Ascending(key, Insert(key, s, x))
    ensures forall e :: e in Insert(key, s, x) <==> e in s || e == x
    ensures WithKey(key, Insert(key, s, x), k) == WithKey(key, s, k) + if key(x) == k then [x] else []
    decreases |s|
  {
    var r := Insert(key, s, x);
    if s == [] || key(s[|s| - 1]) <= key(x) {
      assert r[..|s|] == s;
    } else {
      var n := |s| - 1;
      InsertSpec(key, s[..n], x, k);
      assert r[..|s|] == Insert(key, s[..n], x) && r[|s|] == s[n];
      NoneWithKey(key, s[..n], x, k, s[n]);
      forall i | 0 <= i < |s| ensures key(r[i]) <= key(s[n]) {
        assert r[i] in Insert(key, s[..n], x);
      }
    }
  }

  // Bookkeeping: appending a later element and a larger one commute as far as one key is concerned.
  lemma NoneWithKey<T>(key: T -> int, s: seq<T>, x: T, k: int, last: T)
    requires key(x) < key(last)
    ensures (WithKey(key, s, k) + if key(x) == k then [x] else []) + (if key(last) == k then [last] else [])
         == (WithKey(key, s, k) + if key(last) == k then [last] else []) + if key(x) == k then [x] else []
  {}

  /**
   The result is ascending, and the elements of each key stand in their original order; these two
   facts fix it.
   */
  lemma {:induction false} SortedSpec<T>(key: T -> int, s: seq<T>)
    ensures Ascending(key, Sorted(key, s))
    ensures forall k :: WithKey(key, Sorted(key, s), k) == WithKey(key, s, k)
    decreases |s|
  {
    if s != [] {
      var n := |s| - 1;
      SortedSpec(key, s[..n]);
      forall k ensures WithKey(key, Sorted(key, s), k) == WithKey(key, s, k) {
        InsertSpec(key, Sorted(key, s[..n]), s[n], k);
      }
      InsertSpec(key, Sorted(key, s[..n]), s[n], 0);
    }
  }

  lemma {:induction false} WithKeyLast<T>(key: T -> int, s: seq<T>, k: int)
    requires Ascending(key, s) && s != []
    ensures k > key(s[|s| - 1]) ==> WithKey(key, s, k) == []
    ensures k == key(s[|s| - 1]) ==>
              WithKey(key, s, k) != [] && WithKey(key, s, k)[|WithKey(key, s, k)| - 1] == s[|s| - 1]
    decreases |s|
  {
    var n := |s| - 1;
    if n > 0 {
      WithKeyLast(key, s[..n], k);
      assert s[..n][n - 1] == s[n - 1];
    } else {
      assert s[..n] == [];
    }
  }

  lemma Cancel<T>(u: seq<T>, v: seq<T>, t: seq<T>)
    requires u + t == v + t
    ensures u == v
  {
    assert |u + t| == |v + t|;
    assert u == (u + t)[..|u|];
    assert v == (v + t)[..|v|];
  }

  // Any other ascending arrangement that keeps each key's order is the same list.
  lemma {:induction false} SortedUnique<T>(key: T -> int, a: seq<T>, b: seq<T>)
    requires Ascending(key, a) && Ascending(key, b)
    requires forall k :: WithKey(key, a, k) == WithKey(key, b, k)
    ensures a == b
    decreases |a| + |b|
  {
    if a == [] && b == [] {
    } else if a == [] {
      WithKeyLast(key, b, key(b[|b| - 1]));
    } else if b == [] {
      WithKeyLast(key, a, key(a[|a| - 1]));
    } else {
      var x, y := a[|a| - 1], b[|b| - 1];
      WithKeyLast(key, a, key(x));
      WithKeyLast(key, a, key(y));
      WithKeyLast(key, b, key(x));
      WithKeyLast(key, b, key(y));
      assert x == y;
      var a', b' := a[..|a| - 1], b[..|b| - 1];
      forall k ensures WithKey(key, a', k) == WithKey(key, b', k) {
        assert WithKey(key, a, k) == WithKey(key, b, k);
        assert WithKey(key, a, k) == WithKey(key, a', k) + if key(x) == k then [x] else [];
        assert WithKey(key, b, k) == WithKey(key, b', k) + if key(x) == k then [x] else [];
        Cancel(WithKey(key, a', k), WithKey(key, b', k), if key(x) == k then [x] else []);
      }
      SortedUnique(key, a', b');
      assert a == a' + [x] && b == b' + [y];
    }
  }

  lemma {:induction false} InsertAdds<T>(key: T -> int, s: seq<T>, x: T)
    ensures multiset(Insert(key, s, x)) == multiset(s) + multiset{x}
    decreases |s|
  {
    if !(s == [] || key(s[|s| - 1]) <= key(x)) {
      var n := |s| - 1;
      InsertAdds(key, s[..n], x);
      assert s == s[..n] + [s[n]];
    }
  }

  // In particular nothing is lost or repeated.
  lemma {:induction false} SortedPermutes<T>(key: T -> int, s: seq<T>)
    ensures multiset(Sorted(key, s)) == multiset(s)
    decreases |s|
  {
    if s != [] {
      var n := |s| - 1;
      SortedPermutes(key, s[..n]);
      InsertAdds(key, Sorted(key, s[..n]), s[n]);
      assert s == s[..n] + [s[n]];
    }
  }
}
