/** Order records: who pushed what, in the order the queue fixes. */
module Claims {
  datatype Claim<T> = Claim(pusher: nat, value: T)

  // The values thread p pushed, in the order of claims.
  function ClaimedBy<T>(claims: seq<Claim<T>>, p: nat): seq<T> {
    if claims == [] then []
    else
      var n := |claims| - 1;
      ClaimedBy(claims[..n], p) + if claims[n].pusher == p then [claims[n].value] else []
  }

  lemma ClaimedByOneMore<T>(claims: seq<Claim<T>>, c: Claim<T>, p: nat)
    ensures ClaimedBy(claims + [c], p) == ClaimedBy(claims, p) + if c.pusher == p then [c.value] else []
  {
    assert (claims + [c])[..|claims|] == claims;
  }

  // A prefix of the record gives a prefix of each thread's values, a strictly shorter one if the rest
  // holds one of them.
  lemma {:induction false} ClaimedByPrefix<T>(claims: seq<Claim<T>>, n: nat, p: nat)
    requires n <= |claims|
    ensures ClaimedBy(claims[..n], p) <= ClaimedBy(claims, p)
    ensures (exists t | n <= t < |claims| :: claims[t].pusher == p) ==> ClaimedBy(claims[..n], p) < ClaimedBy(claims, p)
    decreases |claims|
  {
    if n == |claims| {
      assert claims[..n] == claims;
    } else {
      var m := |claims| - 1;
      assert claims[..m][..n] == claims[..n];
      ClaimedByPrefix(claims[..m], n, p);
      if t :| n <= t < |claims| && claims[t].pusher == p && t < m {
        assert claims[..m][t].pusher == p;
      }
    }
  }
}
