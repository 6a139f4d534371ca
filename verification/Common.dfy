/** Small values and arithmetic facts shared by the models. */
module Common {
  datatype Option<+T> = None | Some(value: T)

  lemma MultipleAtLeast(c: int, d: int)
    requires c >= 0 && d >= 1
    ensures c * d >= c
  {
    assert c * d == c + c * (d - 1);
  }

  lemma MultipleBelow(c: int, d: int)
    requires c > 0 && -c < c * d < c
    ensures d == 0
  {
    if d >= 1 {
      MultipleAtLeast(c, d);
    } else if -d >= 1 {
      MultipleAtLeast(c, -d);
    }
  }

  // Quotient and remainder are the only way to write x as c * q + r with r below c.
  lemma DivModUnique(c: int, x: int, q: int, r: int)
    requires c > 0 && x == c * q + r && 0 <= r < c
    ensures x / c == q && x % c == r
  {
    var q', r' := x / c, x % c;
    assert x == c * q' + r';
    assert c * (q' - q) == r - r';
    MultipleBelow(c, q' - q);
  }

  lemma ModOfShift(c: int, x: int, k: int)
    requires c > 0
    ensures (x + c * k) % c == x % c
  {
    assert x == c * (x / c) + x % c;
    assert x + c * k == c * (x / c + k) + x % c;
    DivModUnique(c, x + c * k, x / c + k, x % c);
  }
}
