/** Bitwise and on unsigned integers, and what masks and the power-of-two test compute. */
module Bits {
  import opened Common

  function BitAnd(x: nat, y: nat): nat {
    if x == 0 || y == 0 then 0 else 2 * BitAnd(x / 2, y / 2) + if x % 2 == 1 && y % 2 == 1 then 1 else 0
  }

  function Pow2(k: nat): (r: nat)
    ensures r > 0
  {
    if k == 0 then 1 else 2 * Pow2(k - 1)
  }

  lemma DoubleProduct(x: int, y: int)
    ensures (2 * x) * y == 2 * (x * y) == x * (2 * y)
  {}

  lemma {:induction false} PowerSum(a: nat, b: nat)
    ensures Pow2(a + b) == Pow2(a) * Pow2(b)
  {
    if a > 0 {
      PowerSum(a - 1, b);
      assert a + b - 1 == (a - 1) + b;
      DoubleProduct(Pow2(a - 1), Pow2(b));
    }
  }

  lemma ModOfDouble(x: nat, m: nat)
    requires m > 0
    ensures x % (2 * m) == 2 * ((x / 2) % m) + x % 2
  {
    var q, r := (x / 2) / m, (x / 2) % m;
    assert x / 2 == m * q + r;
    assert x == (2 * m) * q + (2 * r + x % 2) by {
      assert 2 * (m * q) == (2 * m) * q;
    }
    DivModUnique(2 * m, x, q, 2 * r + x % 2);
  }

  // One bit of masking: the low bit stays, the rest is masked by half the mask.
  lemma MaskHalves(x: nat, m: nat)
    requires m > 0
    ensures BitAnd(x, 2 * m - 1) == 2 * BitAnd(x / 2, m - 1) + x % 2
  {
    var y := 2 * m - 1;
    assert y / 2 == m - 1 && y % 2 == 1;
  }

  // Masking with a power of two less one is the remainder.
  lemma {:induction false} MaskIsMod(x: nat, k: nat)
    ensures BitAnd(x, Pow2(k) - 1) == x % Pow2(k)
    decreases k
  {
    if k > 0 {
      var m := Pow2(k - 1);
      MaskIsMod(x / 2, k - 1);
      ModOfDouble(x, m);
      MaskHalves(x, m);
    }
  }

  lemma {:induction false} AndWithItself(x: nat)
    ensures BitAnd(x, x) == x
  {
    if x > 0 {
      AndWithItself(x / 2);
    }
  }

  // The test c & (c - 1) lets through exactly the powers of two.
  lemma {:induction false} PowerTest(c: nat)
    requires c > 0
    ensures BitAnd(c, c - 1) == 0 <==> exists k: nat :: c == Pow2(k)
  {
    if c == 1 {
      assert c == Pow2(0);
    } else if c % 2 == 1 {
      OddIsNoPower(c);
    } else {
      var d := c / 2;
      PowerTest(d);
      assert (c - 1) / 2 == d - 1;
      assert BitAnd(c, c - 1) == 2 * BitAnd(d, d - 1);
      HalfOfPower(c);
    }
  }

  lemma HalfOfPower(c: nat)
    requires c > 0 && c % 2 == 0
    ensures (exists k: nat :: c == Pow2(k)) <==> (exists k: nat :: c / 2 == Pow2(k))
  {
    if k: nat :| c / 2 == Pow2(k) { assert c == Pow2(k + 1); }
    if k: nat :| c == Pow2(k) {
      assert k > 0;
      assert c / 2 == Pow2(k - 1);
    }
  }

  lemma OddIsNoPower(c: nat)
    requires c > 1 && c % 2 == 1
    ensures BitAnd(c, c - 1) != 0 && forall k: nat :: c != Pow2(k)
  {
    AndWithItself(c / 2);
    assert (c - 1) / 2 == c / 2;
    assert BitAnd(c, c - 1) == 2 * BitAnd(c / 2, c / 2);
    forall k: nat ensures c != Pow2(k) {
      if k > 0 { assert Pow2(k) == 2 * Pow2(k - 1); }
    }
  }

  function BitOr(x: nat, y: nat): nat
    decreases x + y
  {
    if x == 0 then y
    else if y == 0 then x
    else 2 * BitOr(x / 2, y / 2) + if x % 2 == 1 || y % 2 == 1 then 1 else 0
  }

  function ShiftLeft(x: nat, k: nat): nat {
    x * Pow2(k)
  }

  // Numbers with no bit in common: or is addition.
  lemma {:induction false} OrOfShifted(a: nat, k: nat, b: nat)
    requires b < Pow2(k)
    ensures BitOr(ShiftLeft(a, k), b) == a * Pow2(k) + b
    decreases k
  {
    if k > 0 {
      var m := Pow2(k - 1);
      DoubleProduct(a, m);
      OrOfShifted(a, k - 1, b / 2);
      if a * m > 0 && b > 0 { OrHalves(a * m, b); }
    }
  }

  lemma OrHalves(x: nat, b: nat)
    requires x > 0 && b > 0
    ensures BitOr(2 * x, b) == 2 * BitOr(x, b / 2) + b % 2
  {
    assert (2 * x) / 2 == x && (2 * x) % 2 == 0;
  }
}
