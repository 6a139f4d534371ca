/** The 64-bit draw key of twe/core/render/render.h: pipe in bits 40-55, material in 24-39, depth in 0-23. */
module SortKeys {
  import opened Bits

  const PIPE_MASK: nat := 0xFFFF
  const MATERIAL_MASK: nat := 0xFFFF
  const DEPTH_MASK: nat := 0xFFFFFF

  function MakeSortKey(pipe: nat, material: nat, depth: nat): nat {
    BitOr(BitOr(ShiftLeft(BitAnd(pipe, PIPE_MASK), 40), ShiftLeft(BitAnd(material, MATERIAL_MASK), 24)),
          ShiftLeft(BitAnd(depth, DEPTH_MASK), 0))
  }

  // (a, b, c) comes before (x, y, z) in dictionary order.
  predicate LexLess(a: nat, b: nat, c: nat, x: nat, y: nat, z: nat) {
    a < x || (a == x && (b < y || (b == y && c < z)))
  }

  lemma Powers()
    ensures Pow2(0) == 1 && Pow2(16) == 0x1_0000 && Pow2(24) == 0x100_0000 && Pow2(40) == 0x100_0000_0000
  {
    assert Pow2(8) == 0x100;
    PowerSum(8, 8);
    PowerSum(8, 16);
    PowerSum(16, 24);
  }

  // Three numbers packed the way the key packs its fields, and their order.
  function Packed(p: nat, m: nat, d: nat): nat {
    p * 0x100_0000_0000 + m * 0x100_0000 + d
  }

  lemma PackedOrder(p: nat, m: nat, d: nat, p': nat, m': nat, d': nat)
    requires m < 0x1_0000 && d < 0x100_0000 && m' < 0x1_0000 && d' < 0x100_0000
    ensures Packed(p, m, d) < Packed(p', m', d') <==> LexLess(p, m, d, p', m', d')
    ensures Packed(p, m, d) == Packed(p', m', d') <==> p == p' && m == m' && d == d'
  {
    var low, low' := m * 0x100_0000 + d, m' * 0x100_0000 + d';
    assert low < 0x100_0000_0000 && low' < 0x100_0000_0000;
    assert low < low' <==> m < m' || (m == m' && d < d');
  }

  lemma Shifts(p: nat, m: nat, d: nat)
    ensures ShiftLeft(p, 40) == p * 0x100_0000_0000
    ensures ShiftLeft(m, 24) == m * 0x100_0000
    ensures ShiftLeft(d, 0) == d
  {
    Powers();
  }

  // Fields that do not overlap: or-ing them is adding them.
  lemma OrIsSum(p: nat, m: nat, d: nat)
    requires m < 0x1_0000 && d < 0x100_0000
    ensures BitOr(BitOr(ShiftLeft(p, 40), ShiftLeft(m, 24)), ShiftLeft(d, 0)) == Packed(p, m, d)
  {
    Powers();
    Shifts(p, m, d);
    OrOfShifted(p, 40, m * 0x100_0000);
    Shifts(p, p * 0x1_0000 + m, d);
    OrOfShifted(p * 0x1_0000 + m, 24, d);
  }

  // The masked and shifted fields do not overlap: the key is their sum, below 2^56.
  lemma KeyIsSum(pipe: nat, material: nat, depth: nat)
    ensures MakeSortKey(pipe, material, depth) == Packed(pipe % 0x1_0000, material % 0x1_0000, depth % 0x100_0000)
    ensures MakeSortKey(pipe, material, depth) < 0x100_0000_0000_0000
  {
    Powers();
    MaskIsMod(pipe, 16);
    MaskIsMod(material, 16);
    MaskIsMod(depth, 24);
    OrIsSum(pipe % 0x1_0000, material % 0x1_0000, depth % 0x100_0000);
  }

  /**
   On all arguments, comparing two keys compares pipe, then material, then depth, each cut to its
   field; and keys are equal exactly when all three cut fields are.
   */
  lemma KeyOrder(p: nat, m: nat, d: nat, p': nat, m': nat, d': nat)
    ensures MakeSortKey(p, m, d) < MakeSortKey(p', m', d') <==>
              LexLess(p % 0x1_0000, m % 0x1_0000, d % 0x100_0000, p' % 0x1_0000, m' % 0x1_0000, d' % 0x100_0000)
    ensures MakeSortKey(p, m, d) == MakeSortKey(p', m', d') <==>
              p % 0x1_0000 == p' % 0x1_0000 && m % 0x1_0000 == m' % 0x1_0000 && d % 0x100_0000 == d' % 0x100_0000
  {
    KeyIsSum(p, m, d);
    KeyIsSum(p', m', d');
    PackedOrder(p % 0x1_0000, m % 0x1_0000, d % 0x100_0000, p' % 0x1_0000, m' % 0x1_0000, d' % 0x100_0000);
  }

  // On fields that fit their bits the key loses nothing.
  lemma KeyInjective(p: nat, m: nat, d: nat, p': nat, m': nat, d': nat)
    requires p <= PIPE_MASK && m <= MATERIAL_MASK && d <= DEPTH_MASK
    requires p' <= PIPE_MASK && m' <= MATERIAL_MASK && d' <= DEPTH_MASK
    ensures MakeSortKey(p, m, d) == MakeSortKey(p', m', d') <==> p == p' && m == m' && d == d'
    ensures MakeSortKey(p, m, d) < MakeSortKey(p', m', d') <==> LexLess(p, m, d, p', m', d')
  {
    KeyOrder(p, m, d, p', m', d');
    Fits(p, m, d);
    Fits(p', m', d');
  }

  lemma Fits(p: nat, m: nat, d: nat)
    requires p <= PIPE_MASK && m <= MATERIAL_MASK && d <= DEPTH_MASK
    ensures p % 0x1_0000 == p && m % 0x1_0000 == m && d % 0x100_0000 == d
  {}
}
