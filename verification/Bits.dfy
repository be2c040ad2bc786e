/** Bits of a byte, most significant first, and of a byte sequence. */
module Bits {

  /** 0x80 >> k. */
  function Mask(k: nat): bv8
    requires k < 8
  {
    if k == 0 then 0x80 else if k == 1 then 0x40 else if k == 2 then 0x20 else if k == 3 then 0x10
    else if k == 4 then 0x08 else if k == 5 then 0x04 else if k == 6 then 0x02 else 0x01
  }

  predicate Bit(b: bv8, k: nat)
    requires k < 8
  {
    b & Mask(k) != 0
  }

  /** Bit i of a bit vector. */
  predicate BitAt(bs: seq<bv8>, i: nat)
    requires i < 8 * |bs|
  {
    Bit(bs[i / 8], i % 8)
  }

  /** Bits are counted from the most significant one of each byte. */
  lemma MostSignificantFirst(bs: seq<bv8>, i: nat)
    requires i < 8 * |bs|
    ensures BitAt(bs, i) <==> bs[i / 8] & (1 << (7 - i % 8)) != 0
  {
    MaskShift(i % 8);
  }

  lemma MaskShift(k: nat)
    requires k < 8
    ensures Mask(k) == 1 << (7 - k)
  {
    if k == 0 {
      assert (1 as bv8) << 7 == 0x80;
    } else if k == 1 {
      assert (1 as bv8) << 6 == 0x40;
    } else if k == 2 {
      assert (1 as bv8) << 5 == 0x20;
    } else if k == 3 {
      assert (1 as bv8) << 4 == 0x10;
    }
  }

  lemma SetBit(b: bv8, k: nat, j: nat)
    requires k < 8 && j < 8
    ensures Bit(b | Mask(k), j) <==> j == k || Bit(b, j)
  {
    hide Mask;
    MaskBit(k, j);
    SetBit0(b, Mask(k), j);
  }

  lemma MaskBit(k: nat, j: nat)
    requires k < 8 && j < 8
    ensures Bit(Mask(k), j) <==> j == k
  {
  }

  lemma SetBit0(b: bv8, m: bv8, j: nat)
    requires j < 8
    ensures Bit(b | m, j) <==> Bit(m, j) || Bit(b, j)
  {
    OrAnd(b, m, Mask(j));
  }

  lemma OrAnd(b: bv8, m: bv8, n: bv8)
    ensures (b | m) & n != 0 <==> m & n != 0 || b & n != 0
  {
  }

  function Or(a: bv8, b: bv8): bv8 {
    a | b
  }

  function Not(b: bv8): bv8 {
    !b
  }

  lemma OrBit(a: bv8, b: bv8, j: nat)
    requires j < 8
    ensures Bit(Or(a, b), j) <==> Bit(a, j) || Bit(b, j)
  {
    SetBit0(a, b, j);
  }

  lemma NoBits(j: nat)
    requires j < 8
    ensures !Bit(0, j)
  {
  }

  /** A byte is determined by its bits. */
  lemma SameBits(a: bv8, b: bv8)
    requires forall k | 0 <= k < 8 :: Bit(a, k) == Bit(b, k)
    ensures a == b
  {
    assert Mask(0) == 0x80 && Mask(1) == 0x40 && Mask(2) == 0x20 && Mask(3) == 0x10;
    assert Mask(4) == 0x08 && Mask(5) == 0x04 && Mask(6) == 0x02 && Mask(7) == 0x01;
    hide Mask;
    assert Bit(a, 0) == Bit(b, 0) && Bit(a, 1) == Bit(b, 1) && Bit(a, 2) == Bit(b, 2) && Bit(a, 3) == Bit(b, 3);
    assert Bit(a, 4) == Bit(b, 4) && Bit(a, 5) == Bit(b, 5) && Bit(a, 6) == Bit(b, 6) && Bit(a, 7) == Bit(b, 7);
    SameMasks(a, b);
  }

  lemma SameMasks(a: bv8, b: bv8)
    requires (a & 0x80 == 0) == (b & 0x80 == 0) && (a & 0x40 == 0) == (b & 0x40 == 0)
    requires (a & 0x20 == 0) == (b & 0x20 == 0) && (a & 0x10 == 0) == (b & 0x10 == 0)
    requires (a & 0x08 == 0) == (b & 0x08 == 0) && (a & 0x04 == 0) == (b & 0x04 == 0)
    requires (a & 0x02 == 0) == (b & 0x02 == 0) && (a & 0x01 == 0) == (b & 0x01 == 0)
    ensures a == b
  {
  }

  lemma SameVector(a: seq<bv8>, b: seq<bv8>)
    requires |a| == |b| && forall i | 0 <= i < 8 * |a| :: BitAt(a, i) == BitAt(b, i)
    ensures a == b
  {
    forall j | 0 <= j < |a| ensures a[j] == b[j] {
      forall k | 0 <= k < 8 ensures Bit(a[j], k) == Bit(b[j], k) {
        assert BitAt(a, 8 * j + k) == BitAt(b, 8 * j + k);
      }
      SameBits(a[j], b[j]);
    }
  }
}
