/** The portable branch of `lzav_match_len`: a mask and one multiplication instead of a bit-scan instruction. */
module LzavPortable {
  import opened Bits

  const ONES64: nat := 0x0101_0101_0101_0101
  const ONES32: nat := 0x0101_0101

  /** `((( v ^ ( v - 1 )) & ( m - 1 )) * m ) >> 56` on 64-bit words. */
  function FirstSetByte64(v: nat): nat
    requires v != 0
  {
    BitAnd(BitXor(v, v - 1), ONES64 - 1) * ONES64 % WORD64 / 0x0100_0000_0000_0000
  }

  /** `((( v ^ ( v - 1 )) & ( m - 1 )) * m ) >> 24` on 32-bit words. */
  function FirstSetByte32(v: nat): nat
    requires v != 0
  {
    BitAnd(BitXor(v, v - 1), ONES32 - 1) * ONES32 % WORD32 / 0x0100_0000
  }

  lemma {:induction false} XorPredecessor(v: nat)
    requires v != 0
    ensures BitXor(v, v - 1) == Pow2(TrailingZeros(v) + 1) - 1
  {
    if v % 2 == 1 {
      XorSelf(v / 2);
      assert (v - 1) / 2 == v / 2;
      assert Pow2(1) == 2 * Pow2(0);
    } else {
      assert (v - 1) / 2 == v / 2 - 1;
      XorPredecessor(v / 2);
    }
  }

  lemma {:induction false} XorSelf(v: nat)
    ensures BitXor(v, v) == 0
  {
    if v > 0 {
      XorSelf(v / 2);
    }
  }

  lemma {:induction false} AndLowMask(k: nat, m: nat)
    ensures BitAnd(Pow2(k) - 1, m) == m % Pow2(k)
    decreases k
  {
    if k > 0 {
      var p := Pow2(k - 1);
      assert (2 * p - 1) / 2 == p - 1;
      AndLowMask(k - 1, m / 2);
      ModHalf(m, p);
    }
  }

  /** The mask keeps the lowest one bit of each byte below byte `c / 8` and nothing from there up. */
  lemma MaskBelow(c: nat, j: nat, low: nat, high: nat)
    requires j == c / 8 && low < 2 * Pow2(8 * j)
    ensures (low + Pow2(8 * j + 8) * high) % Pow2(c + 1) == low
  {
    assert Pow2(c + 1) == 2 * Pow2(c);
    hide Pow2;
    var p, r := Pow2(c + 1), Pow2(8 * j + 7 - c);
    assert Pow2(8 * j + 8) == p * r by {
      Pow2Add(c + 1, 8 * j + 7 - c);
    }
    assert p >= 2 * Pow2(8 * j) by {
      Pow2Add(8 * j, c - 8 * j);
      MulGrows(Pow2(8 * j), Pow2(c - 8 * j));
    }
    MaskAt(low, p, r, high);
  }

  lemma MaskAt(low: nat, p: nat, r: nat, high: nat)
    requires low < p
    ensures (low + p * r * high) % p == low
  {
    assert p * r * high == (r * high) * p;
    ModUnique(low + p * r * high, p, r * high, low);
  }

  lemma OnesValues()
    ensures Pow2(8) == 0x100 && Pow2(16) == 0x1_0000 && Pow2(24) == 0x100_0000 && Pow2(32) == 0x1_0000_0000
    ensures Pow2(40) == 0x100_0000_0000 && Pow2(48) == 0x1_0000_0000_0000 && Pow2(56) == 0x100_0000_0000_0000
    ensures Pow2(64) == WORD64 && Pow2(0) == 1
  {
    assert Pow2(8) == 256;
    Pow2Add(8, 8);
    Pow2Add(16, 8);
    Pow2Add(24, 8);
    Pow2Add(32, 8);
    Pow2Add(40, 8);
    Pow2Add(48, 8);
    Pow2Add(56, 8);
  }

  /** The low one bits of the bytes 1 to `j`. */
  function LowOnes(j: nat): nat
    requires j < 8
  {
    match j
    case 0 => 0
    case 1 => 0x0100
    case 2 => 0x01_0100
    case 3 => 0x0101_0100
    case 4 => 0x01_0101_0100
    case 5 => 0x0101_0101_0100
    case 6 => 0x01_0101_0101_0100
    case _ => 0x0101_0101_0101_0100
  }

  lemma Masked64(c: nat)
    requires c < 64
    ensures (ONES64 - 1) % Pow2(c + 1) == LowOnes(c / 8)
  {
    hide Pow2;
    OnesValues();
    match c / 8
    case 0 => MaskBelow(c, 0, 0, 0x0001_0101_0101_0101);
    case 1 => MaskBelow(c, 1, 0x0100, 0x0000_0101_0101_0101);
    case 2 => MaskBelow(c, 2, 0x01_0100, 0x0000_0001_0101_0101);
    case 3 => MaskBelow(c, 3, 0x0101_0100, 0x0000_0000_0101_0101);
    case 4 => MaskBelow(c, 4, 0x01_0101_0100, 0x0000_0000_0001_0101);
    case 5 => MaskBelow(c, 5, 0x0101_0101_0100, 0x0101);
    case 6 => MaskBelow(c, 6, 0x01_0101_0101_0100, 1);
    case _ => MaskBelow(c, 7, 0x0101_0101_0101_0100, 0);
  }

  lemma Masked32(c: nat)
    requires c < 32
    ensures (ONES32 - 1) % Pow2(c + 1) == LowOnes(c / 8)
  {
    hide Pow2;
    OnesValues();
    match c / 8
    case 0 => MaskBelow(c, 0, 0, 0x0001_0101);
    case 1 => MaskBelow(c, 1, 0x0100, 0x0101);
    case 2 => MaskBelow(c, 2, 0x01_0100, 1);
    case _ => MaskBelow(c, 3, 0x0101_0100, 0);
  }

  lemma ProductTop(product: nat, unit: nat, high: nat, low: nat, j: nat)
    requires j < 256 && product == high * (256 * unit) + low && j * unit <= low < (j + 1) * unit
    ensures product % (256 * unit) / unit == j
  {
    MulMonotone(j + 1, 256, unit);
    MulMonotone(j, j, unit);
    ModUnique(product, 256 * unit, high, low);
    ModUnique(low, unit, j, low - j * unit);
  }

  /** The top byte of the product counts the masked ones. */
  lemma TopByte64(j: nat)
    requires j < 8
    ensures LowOnes(j) * ONES64 % WORD64 / 0x0100_0000_0000_0000 == j
  {
    var u := 0x0100_0000_0000_0000;
    match j
    case 0 =>
    case 1 => ProductTop(0x0100 * ONES64, u, 1, 0x0101_0101_0101_0100, 1);
    case 2 => ProductTop(0x01_0100 * ONES64, u, 0x0102, 0x0202_0202_0202_0100, 2);
    case 3 => ProductTop(0x0101_0100 * ONES64, u, 0x01_0203, 0x0303_0303_0302_0100, 3);
    case 4 => ProductTop(0x01_0101_0100 * ONES64, u, 0x0102_0304, 0x0404_0404_0302_0100, 4);
    case 5 => ProductTop(0x0101_0101_0100 * ONES64, u, 0x01_0203_0405, 0x0505_0504_0302_0100, 5);
    case 6 => ProductTop(0x01_0101_0101_0100 * ONES64, u, 0x0102_0304_0506, 0x0606_0504_0302_0100, 6);
    case _ => ProductTop(0x0101_0101_0101_0100 * ONES64, u, 0x01_0203_0405_0607, 0x0706_0504_0302_0100, 7);
  }

  lemma TopByte32(j: nat)
    requires j < 4
    ensures LowOnes(j) * ONES32 % WORD32 / 0x0100_0000 == j
  {
    var u := 0x0100_0000;
    match j
    case 0 =>
    case 1 => ProductTop(0x0100 * ONES32, u, 1, 0x0101_0100, 1);
    case 2 => ProductTop(0x01_0100 * ONES32, u, 0x0102, 0x0202_0100, 2);
    case _ => ProductTop(0x0101_0100 * ONES32, u, 0x01_0203, 0x0302_0100, 3);
  }

  lemma {:induction false} TrailingZerosBound(v: nat, k: nat)
    requires 0 < v < Pow2(k)
    ensures TrailingZeros(v) < k
  {
    if v % 2 == 0 {
      TrailingZerosBound(v / 2, k - 1);
    }
  }

  /** The multiplication finds the same byte as counting trailing zeros, for every nonzero 64-bit word. */
  lemma PortableIsCtz64(v: nat)
    requires 0 < v < WORD64
    ensures FirstSetByte64(v) == TrailingZeros(v) / 8
  {
    hide Pow2, TrailingZeros, BitXor, BitAnd, LowOnes;
    OnesValues();
    TrailingZerosBound(v, 64);
    XorPredecessor(v);
    AndLowMask(TrailingZeros(v) + 1, ONES64 - 1);
    Masked64(TrailingZeros(v));
    TopByte64(TrailingZeros(v) / 8);
  }

  /** The same for every nonzero 32-bit word. */
  lemma PortableIsCtz32(v: nat)
    requires 0 < v < WORD32
    ensures FirstSetByte32(v) == TrailingZeros(v) / 8
  {
    hide Pow2, TrailingZeros, BitXor, BitAnd, LowOnes;
    OnesValues();
    TrailingZerosBound(v, 32);
    XorPredecessor(v);
    AndLowMask(TrailingZeros(v) + 1, ONES32 - 1);
    Masked32(TrailingZeros(v));
    TopByte32(TrailingZeros(v) / 8);
  }
}
