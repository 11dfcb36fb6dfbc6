/** Bit masks as sets of bit numbers: what `|`, `&`, `~` and shifts do to single bits. */
module Masks {
  import opened Bits

  predicate HasBit(n: nat, k: nat) {
    Shr(n, k) % 2 == 1
  }

  lemma {:induction false} OrBit(a: nat, b: nat, k: nat)
    ensures HasBit(BitOr(a, b), k) <==> HasBit(a, k) || HasBit(b, k)
    decreases k
  {
    OrHalf(a, b);
    if k > 0 {
      OrBit(a / 2, b / 2, k - 1);
    }
  }

  lemma OrHalf(a: nat, b: nat)
    ensures BitOr(a, b) / 2 == BitOr(a / 2, b / 2)
    ensures BitOr(a, b) % 2 == 1 <==> a % 2 == 1 || b % 2 == 1
  {
  }

  lemma {:induction false} AndBit(a: nat, b: nat, k: nat)
    ensures HasBit(BitAnd(a, b), k) <==> HasBit(a, k) && HasBit(b, k)
    decreases k
  {
    AndHalf(a, b);
    if k > 0 {
      AndBit(a / 2, b / 2, k - 1);
    }
  }

  lemma AndHalf(a: nat, b: nat)
    ensures BitAnd(a, b) / 2 == BitAnd(a / 2, b / 2)
    ensures BitAnd(a, b) % 2 == 1 <==> a % 2 == 1 && b % 2 == 1
  {
  }

  lemma {:induction false} PowBit(w: nat, k: nat)
    ensures HasBit(Pow2(w), k) <==> k == w
    decreases w
  {
    if w > 0 {
      if k > 0 {
        PowBit(w - 1, k - 1);
      }
    } else {
      ZeroBit(k);
    }
  }

  lemma {:induction false} ZeroBit(k: nat)
    ensures !HasBit(0, k)
    ensures k > 0 ==> !HasBit(1, k)
    decreases k
  {
    if k > 0 {
      ZeroBit(k - 1);
    }
  }

  /** The bits of `~x` on `n`-bit words. */
  lemma {:induction false} NotBit(x: nat, n: nat, k: nat)
    requires x < Pow2(n) && k < n
    ensures HasBit(Pow2(n) - 1 - x, k) <==> !HasBit(x, k)
    decreases k
  {
    var y := Pow2(n) - 1 - x;
    assert y % 2 == 1 - x % 2 && y / 2 == Pow2(n - 1) - 1 - x / 2;
    if k > 0 {
      NotBit(x / 2, n - 1, k - 1);
    }
  }

  lemma {:induction false} OnesBit(n: nat, k: nat)
    ensures HasBit(Pow2(n) - 1, k) <==> k < n
    decreases k
  {
    if n == 0 {
      ZeroBit(k);
    } else {
      assert (Pow2(n) - 1) / 2 == Pow2(n - 1) - 1;
      if k > 0 {
        OnesBit(n - 1, k - 1);
      }
    }
  }

  lemma {:induction false} ShlBit(x: nat, w: nat, k: nat)
    ensures HasBit(Shl(x, w), k) <==> k >= w && HasBit(x, k - w)
    decreases w
  {
    if w > 0 && k > 0 {
      assert Shl(x, w) / 2 == Shl(x, w - 1);
      ShlBit(x, w - 1, k - 1);
    }
  }

  lemma ShrBit(x: nat, m: nat, k: nat)
    ensures HasBit(Shr(x, m), k) <==> HasBit(x, m + k)
  {
    ShrAdd(x, m, k);
  }

  lemma {:induction false} SomeBit(x: nat) returns (k: nat)
    requires x != 0
    ensures HasBit(x, k)
  {
    if x % 2 == 1 {
      k := 0;
    } else {
      k := SomeBit(x / 2);
      k := k + 1;
    }
  }

  lemma {:induction false} BitBelow(x: nat, n: nat, k: nat)
    requires x < Pow2(n) && HasBit(x, k)
    ensures k < n
    decreases k
  {
    if n == 0 {
      ZeroBit(k);
    } else if k > 0 {
      BitBelow(x / 2, n - 1, k - 1);
    }
  }

  // ---------------------------------------------------------------- single bits

  /** `mask |= 1u << w` */
  function SetBit(mask: nat, w: nat): nat {
    BitOr(mask, Pow2(w))
  }

  /** `mask &= ~( 1u << w )` */
  function ClearBit(mask: nat, w: nat): nat
    requires w < 32
  {
    Pow2Monotone(w, 32);
    BitAnd(mask, Pow2(32) - 1 - Pow2(w))
  }

  lemma {:induction false} Pow2Monotone(a: nat, b: nat)
    requires a <= b
    ensures Pow2(a) <= Pow2(b) && (a < b ==> Pow2(a) < Pow2(b))
    decreases b
  {
    if a < b {
      Pow2Monotone(a, b - 1);
    }
  }

  lemma SetBitBits(mask: nat, w: nat, k: nat)
    ensures HasBit(SetBit(mask, w), k) <==> HasBit(mask, k) || k == w
  {
    OrBit(mask, Pow2(w), k);
    PowBit(w, k);
  }

  lemma ClearBitBits(mask: nat, w: nat, k: nat)
    requires w < 32 && k < 32
    ensures HasBit(ClearBit(mask, w), k) <==> HasBit(mask, k) && k != w
  {
    hide Pow2, HasBit, BitAnd;
    Pow2Monotone(w, 32);
    AndBit(mask, Pow2(32) - 1 - Pow2(w), k);
    NotBit(Pow2(w), 32, k);
    PowBit(w, k);
  }

  /** Sixteen bits stay sixteen bits. */
  lemma {:induction false} OrBound(a: nat, b: nat, n: nat)
    requires a < Pow2(n) && b < Pow2(n)
    ensures BitOr(a, b) < Pow2(n)
    decreases n
  {
    if n > 0 {
      OrHalf(a, b);
      OrBound(a / 2, b / 2, n - 1);
    }
  }

  lemma {:induction false} AndAtMost(a: nat, b: nat)
    ensures BitAnd(a, b) <= a
    decreases a
  {
    if a > 0 {
      AndAtMost(a / 2, b / 2);
    }
  }

  /** `mask & ( 1u << k )` tests one bit. */
  lemma MaskTest(mask: nat, k: nat)
    ensures BitAnd(mask, Pow2(k)) == 0 <==> !HasBit(mask, k)
  {
    hide HasBit, Pow2, BitAnd;
    var x := BitAnd(mask, Pow2(k));
    AndBit(mask, Pow2(k), k);
    PowBit(k, k);
    if x == 0 {
      ZeroBit(k);
    } else {
      var j := SomeBit(x);
      AndBit(mask, Pow2(k), j);
      PowBit(k, j);
    }
  }
}
