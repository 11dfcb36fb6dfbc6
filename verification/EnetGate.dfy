/** The sender's window gate: a bit mask over the sixteen windows, of which ten ahead must be unused. */
module EnetGate {
  import opened Bits
  import opened EnetSequence
  import opened Masks

  /** The ten windows from `w` on, around the circle of sixteen. */
  function GateMask(w: nat): nat
    requires w < WINDOWS
  {
    BitOr(Shl(Pow2(FREE_WINDOWS + 2) - 1, w), Shr(Pow2(FREE_WINDOWS + 2) - 1, WINDOWS - w))
  }

  lemma GateMaskBit(w: nat, k: nat)
    requires w < WINDOWS && k < WINDOWS
    ensures HasBit(GateMask(w), k) <==> (k + WINDOWS - w) % WINDOWS < FREE_WINDOWS + 2
  {
    hide HasBit, Pow2, Shl, Shr, BitOr;
    var ones := Pow2(FREE_WINDOWS + 2) - 1;
    OrBit(Shl(ones, w), Shr(ones, WINDOWS - w), k);
    ShlBit(ones, w, k);
    ShrBit(ones, WINDOWS - w, k);
    OnesBit(10, WINDOWS - w + k);
    if k >= w {
      OnesBit(10, k - w);
    }
  }

  /** The mask test passes exactly when none of the ten windows is in use. */
  lemma GateTest(used: nat, w: nat)
    requires used < Pow2(WINDOWS) && w < WINDOWS
    ensures BitAnd(used, GateMask(w)) == 0 <==>
      forall k: nat :: k < WINDOWS && HasBit(used, k) ==> (k + WINDOWS - w) % WINDOWS >= FREE_WINDOWS + 2
  {
    hide GateMask;
    var x := BitAnd(used, GateMask(w));
    if x != 0 {
      var k := SomeBit(x);
      AndBit(used, GateMask(w), k);
      BitBelow(used, WINDOWS, k);
      GateMaskBit(w, k);
    } else {
      forall k: nat | k < WINDOWS && HasBit(used, k)
        ensures (k + WINDOWS - w) % WINDOWS >= FREE_WINDOWS + 2
      {
        AndBit(used, GateMask(w), k);
        ZeroBit(k);
        GateMaskBit(w, k);
      }
    }
  }
}
