/** The sizes promised by `lzav_compress_bound` and `lzav_compress_bound_hi`, and why they suffice:
    a reference saves what the headers cost, except for one byte in every `144 + mref` bytes of source. */
module LzavBound {
  import opened Bits
  import opened LzavFormat
  import opened LzavWrite

  function CompressBound(srcl: int): (r: int)
    ensures r >= 16 && r >= srcl + 16
  {
    if srcl <= 0 then 16
    else
      var k := 16 + 127 + 1;
      var l2 := srcl / (k + 6);
      (srcl - l2 * 6 + k - 1) / k * 2 - l2 + srcl + 16
  }

  function CompressBoundHi(srcl: int): (r: int)
    ensures r >= 16 && r >= srcl + 16
  {
    if srcl <= 0 then 16
    else
      var l2 := srcl / (16 + 5);
      (srcl - l2 * 5 + 15) / 16 * 2 - l2 + srcl + 16
  }

  /** Output position `op` after `ip` bytes of source: at most one byte lost in every `144 + mref`. */
  predicate Amortised(op: nat, ip: nat, mref: nat) {
    op >= 1 && (144 + mref) * (op - 1 - ip) <= ip
  }

  /** A long reference offset is only used with a reference of at least six bytes. */
  predicate Worthwhile(rc: nat, d: nat, mref: nat) {
    (mref == 5 || mref == 6) && mref <= rc <= mref + REF_LEN && (d > OFS_TH2 ==> rc >= 6)
  }

  lemma {:induction false} VarLenCost(n: nat)
    ensures 150 * (|VarLen(n)| - 1) <= n + 22
    ensures 149 * (|VarLen(n)| - 1) <= n + 21
  {
    if n >= 128 {
      VarLenCost(n / 128);
    }
  }

  lemma RefBlockLength(d: nat, rc: nat)
    requires d < WIN_LEN && 1 <= rc <= REF_LEN + 1
    ensures |RefBlock(d, rc, 0)| == 1 + BlockType(d) + (if rc < 16 then 0 else if rc < 271 then 1 else 2)
  {
  }

  lemma LitPartLength(lc: nat)
    ensures |LitPart(lc)| == if lc == 0 then 0 else if lc < 16 then 1 else 1 + |VarLen(lc - 16)|
  {
  }

  /** A block costs at most one byte more than the source it stands for in every `144 + mref`. */
  lemma BlockCost(lc: nat, rc: nat, d0: nat, d: nat, mref: nat)
    requires Worthwhile(rc, d0, mref) && d <= d0 < WIN_LEN
    ensures (144 + mref) * (|LitPart(lc)| + |RefBlock(d, rc + 1 - mref, 0)| - rc) <= lc + rc
  {
    RefBlockLength(d, rc + 1 - mref);
    LitPartLength(lc);
    hide RefBlock, LitPart, VarLen;
    if lc >= 16 {
      VarLenCost(lc - 16);
    }
    var cost := |LitPart(lc)| + |RefBlock(d, rc + 1 - mref, 0)| - rc;
    if mref == 6 {
      assert 150 * cost <= lc + rc;
    } else {
      assert 149 * cost <= lc + rc;
    }
  }

  lemma AmortisedStep(op: nat, ip: nat, lc: nat, rc: nat, d0: nat, d: nat, mref: nat)
    requires Amortised(op, ip, mref) && Worthwhile(rc, d0, mref) && d <= d0 < WIN_LEN
    ensures Amortised(op + |LitPart(lc)| + |RefBlock(d, rc + 1 - mref, 0)| + lc, ip + lc + rc, mref)
  {
    BlockCost(lc, rc, d0, d, mref);
  }

  /** There is room to write a block, wide copies included, and to finish. */
  lemma RoomForBlock(op: nat, ip: nat, lc: nat, srcl: nat)
    requires Amortised(op, ip, 6) && ip + lc + 11 <= srcl
    ensures op + lc + 18 <= CompressBound(srcl)
  {
    BoundAtLeast(srcl);
  }

  lemma RoomForBlockHi(op: nat, ip: nat, lc: nat, srcl: nat)
    requires Amortised(op, ip, 5) && ip + lc + 11 <= srcl
    ensures op + lc + 18 <= CompressBoundHi(srcl)
  {
    BoundAtLeast(srcl);
  }

  lemma RoomToFinish(op: nat, ip: nat, srcl: nat)
    requires ip <= srcl
    ensures Amortised(op, ip, 6) ==> op + (srcl - ip) + 6 <= CompressBound(srcl)
    ensures Amortised(op, ip, 5) ==> op + (srcl - ip) + 6 <= CompressBoundHi(srcl)
  {
    BoundAtLeast(srcl);
  }

  lemma BoundAtLeast(n: nat)
    ensures CompressBound(n) >= n + n / 150 + 16
    ensures CompressBoundHi(n) >= n + n / 21 + 16 >= n + n / 149 + 16
  {
    TwoTimesCeil(n, 150, 6);
    TwoTimesCeil(n, 21, 5);
  }

  /** The bounds promise little more than the source: one byte in 150 (in 21), and twenty. */
  lemma BoundAtMost(n: int)
    ensures n > 0 ==> CompressBound(n) <= n + n / 150 + 20 && CompressBoundHi(n) <= n + n / 21 + 20
    ensures n <= 0 ==> CompressBound(n) == CompressBoundHi(n) == 16
  {
    if n > 0 {
      TwoTimesCeil(n, 150, 6);
      TwoTimesCeil(n, 21, 5);
    }
  }

  /** Of `n / m` whole parts of `m` bytes, `e` in each are not literals; the rest begins at most two parts of literals. */
  lemma TwoTimesCeil(n: nat, m: nat, e: nat)
    requires (m == 150 && e == 6) || (m == 21 && e == 5)
    ensures
      var k, l := m - e, n / m;
      l <= (n - l * e + k - 1) / k <= l + 2
  {
    var l, r := n / m, n % m;
    assert n - l * e + (m - e) - 1 == l * (m - e) + (r + (m - e) - 1);
  }

  /** The cost of a block cannot be stated lower: 144 literals and a far reference to six bytes take 151 bytes. */
  lemma WorstBlock(d: nat)
    requires OFS_TH2 < d < WIN_LEN
    ensures |LitPart(144)| + 144 + |RefBlock(d, 6 + 1 - 6, 0)| == 144 + 6 + 1
  {
    assert VarLen(128) == [128] + VarLen(1);
  }
}
