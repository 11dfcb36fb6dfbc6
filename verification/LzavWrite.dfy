/** The block writer (`lzav_write_blk_2`, `lzav_write_fin_2`): it patches the previous block's spare bits,
    copies literals with wide copies that write past their end, and stores headers as whole 32-bit words. */
module LzavWrite {
  import opened Bits
  import opened LzavFormat
  import opened LzavParse
  import opened LzavCopy

  // ---------------------------------------------------------------- appending to what was printed

  predicate EndsInRef(items: seq<Item>) {
    items == [] || items[|items| - 1].Ref?
  }

  /** The number of offset bits that the last block of `items` can carry. */
  function EndShift(items: seq<Item>, sh: nat): nat {
    if items == [] then sh else EndShift(items[1..], ShiftAfter(items[0], sh))
  }

  lemma {:induction false} PrintableAppend(a: seq<Item>, b: seq<Item>, mref: nat)
    ensures Printable(a + b, mref) <==> Printable(a, mref) && Printable(b, mref)
  {
    if a == [] {
      assert a + b == b;
    } else {
      assert (a + b)[1..] == a[1..] + b;
      PrintableAppend(a[1..], b, mref);
    }
  }

  lemma {:induction false} NextOfsAppend(a: seq<Item>, b: seq<Item>)
    requires a != [] && EndsInRef(a)
    ensures NextOfs(a + b) == NextOfs(a)
  {
    if !a[0].Ref? {
      assert (a + b)[1..] == a[1..] + b;
      NextOfsAppend(a[1..], b);
    }
  }

  /** Blocks printed later leave the earlier bytes alone, but for the carried bits. */
  lemma {:induction false} PrintAppend(a: seq<Item>, b: seq<Item>, mref: nat, sh: nat, c: nat)
    requires EndsInRef(a) && b != [] && c < 8
    requires Printable(a, mref) && Printable(b, mref) && Printable(a + b, mref)
    ensures Print(a + b, mref, sh, c) == Print(a, mref, sh, NextOfs(b) % 8) + Print(b, mref, EndShift(a, sh), c)
  {
    if a == [] {
      assert a + b == b;
    } else {
      var sh' := ShiftAfter(a[0], sh);
      assert (a + b)[1..] == a[1..] + b;
      PrintAppend(a[1..], b, mref, sh', c);
      PrintItemAppend(a, b, mref, sh, c);
    }
  }

  lemma PrintItemAppend(a: seq<Item>, b: seq<Item>, mref: nat, sh: nat, c: nat)
    requires a != [] && EndsInRef(a) && b != [] && c < 8 && ItemPrintable(a[0], mref)
    ensures PrintItem(a + b, mref, sh, c) == PrintItem(a, mref, sh, NextOfs(b) % 8)
  {
    assert (a + b)[1..] == a[1..] + b;
    match a[0]
    case Lit(_) => NextOfsAppend(a, b);
    case Ref(_, _) =>
      if a[1..] == [] {
        assert a[1..] + b == b;
      } else {
        NextOfsAppend(a[1..], b);
      }
  }

  /** Where the last block keeps its carried bits. */
  function CarryPos(items: seq<Item>, mref: nat, len: nat): int
    requires items != [] && EndsInRef(items)
  {
    var rc := items[|items| - 1].rc + 1 - mref;
    len - 1 - (if rc < 16 then 0 else if rc < 16 + 255 then 1 else 2)
  }

  /** `p` is `p0` with the bits `c` added to byte `k`, if the block has room for them. */
  ghost predicate Patched(p0: seq<byte>, p: seq<byte>, k: int, fb: nat, c: nat) {
    && 0 <= k < |p0|
    && (fb == 0 || fb == 3)
    && (fb == 0 ==> p == p0)
    && (fb == 3 ==> p0[k] < 32 && c < 8 && p == p0[k := p0[k] + 32 * c])
  }

  lemma PatchedBehind(x: seq<byte>, p0: seq<byte>, p: seq<byte>, k: int, fb: nat, c: nat)
    requires Patched(p0, p, k, fb, c)
    ensures Patched(x + p0, x + p, |x| + k, fb, c)
  {
  }

  /** The carried bits are the three high bits of one byte, and nothing else depends on them. */
  lemma {:induction false} PrintPatch(a: seq<Item>, mref: nat, sh: nat, c: nat)
    requires a != [] && EndsInRef(a) && Printable(a, mref) && c < 8
    ensures
      var p0 := Print(a, mref, sh, 0);
      Patched(p0, Print(a, mref, sh, c), CarryPos(a, mref, |p0|), EndShift(a, sh), c)
  {
    if |a| == 1 {
      assert a == [a[0]];
      PatchOne(a[0], mref, sh, c);
    } else {
      var sh' := ShiftAfter(a[0], sh);
      PrintPatch(a[1..], mref, sh', c);
      PatchMore(a, mref, sh, c);
    }
  }

  lemma PatchMore(a: seq<Item>, mref: nat, sh: nat, c: nat)
    requires |a| > 1 && EndsInRef(a) && Printable(a, mref) && c < 8
    requires
      var sh' := ShiftAfter(a[0], sh);
      var p0 := Print(a[1..], mref, sh', 0);
      Patched(p0, Print(a[1..], mref, sh', c), CarryPos(a[1..], mref, |p0|), EndShift(a[1..], sh'), c)
    ensures
      var p0 := Print(a, mref, sh, 0);
      Patched(p0, Print(a, mref, sh, c), CarryPos(a, mref, |p0|), EndShift(a, sh), c)
  {
    hide ItemPrintable, Print, EndShift, PrintItem, ShiftAfter, Patched;
    var sh' := ShiftAfter(a[0], sh);
    var x, p0 := PrintItem(a, mref, sh, 0), Print(a[1..], mref, sh', 0);
    PrintStep(a, mref, sh, 0);
    PrintStep(a, mref, sh, c);
    PatchedBehind(x, p0, Print(a[1..], mref, sh', c), CarryPos(a[1..], mref, |p0|), EndShift(a[1..], sh'), c);
  }

  lemma PrintStep(a: seq<Item>, mref: nat, sh: nat, c: nat)
    requires |a| > 1 && Printable(a, mref) && c < 8
    ensures Print(a, mref, sh, c) == PrintItem(a, mref, sh, 0) + Print(a[1..], mref, ShiftAfter(a[0], sh), c)
    ensures EndShift(a, sh) == EndShift(a[1..], ShiftAfter(a[0], sh))
  {
    hide ItemPrintable, RefBlock, LitHeader, NextOfs;
    assert PrintItem(a, mref, sh, 0) == PrintItem(a, mref, sh, c);
  }

  lemma PatchOne(item: Item, mref: nat, sh: nat, c: nat)
    requires item.Ref? && ItemPrintable(item, mref) && c < 8
    ensures
      var p0 := Print([item], mref, sh, 0);
      Patched(p0, Print([item], mref, sh, c), CarryPos([item], mref, |p0|), EndShift([item], sh), c)
  {
    var d, rc := Shr(item.d, sh), item.rc + 1 - mref;
    assert [item][1..] == [];
    assert Print([item], mref, sh, 0) == RefBlock(d, rc, 0);
    assert Print([item], mref, sh, c) == RefBlock(d, rc, CarryOut([], FreeBits(d), c));
    PatchBlock(d, rc, c);
  }

  lemma PatchBlock(d: nat, rc: nat, c: nat)
    requires d < WIN_LEN && c < 8 && 1 <= rc <= REF_LEN + 1
    ensures
      var r0 := RefBlock(d, rc, 0);
      Patched(r0, RefBlock(d, rc, CarryOut([], FreeBits(d), c)), |r0| - 1 - |ExtBytes(rc)|, FreeBits(d), c)
  {
  }

  // ---------------------------------------------------------------- writing

  /** Nothing at or behind `lim` has changed. */
  twostate predicate KeptBehind(dst: array<byte>, lim: nat)
    reads dst
  {
    forall i :: lim <= i < dst.Length ==> dst[i] == old(dst[i])
  }

  method PutByte(dst: array<byte>, op: nat, b: byte)
    requires op < dst.Length
    modifies dst
    ensures dst[..op + 1] == old(dst[..op]) + [b]
    ensures KeptBehind(dst, op + 1)
  {
    dst[op] := b;
    assert dst[..op] == old(dst[..op]);
  }

  /** A wide copy of `w` bytes of which only the first `n` are wanted. */
  method AppendWide(dst: array<byte>, op: nat, src: seq<byte>, from: nat, n: nat, w: nat) returns (op': nat)
    requires n <= w && from + w <= |src| && op + w <= dst.Length
    modifies dst
    ensures op' == op + n && dst[..op'] == old(dst[..op]) + src[from..from + n]
    ensures KeptBehind(dst, op + w)
  {
    ghost var out := dst[..op];
    AppendIn(dst, op, src, from, w);
    op' := op + n;
    assert dst[..op'] == dst[..op + w][..op'];
    assert out + src[from..from + n] == (out + src[from..from + w])[..op'];
  }

  /** `cv | lc`, the carried bits in place above the length. */
  function OrSix(v: nat, lc: nat): (r: byte)
    requires v < 4 && lc < 16
    ensures r == v * 64 + lc
  {
    assert Pow2(6) == 64;
    OrDisjoint(v, lc, 6);
    BitOr(v * 64, lc)
  }

  /** The length bytes of a literal run: `0x80 | lcw` cut to a byte, while more than seven bits are left. */
  method WriteVar(dst: array<byte>, op0: nat, n: nat) returns (op: nat)
    requires op0 + |VarLen(n)| <= dst.Length
    modifies dst
    ensures op == op0 + |VarLen(n)| && dst[..op] == old(dst[..op0]) + VarLen(n)
    ensures KeptBehind(dst, op)
  {
    op := op0;
    var lcw := n;
    ghost var out := dst[..op0];
    while lcw > 127
      invariant op0 <= op && op + |VarLen(lcw)| == op0 + |VarLen(n)|
      invariant dst[..op] + VarLen(lcw) == out + VarLen(n)
      invariant KeptBehind(dst, op)
      decreases lcw
    {
      ghost var w := dst[..op];
      assert BitOr(128, lcw % 128) == 128 + lcw % 128 by {
        assert Pow2(7) == 128;
        OrDisjoint(1, lcw % 128, 7);
      }
      PutByte(dst, op, BitOr(128, lcw % 128));
      assert dst[..op + 1] + VarLen(lcw / 128) == w + VarLen(lcw);
      lcw := lcw / 128;
      op := op + 1;
    }
    PutByte(dst, op, lcw);
    op := op + 1;
  }

  /** A literal block. */
  method WriteLit(dst: array<byte>, op0: nat, src: seq<byte>, ipa: nat, lc: nat, v: nat) returns (op: nat)
    requires 1 <= lc < 0x8000_0000 && v < 4 && ipa + lc + 16 <= |src|
    requires op0 + lc + 18 <= dst.Length
    modifies dst
    ensures op == op0 + |LitHeader(lc, v)| + lc <= op0 + lc + 6
    ensures dst[..op] == old(dst[..op0]) + LitHeader(lc, v) + src[ipa..ipa + lc]
    ensures KeptBehind(dst, op0 + lc + 18)
  {
    LitHeaderBound(lc, v);
    if lc < 16 {
      PutByte(dst, op0, OrSix(v, lc));
      op := AppendWide(dst, op0 + 1, src, ipa, lc, if lc < 9 then 8 else 16);
    } else if lc < 33 {
      op := WriteLit32(dst, op0, src, ipa, lc, v);
    } else {
      op := WriteLitLong(dst, op0, src, ipa, lc, v);
    }
  }

  /** Runs of 16 to 32 literals: a two-byte header and two 16-byte copies. */
  method WriteLit32(dst: array<byte>, op0: nat, src: seq<byte>, ipa: nat, lc: nat, v: nat) returns (op: nat)
    requires 16 <= lc < 33 && v < 4 && ipa + lc + 16 <= |src|
    requires op0 + lc + 18 <= dst.Length
    modifies dst
    ensures op == op0 + |LitHeader(lc, v)| + lc <= op0 + lc + 6
    ensures dst[..op] == old(dst[..op0]) + LitHeader(lc, v) + src[ipa..ipa + lc]
    ensures KeptBehind(dst, op0 + 34)
  {
    ghost var out := dst[..op0];
    PutByte(dst, op0, v * 64);
    PutByte(dst, op0 + 1, lc - 16);
    assert dst[..op0 + 2] == out + LitHeader(lc, v);
    AppendIn(dst, op0 + 2, src, ipa, 16);
    op := AppendWide(dst, op0 + 18, src, ipa + 16, lc - 16, 16);
    assert src[ipa..ipa + 16] + src[ipa + 16..ipa + lc] == src[ipa..ipa + lc];
  }

  method WriteLitLong(dst: array<byte>, op0: nat, src: seq<byte>, ipa: nat, lc: nat, v: nat) returns (op: nat)
    requires 33 <= lc < 0x8000_0000 && v < 4 && ipa + lc <= |src|
    requires op0 + lc + 6 <= dst.Length
    modifies dst
    ensures op == op0 + |LitHeader(lc, v)| + lc <= op0 + lc + 6
    ensures dst[..op] == old(dst[..op0]) + LitHeader(lc, v) + src[ipa..ipa + lc]
    ensures KeptBehind(dst, op0 + lc + 6)
  {
    ghost var out := dst[..op0];
    LitHeaderBound(lc, v);
    PutByte(dst, op0, v * 64);
    op := WriteVar(dst, op0 + 1, lc - 16);
    assert dst[..op] == out + LitHeader(lc, v);
    AppendIn(dst, op, src, ipa, lc);
    op := op + lc;
  }

  /** `memcpy( p, &v, 4 )` on a little-endian machine. */
  method Store32(dst: array<byte>, p: nat, v: nat)
    requires v < WORD32 && p + 4 <= dst.Length
    modifies dst
    ensures dst[..p + 4] == old(dst[..p]) + [v % 256, v / 0x100 % 256, v / 0x1_0000 % 256, v / 0x100_0000]
    ensures KeptBehind(dst, p + 4)
  {
    PutByte(dst, p, v % 256);
    PutByte(dst, p + 1, v / 0x100 % 256);
    PutByte(dst, p + 2, v / 0x1_0000 % 256);
    PutByte(dst, p + 3, v / 0x100_0000);
  }

  /** `d << 6 | bt << 4 | rc` */
  function HeaderWord(d: nat, bt: nat, rc: nat): (r: nat)
    requires d < WIN_LEN && bt < 4 && rc < 16
    ensures r == d * 64 + bt * 16 + rc < WORD32
  {
    assert Pow2(6) == 64 && Pow2(4) == 16;
    OrDisjoint(d, bt * 16, 6);
    OrDisjoint(d * 4 + bt, rc, 4);
    BitOr(BitOr(d * 64, bt * 16), rc)
  }

  lemma HeaderWordBytes(d: nat, rc: nat, v: nat)
    requires d < WIN_LEN && v == d * 64 + BlockType(d) * 16 + (if rc < 16 then rc else 0) && 1 <= rc
    ensures v % 256 == RefHeader(d, rc)
    ensures [v / 0x100 % 256, v / 0x1_0000 % 256, v / 0x100_0000][..BlockType(d)] == OfsBytes(d, 0)
  {
    var bt, low := BlockType(d), if rc < 16 then rc else 0 as nat;
    assert v / 256 == d / 4 && v % 256 == d % 4 * 64 + bt * 16 + low;
    assert v / 0x1_0000 == d / 4 / 256 && v / 0x100_0000 == d / 4 / 65536;
  }

  /** A reference block.  The header is stored as four bytes; what follows overwrites the excess. */
  method WriteRef(dst: array<byte>, op0: nat, d: nat, rc: nat) returns (op: nat, cbp: nat, csh: nat)
    requires d < WIN_LEN && 1 <= rc <= REF_LEN + 1 && op0 + 6 <= dst.Length
    modifies dst
    ensures op == op0 + |RefBlock(d, rc, 0)| <= op0 + 6
    ensures dst[..op] == old(dst[..op0]) + RefBlock(d, rc, 0)
    ensures cbp == op0 + BlockType(d) && csh == FreeBits(d)
    ensures KeptBehind(dst, op0 + 6)
  {
    ghost var out := dst[..op0];
    var bt := 1 + (if d > OFS_TH1 then 1 else 0) + (if d > OFS_TH2 then 1 else 0);
    csh := if bt == 3 then 3 else 0;
    cbp := op0 + bt;
    hide HeaderWord;
    var ov := HeaderWord(d, bt, if rc < 16 then rc else 0);
    Store32(dst, op0, ov);
    HeaderWordBytes(d, rc, ov);
    assert dst[..cbp + 1] == out + [RefHeader(d, rc)] + OfsBytes(d, 0) by {
      assert dst[..cbp + 1] == dst[..op0 + 4][..cbp + 1];
    }
    op := WriteExt(dst, cbp + 1, rc);
  }

  /** The additional length bytes of a reference block. */
  method WriteExt(dst: array<byte>, op0: nat, rc: nat) returns (op: nat)
    requires 1 <= rc <= REF_LEN + 1 && op0 + 2 <= dst.Length
    modifies dst
    ensures op == op0 + |ExtBytes(rc)| && dst[..op] == old(dst[..op0]) + ExtBytes(rc)
    ensures KeptBehind(dst, op0 + 2)
  {
    op := op0;
    if rc >= 16 {
      if rc < 16 + 255 {
        PutByte(dst, op, rc - 16);
        op := op + 1;
      } else {
        PutByte(dst, op, 255);
        PutByte(dst, op + 1, rc - 16 - 255);
        op := op + 2;
      }
    }
  }

  /** The items that one call of the block writer adds. */
  function BlockItems(lits: seq<byte>, d: nat, rc: nat): (r: seq<Item>)
    ensures EndsInRef(r) && r != [] && NextOfs(r) == d
  {
    if lits == [] then [Ref(d, rc)]
    else
      assert [Lit(lits), Ref(d, rc)][1..] == [Ref(d, rc)];
      [Lit(lits), Ref(d, rc)]
  }

  /** The writer has printed `items`, and `cbp` and `csh` are where and how many bits of the next offset it owes. */
  ghost predicate Written(p: seq<byte>, items: seq<Item>, mref: nat, cbp: nat, csh: nat) {
    && mref < 16 && EndsInRef(items) && Printable(items, mref)
    && p == [2 * 16 + mref] + Print(items, mref, 0, 0)
    && csh == EndShift(items, 0)
    && cbp == (if items == [] then 1 else 1 + CarryPos(items, mref, |Print(items, mref, 0, 0)|))
  }

  /** Paying the owed bits turns what was printed into what is printed when an offset `d` follows. */
  lemma PayCarry(p: seq<byte>, items: seq<Item>, mref: nat, cbp: nat, csh: nat, d: nat)
    requires Written(p, items, mref, cbp, csh)
    ensures items == [] ==> csh == 0 && cbp == |p| && p == [2 * 16 + mref] + Print(items, mref, 0, d % 8)
    ensures items != [] ==> Patched(p, [2 * 16 + mref] + Print(items, mref, 0, d % 8), cbp, csh, d % 8)
  {
    hide Printable, PrintItem;
    if items != [] {
      PrintPatch(items, mref, 0, d % 8);
      var x := Print(items, mref, 0, 0);
      PatchedBehind([2 * 16 + mref], x, Print(items, mref, 0, d % 8), CarryPos(items, mref, |x|), csh, d % 8);
    }
  }

  /** `**cbpp |= ( d << 8 ) >> csh` */
  method PatchCarry(dst: array<byte>, op: nat, d: nat, cbp: nat, csh: nat, ghost items: seq<Item>, ghost mref: nat)
    requires op < dst.Length && Written(dst[..op], items, mref, cbp, csh)
    modifies dst
    ensures dst[..op] == [2 * 16 + mref] + Print(items, mref, 0, d % 8)
    ensures KeptBehind(dst, op + 1)
    ensures csh == 0 || csh == 3
  {
    hide Written, Print, Printable, BitOr, Shr;
    ghost var p := dst[..op];
    PayCarry(p, items, mref, cbp, csh, d);
    var bits := Shr(d * 256, csh) % 256;
    CarryBits(d, csh, dst[cbp]);
    dst[cbp] := BitOr(dst[cbp], bits);
    assert csh == 3 ==> dst[..op] == p[cbp := p[cbp] + d % 8 * 32];
    assert csh == 0 ==> dst[..op] == p;
  }

  lemma CarryBits(d: nat, csh: nat, b: byte)
    requires csh == 0 || (csh == 3 && b < 32)
    ensures BitOr(b, Shr(d * 256, csh) % 256) == if csh == 3 then b + d % 8 * 32 else b as nat
  {
    if csh == 3 {
      ShrThree(d);
      assert Pow2(5) == 32;
      OrDisjoint(d % 8, b, 5);
    }
  }

  lemma ShrThree(d: nat)
    ensures Shr(d * 256, 3) % 256 == d % 8 * 32
  {
    assert Shr(d * 256, 3) == Shr(d * 128, 2);
    assert Shr(d * 128, 2) == Shr(d * 64, 1);
    assert Shr(d * 64, 1) == d * 32;
  }

  lemma PrintBlock(lits: seq<byte>, d: nat, rc: nat, mref: nat, csh: nat)
    requires mref <= rc <= mref + REF_LEN && d < WIN_LEN && |lits| < 0x8000_0000
    ensures Printable(BlockItems(lits, d, rc), mref)
    ensures
      var d1 := Shr(d, csh);
      Print(BlockItems(lits, d, rc), mref, csh, 0) ==
        if lits == [] then RefBlock(d1, rc + 1 - mref, 0)
        else LitHeader(|lits|, d1 % 4) + lits + RefBlock(d1 / 4, rc + 1 - mref, 0)
    ensures
      var d1 := Shr(d, csh);
      EndShift(BlockItems(lits, d, rc), csh) == FreeBits(if lits == [] then d1 else d1 / 4)
  {
    hide Print, Printable, EndShift, Shr, RefBlock, LitHeader, FreeBits;
    PrintOne(d, rc, mref, csh);
    if lits != [] {
      assert BlockItems(lits, d, rc) == [Lit(lits)] + [Ref(d, rc)];
      PrintOne(d, rc, mref, csh + 2);
      PrintLitFirst(lits, [Ref(d, rc)], mref, csh);
      ShrTwo(d, csh);
    }
  }

  lemma ShrTwo(d: nat, sh: nat)
    ensures Shr(d, sh + 2) == Shr(d, sh) / 4
  {
    ShrAdd(d, sh, 2);
    assert Shr(Shr(d, sh), 2) == Shr(Shr(d, sh) / 2, 1) == Shr(d, sh) / 2 / 2;
  }

  /** Literals in front of a reference. */
  lemma PrintLitFirst(lits: seq<byte>, rest: seq<Item>, mref: nat, sh: nat)
    requires 1 <= |lits| < 0x8000_0000 && rest != [] && rest[0].Ref? && Printable(rest, mref)
    ensures Printable([Lit(lits)] + rest, mref)
    ensures Print([Lit(lits)] + rest, mref, sh, 0) ==
      LitHeader(|lits|, Shr(rest[0].d, sh) % 4) + lits + Print(rest, mref, sh + 2, 0)
    ensures EndShift([Lit(lits)] + rest, sh) == EndShift(rest, sh + 2)
  {
    hide LitHeader, Shr, RefBlock, FreeBits;
    var items := [Lit(lits)] + rest;
    assert items[1..] == rest && items[0] == Lit(lits);
    assert NextOfs(items) == rest[0].d;
  }

  lemma PrintOne(d: nat, rc: nat, mref: nat, sh: nat)
    requires mref <= rc <= mref + REF_LEN && d < WIN_LEN
    ensures Printable([Ref(d, rc)], mref)
    ensures Print([Ref(d, rc)], mref, sh, 0) == RefBlock(Shr(d, sh), rc + 1 - mref, 0)
    ensures EndShift([Ref(d, rc)], sh) == FreeBits(Shr(d, sh))
  {
    assert [Ref(d, rc)][1..] == [];
  }

  /** The literal part and the reference part, when `d` is what is left of the offset. */
  method WriteParts(dst: array<byte>, op0: nat, src: seq<byte>, ipa: nat, lc: nat, rc: nat, d0: nat)
    returns (op: nat, cbp: nat, csh: nat)
    requires 1 <= rc <= REF_LEN + 1 && d0 < WIN_LEN && lc < 0x8000_0000 && ipa + lc + 16 <= |src|
    requires op0 + lc + 18 <= dst.Length
    modifies dst
    ensures op0 < op <= dst.Length
    ensures dst[..op] == old(dst[..op0]) +
      if lc == 0 then RefBlock(d0, rc, 0) else LitHeader(lc, d0 % 4) + src[ipa..ipa + lc] + RefBlock(d0 / 4, rc, 0)
    ensures
      var d := if lc == 0 then d0 else d0 / 4;
      csh == FreeBits(d) && cbp == op - 1 - |ExtBytes(rc)|
    ensures KeptBehind(dst, op0 + lc + 18)
  {
    var d := d0;
    op := op0;
    if lc != 0 {
      d := d / 4;
      op := WriteLit(dst, op, src, ipa, lc, d0 % 4);
    }
    op, cbp, csh := WriteRef(dst, op, d, rc);
  }

  /** `lzav_write_blk_2`: one block more has been printed, and the state says what it owes. */
  method WriteBlk(dst: array<byte>, op0: nat, src: seq<byte>, ipa: nat, lc: nat, rc: nat, d: nat,
                  cbp0: nat, csh0: nat, mref: nat, ghost items: seq<Item>)
    returns (op: nat, cbp: nat, csh: nat)
    requires mref <= rc <= mref + REF_LEN && d < WIN_LEN && lc < 0x8000_0000 && ipa + lc + 16 <= |src|
    requires op0 + lc + 18 <= dst.Length && Written(dst[..op0], items, mref, cbp0, csh0)
    modifies dst
    ensures op <= dst.Length && Written(dst[..op], items + BlockItems(src[ipa..ipa + lc], d, rc), mref, cbp, csh)
    ensures op - op0 == |LitPart(lc)| + |RefBlock(LeftOfs(d, csh0, lc), rc + 1 - mref, 0)| + lc
    ensures KeptBehind(dst, op0 + lc + 18)
  {
    hide Written, Print, Printable, EndsInRef, EndShift, LitPart, RefBlock, Shr, BlockItems, LitHeader, ExtBytes, FreeBits;
    ghost var before := dst[..op0];
    WrittenShift(before, items, mref, cbp0, csh0);
    ShrLess(d, csh0);
    PatchCarry(dst, op0, d, cbp0, csh0, items, mref);
    op, cbp, csh := WriteParts(dst, op0, src, ipa, lc, rc + 1 - mref, Shr(d, csh0));
    BlkWritten(before, dst[..op], items, src[ipa..ipa + lc], d, rc, mref, cbp0, csh0, cbp, csh);
  }

  lemma WrittenShift(p: seq<byte>, items: seq<Item>, mref: nat, cbp: nat, csh: nat)
    requires Written(p, items, mref, cbp, csh)
    ensures Printable(items, mref) && mref < 16
  {
  }

  lemma {:induction false} ShrLess(v: nat, n: nat)
    ensures Shr(v, n) <= v
    decreases n
  {
    if n > 0 {
      ShrLess(v / 2, n - 1);
    }
  }

  /** The carry patched in and the bytes of the parts behind it are one more block. */
  lemma BlkWritten(before: seq<byte>, out: seq<byte>, items: seq<Item>, lits: seq<byte>, d: nat, rc: nat, mref: nat,
                   cbp0: nat, csh0: nat, cbp: nat, csh: nat)
    requires Written(before, items, mref, cbp0, csh0) && Printable(items, mref) && mref < 16
    requires mref <= rc <= mref + REF_LEN && d < WIN_LEN && |lits| < 0x8000_0000
    requires
      var d1 := Shr(d, csh0);
      && out == [2 * 16 + mref] + Print(items, mref, 0, d % 8)
           + (if lits == [] then RefBlock(d1, rc + 1 - mref, 0)
              else LitHeader(|lits|, d1 % 4) + lits + RefBlock(d1 / 4, rc + 1 - mref, 0))
      && csh == FreeBits(if lits == [] then d1 else d1 / 4)
      && cbp == |out| - 1 - |ExtBytes(rc + 1 - mref)|
    ensures Written(out, items + BlockItems(lits, d, rc), mref, cbp, csh)
    ensures |out| - (1 + |Print(items, mref, 0, d % 8)|) == |LitPart(|lits|)| + |RefBlock(LeftOfs(d, csh0, |lits|), rc + 1 - mref, 0)| + |lits|
  {
    hide Print, Printable, EndShift, RefBlock, Shr, BlockItems, ExtBytes, FreeBits, CarryPos;
    var d1, x := Shr(d, csh0), Print(items, mref, 0, d % 8);
    var y := if lits == [] then RefBlock(d1, rc + 1 - mref, 0)
             else LitHeader(|lits|, d1 % 4) + lits + RefBlock(d1 / 4, rc + 1 - mref, 0);
    WrittenMore(out, x, y, items, lits, d, rc, mref, csh0, cbp, csh);
  }

  /** What is left of an offset when the carried bits and those of the literal header are gone. */
  function LeftOfs(d: nat, csh: nat, lc: nat): (r: nat)
    ensures r <= d
  {
    if lc == 0 then Shr(d, csh) else Shr(d, csh) / 4
  }

  /** The header of a run of `lc` literals, if there is one. */
  function LitPart(lc: nat): seq<byte> {
    if lc == 0 then [] else LitHeader(lc, 0)
  }

  lemma WrittenAssemble(p: seq<byte>, x: seq<byte>, y: seq<byte>, all: seq<Item>, mref: nat, cbp: nat, csh: nat)
    requires mref < 16 && Printable(all, mref) && all != [] && EndsInRef(all)
    requires p == [2 * 16 + mref] + x + y && Print(all, mref, 0, 0) == x + y
    requires csh == EndShift(all, 0)
    requires mref <= all[|all| - 1].rc <= mref + REF_LEN
    requires cbp == |p| - 1 - |ExtBytes(all[|all| - 1].rc + 1 - mref)|
    ensures Written(p, all, mref, cbp, csh)
  {
    hide Print, Printable, EndShift;
    assert p == [2 * 16 + mref] + (x + y);
  }

  /** Both parts of a block are printed behind the patched bytes. */
  lemma WrittenMore(p: seq<byte>, x: seq<byte>, y: seq<byte>, items: seq<Item>, lits: seq<byte>, d: nat, rc: nat, mref: nat,
                    csh0: nat, cbp: nat, csh: nat)
    requires EndsInRef(items) && Printable(items, mref) && csh0 == EndShift(items, 0) && mref < 16
    requires mref <= rc <= mref + REF_LEN && d < WIN_LEN && |lits| < 0x8000_0000
    requires x == Print(items, mref, 0, d % 8) && p == [2 * 16 + mref] + x + y
    requires
      var d1 := Shr(d, csh0);
      && y == (if lits == [] then RefBlock(d1, rc + 1 - mref, 0)
               else LitHeader(|lits|, d1 % 4) + lits + RefBlock(d1 / 4, rc + 1 - mref, 0))
      && csh == FreeBits(if lits == [] then d1 else d1 / 4)
      && cbp == |p| - 1 - |ExtBytes(rc + 1 - mref)|
    ensures Written(p, items + BlockItems(lits, d, rc), mref, cbp, csh)
  {
    var b := BlockItems(lits, d, rc);
    PrintBlock(lits, d, rc, mref, csh0);
    var all := items + b;
    PrintableAppend(items, b, mref);
    PrintAppend(items, b, mref, 0, 0);
    EndShiftAppend(items, b, 0);
    assert all[|all| - 1] == Ref(d, rc);
    WrittenAssemble(p, x, y, all, mref, cbp, csh);
  }

  lemma {:induction false} EndShiftAppend(a: seq<Item>, b: seq<Item>, sh: nat)
    ensures EndShift(a + b, sh) == EndShift(b, EndShift(a, sh))
  {
    if a == [] {
      assert a + b == b;
    } else {
      assert (a + b)[1..] == a[1..] + b;
      EndShiftAppend(a[1..], b, ShiftAfter(a[0], sh));
    }
  }
}