/** What both compressors keep: the blocks written so far stand for the source up to the literals anchor. */
module LzavEmit {
  import opened Bits
  import opened LzavMatch
  import opened LzavFormat
  import opened LzavParse
  import opened LzavCopy
  import opened LzavWrite
  import opened LzavBound

  /** `items` decodes to the first `ipa` bytes of the source, and `out` is what the writer has printed for them. */
  ghost predicate Emitted(src: seq<byte>, out: seq<byte>, ipa: nat, items: seq<Item>, mref: nat, cbp: nat, csh: nat) {
    && ipa <= |src| && EndsInRef(items)
    && Coded(src, ipa, items, mref)
    && Written(out, items, mref, cbp, csh)
    && Amortised(|out|, ipa, mref)
  }

  ghost predicate Coded(src: seq<byte>, ipa: nat, items: seq<Item>, mref: nat)
    requires ipa <= |src|
  {
    ValidItems(0, items, mref) && FarRefs(items) && Expand([], items, mref) == src[..ipa]
  }

  /** No reference is nearer than the format's minimal offset. */
  predicate FarRefs(items: seq<Item>) {
    forall i :: 0 <= i < |items| && items[i].Ref? ==> OFS_MIN <= items[i].d
  }

  lemma {:induction false} ExpandAppend(out: seq<byte>, a: seq<Item>, b: seq<Item>, mref: nat)
    requires ValidItems(|out|, a, mref) && EndsInRef(a)
    requires ValidItems(|Expand(out, a, mref)|, b, mref)
    ensures ValidItems(|out|, a + b, mref)
    ensures Expand(out, a + b, mref) == Expand(Expand(out, a, mref), b, mref)
    decreases |a|
  {
    hide CopyRef;
    if a == [] {
      assert a + b == b;
    } else {
      assert (a + b)[1..] == a[1..] + b;
      match a[0]
      case Lit(l) =>
        assert |a| > 1 ==> (a + b)[1] == a[1];
        ExpandAppend(out + l, a[1..], b, mref);
      case Ref(d, rc) =>
        ExpandAppend(CopyRef(out, d, rc), a[1..], b, mref);
    }
  }

  /** A true match continues the source. */
  lemma CopyIsSource(src: seq<byte>, p: nat, d: nat, rc: nat)
    requires 1 <= rc <= d <= p && p + rc <= |src|
    requires Agree(src, p, p - d, rc)
    ensures CopyRef(src[..p], d, rc) == src[..p + rc]
  {
    hide Agree, CopyRef;
    CopyRefSlice(src[..p], d, rc);
    AgreeIsSliceEquality(src, p, p - d, rc);
    assert src[..p][p - d..p - d + rc] == src[p - d..p - d + rc];
    SliceJoin(src, 0, p, p + rc);
  }

  lemma BlockExpand(src: seq<byte>, ipa: nat, lc: nat, rc: nat, d: nat, mref: nat)
    requires lc < 0x8000_0000 && ipa + lc + rc <= |src|
    requires 1 <= mref <= rc <= mref + REF_LEN && 4 <= d < WIN_LEN && rc <= d <= ipa + lc
    requires Agree(src, ipa + lc, ipa + lc - d, rc)
    ensures ValidItems(ipa, BlockItems(src[ipa..ipa + lc], d, rc), mref)
    ensures Expand(src[..ipa], BlockItems(src[ipa..ipa + lc], d, rc), mref) == src[..ipa + lc + rc]
  {
    CopyIsSource(src, ipa + lc, d, rc);
    assert src[..ipa] + src[ipa..ipa + lc] == src[..ipa + lc];
    assert [Ref(d, rc)][1..] == [];
    assert Expand(src[..ipa + lc], [Ref(d, rc)], mref) == src[..ipa + lc + rc];
    if lc != 0 {
      assert [Lit(src[ipa..ipa + lc]), Ref(d, rc)][1..] == [Ref(d, rc)];
    }
  }

  /** Writes the block for a true match behind `lc` literals. */
  method EmitBlock(dst: array<byte>, op0: nat, src: seq<byte>, ipa: nat, lc: nat, rc: nat, d: nat,
                   cbp0: nat, csh0: nat, mref: nat, ghost items: seq<Item>)
    returns (op: nat, cbp: nat, csh: nat)
    requires Worthwhile(rc, d, mref) && OFS_MIN <= d < WIN_LEN && rc <= d <= ipa + lc
    requires ipa + lc + 16 <= |src| < 0x8000_0000 && ipa + lc + rc <= |src|
    requires Agree(src, ipa + lc, ipa + lc - d, rc)
    requires op0 + lc + 18 <= dst.Length && Emitted(src, dst[..op0], ipa, items, mref, cbp0, csh0)
    modifies dst
    ensures op <= dst.Length && op - op0 == |LitPart(lc)| + |RefBlock(LeftOfs(d, csh0, lc), rc + 1 - mref, 0)| + lc
    ensures Emitted(src, dst[..op], ipa + lc + rc, items + BlockItems(src[ipa..ipa + lc], d, rc), mref, cbp, csh)
    ensures KeptBehind(dst, op0 + lc + 18)
  {
    hide Written, Coded, RefBlock, LitPart;
    CodedMore(src, ipa, items, lc, rc, d, mref);
    AmortisedStep(op0, ipa, lc, rc, d, LeftOfs(d, csh0, lc), mref);
    op, cbp, csh := WriteBlk(dst, op0, src, ipa, lc, rc, d, cbp0, csh0, mref, items);
  }

  lemma CodedMore(src: seq<byte>, ipa: nat, items: seq<Item>, lc: nat, rc: nat, d: nat, mref: nat)
    requires ipa + lc + rc <= |src| && lc < 0x8000_0000 && EndsInRef(items) && Coded(src, ipa, items, mref)
    requires 1 <= mref <= rc <= mref + REF_LEN && OFS_MIN <= d < WIN_LEN && rc <= d <= ipa + lc
    requires Agree(src, ipa + lc, ipa + lc - d, rc)
    ensures EndsInRef(items + BlockItems(src[ipa..ipa + lc], d, rc))
    ensures Coded(src, ipa + lc + rc, items + BlockItems(src[ipa..ipa + lc], d, rc), mref)
  {
    BlockExpand(src, ipa, lc, rc, d, mref);
    ExpandAppend([], items, BlockItems(src[ipa..ipa + lc], d, rc), mref);
  }

  /** `lzav_write_fin_2`: a literal block without carried bits. */
  method WriteFin(dst: array<byte>, op0: nat, src: seq<byte>, ipa: nat) returns (op: nat)
    requires ipa < |src| < 0x8000_0000 + ipa
    requires op0 + (|src| - ipa) + 6 <= dst.Length
    modifies dst
    ensures op <= op0 + (|src| - ipa) + 6
    ensures dst[..op] == old(dst[..op0]) + LitHeader(|src| - ipa, 0) + src[ipa..]
    ensures KeptBehind(dst, op0 + (|src| - ipa) + 6)
  {
    var lc := |src| - ipa;
    ghost var p := dst[..op0];
    LitHeaderBound(lc, 0);
    op := op0;
    var lcw := lc;
    if lc > 15 {
      PutByte(dst, op, 0);
      lcw := lcw - 16;
      op := WriteVar(dst, op + 1, lcw);
    } else {
      PutByte(dst, op, lcw);
      op := op + 1;
    }
    assert dst[..op] == p + LitHeader(lc, 0);
    AppendIn(dst, op, src, ipa, lc);
    op := op + lc;
    assert src[ipa..ipa + lc] == src[ipa..];
  }

  /** The final literals complete the stream. */
  lemma Finish(src: seq<byte>, p: seq<byte>, out: seq<byte>, ipa: nat, cbp: nat, csh: nat, mref: nat, items: seq<Item>)
    requires ipa + LIT_FIN <= |src| < 0x8000_0000 && 1 <= mref
    requires Emitted(src, p, ipa, items, mref, cbp, csh)
    requires out == p + LitHeader(|src| - ipa, 0) + src[ipa..]
    ensures Complete(src, out, items + [Lit(src[ipa..])], mref)
  {
    FinPrint(p, items, src[ipa..], mref, cbp, csh);
    FinExpand(src, ipa, items, mref);
  }

  /** `out` is a stream whose blocks decode to the whole source. */
  ghost predicate Complete(src: seq<byte>, out: seq<byte>, items: seq<Item>, mref: nat) {
    && 1 <= mref < 16 && Printable(items, mref) && WellFormed(items)
    && out == Stream(items, mref)
    && ValidItems(0, items, mref) && FarRefs(items) && Expand([], items, mref) == src
  }

  lemma {:induction false} FinWellFormed(items: seq<Item>, l: seq<byte>, n: nat, mref: nat)
    requires EndsInRef(items) && ValidItems(n, items, mref)
    ensures WellFormed(items + [Lit(l)]) && FinalLits(items + [Lit(l)]) == l
    decreases |items|
  {
    if items == [] {
      assert items + [Lit(l)] == [Lit(l)];
    } else {
      assert (items + [Lit(l)])[1..] == items[1..] + [Lit(l)];
      var n' := match items[0] case Lit(k) => n + |k| case Ref(_, rc) => n + rc;
      FinWellFormed(items[1..], l, n', mref);
    }
  }

  lemma FinPrint(p: seq<byte>, items: seq<Item>, l: seq<byte>, mref: nat, cbp: nat, csh: nat)
    requires Written(p, items, mref, cbp, csh) && LIT_FIN <= |l| < 0x8000_0000 && ValidItems(0, items, mref)
    ensures WellFormed(items + [Lit(l)]) && Printable(items + [Lit(l)], mref)
    ensures Stream(items + [Lit(l)], mref) == p + LitHeader(|l|, 0) + l
  {
    hide Printable, PrintItem, ValidItems, EndShift, LitHeader;
    FinWellFormed(items, l, 0, mref);
    PrintLit(l, mref, csh);
    PrintableAppend(items, [Lit(l)], mref);
    PrintAppend(items, [Lit(l)], mref, 0, 0);
    StreamUnpadded(items + [Lit(l)], mref, Print(items, mref, 0, 0), LitHeader(|l|, 0) + l);
    assert p + LitHeader(|l|, 0) + l == p + (LitHeader(|l|, 0) + l);
  }

  lemma PrintLit(l: seq<byte>, mref: nat, csh: nat)
    requires 1 <= |l| < 0x8000_0000
    ensures Printable([Lit(l)], mref) && NextOfs([Lit(l)]) == 0
    ensures Print([Lit(l)], mref, csh, 0) == LitHeader(|l|, 0) + l
  {
    assert [Lit(l)][1..] == [];
  }

  lemma StreamUnpadded(items: seq<Item>, mref: nat, x: seq<byte>, y: seq<byte>)
    requires mref < 16 && Printable(items, mref) && Print(items, mref, 0, 0) == x + y
    requires |FinalLits(items)| >= LIT_FIN
    ensures Stream(items, mref) == [2 * 16 + mref] + x + y
  {
  }

  lemma FinExpand(src: seq<byte>, ipa: nat, items: seq<Item>, mref: nat)
    requires ipa < |src| < 0x8000_0000 && EndsInRef(items) && Coded(src, ipa, items, mref)
    ensures ValidItems(0, items + [Lit(src[ipa..])], mref)
    ensures FarRefs(items + [Lit(src[ipa..])])
    ensures Expand([], items + [Lit(src[ipa..])], mref) == src
  {
    var b := [Lit(src[ipa..])];
    assert b[1..] == [];
    assert src[..ipa] + src[ipa..] == src;
    assert ValidItems(ipa, b, mref);
    assert Expand(src[..ipa], b, mref) == Expand(src[..ipa] + src[ipa..], [], mref);
    ExpandAppend([], items, b, mref);
  }

  /** Nothing has been written but the prefix byte. */
  lemma EmittedNothing(src: seq<byte>, mref: nat)
    requires mref < 16
    ensures Emitted(src, [2 * 16 + mref], 0, [], mref, 1, 0)
  {
  }

  /** There is room for one more block. */
  lemma BlockRoom(src: seq<byte>, out: seq<byte>, ipa: nat, items: seq<Item>, mref: nat, cbp: nat, csh: nat, lc: nat)
    requires Emitted(src, out, ipa, items, mref, cbp, csh) && ipa + lc + 11 <= |src|
    ensures mref == 6 ==> |out| + lc + 18 <= CompressBound(|src|)
    ensures mref == 5 ==> |out| + lc + 18 <= CompressBoundHi(|src|)
  {
    if mref == 6 {
      RoomForBlock(|out|, ipa, lc, |src|);
    } else if mref == 5 {
      RoomForBlockHi(|out|, ipa, lc, |src|);
    }
  }

  lemma EmittedRoom(src: seq<byte>, out: seq<byte>, ipa: nat, items: seq<Item>, mref: nat, cbp: nat, csh: nat)
    requires Emitted(src, out, ipa, items, mref, cbp, csh)
    ensures mref == 6 ==> |out| + (|src| - ipa) + 6 <= CompressBound(|src|)
    ensures mref == 5 ==> |out| + (|src| - ipa) + 6 <= CompressBoundHi(|src|)
  {
    RoomToFinish(|out|, ipa, |src|);
  }
}
