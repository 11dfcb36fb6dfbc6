/** `lzav_decompress_2` and its callers.  The steps below are the parts of one loop body; `Regs` holds the
    variables the loop updates, and an `Outcome` says where control goes next. */
module LzavDecompress {
  import opened Bits
  import opened LzavMatch
  import opened LzavFormat
  import opened LzavParse
  import opened LzavCopy

  const E_PARAMS := -1
  const E_SRCOOB := -2
  const E_DSTOOB := -3
  const E_REFOOB := -4
  const E_DSTLEN := -5
  const E_UNKFMT := -6

  datatype Regs = Regs(ip: nat, op: nat, bh: byte, cv: nat, csh: nat)

  datatype Outcome = Loop | RefBlk | Stop | Return(code: int, pwl: nat)

  /** The registers point at the start of a block inside both buffers. */
  predicate InBounds(r: Regs, srcl: nat, dstl: nat) {
    r.ip <= srcl && r.op <= dstl && r.cv < Pow2(r.csh)
  }

  /** What is left to read is `rest`, and decoding it after `out` byte by byte gives `full`. */
  ghost predicate Pending(src: seq<byte>, r: Regs, mref: nat, rest: seq<Item>, out: seq<byte>, full: seq<byte>)
    requires r.ip <= |src|
  {
    && Parse(src[r.ip..], mref, r.csh, r.cv) == Some(rest)
    && ValidItems(|out|, rest, mref)
    && Expand(out, rest, mref) == full
  }

  /** The whole output did not fit: all of the destination is written, with a prefix of the output. */
  ghost predicate Overrun(o: Outcome, dst: seq<byte>, full: seq<byte>) {
    o == Return(E_DSTOOB, |dst|) && |dst| < |full| && dst == full[..|dst|]
  }

  // ---------------------------------------------------------------- matches

  /** A match whose length is in the header byte. */
  method ShortMatch(dst: array<byte>, op: nat, d: nat, cc: nat) returns (o: Outcome)
    requires d <= op <= dst.Length && cc <= 29
    modifies dst
    ensures o.Loop? || (o.Return? && o.code < 0 && o.pwl <= dst.Length)
    ensures o.Loop? ==> op + cc <= dst.Length
    ensures (if op + 63 < dst.Length then d <= 3 else cc > d) ==> o == Return(E_REFOOB, op) && dst[..] == old(dst[..])
    ensures 4 <= d && 1 <= cc <= d && cc <= 20 ==>
      var c := CopyRef(old(dst[..op]), d, cc);
      if op + cc <= dst.Length then o.Loop? && dst[..op + cc] == c else Overrun(o, dst[..], c)
  {
    ghost var out := dst[..op];
    if op < dst.Length - 63 {
      if d > 15 {
        CopyTwo(dst, op, d, 16, 4);
        if cc <= 20 {
          CopyRefPrefix(out, d, cc, 20);
          assert dst[..op + cc] == dst[..op + 20][..op + cc];
        }
        return Loop;
      }
      if d > 7 {
        CopyTwo(dst, op, d, 8, 8);
        if cc <= d {
          CopyRefPrefix(out, d, cc, 16);
          assert dst[..op + cc] == dst[..op + 16][..op + cc];
        }
        return Loop;
      }
      if d > 3 {
        CopyTwo(dst, op, d, 4, 4);
        if cc <= d {
          CopyRefPrefix(out, d, cc, 8);
          assert dst[..op + cc] == dst[..op + 8][..op + cc];
        }
        return Loop;
      }
      return Return(E_REFOOB, op);
    }
    o := ExactMatch(dst, op, d, cc);
  }

  /** The copy without overshoot, near the end of the destination. */
  method ExactMatch(dst: array<byte>, op: nat, d: nat, cc: nat) returns (o: Outcome)
    requires d <= op <= dst.Length
    modifies dst
    ensures o.Loop? || (o.Return? && o.code < 0 && o.pwl <= dst.Length)
    ensures o.Loop? ==> op + cc <= dst.Length
    ensures cc > d ==> o == Return(E_REFOOB, op) && dst[..] == old(dst[..])
    ensures 1 <= cc <= d ==>
      var c := CopyRef(old(dst[..op]), d, cc);
      if op + cc <= dst.Length then o.Loop? && dst[..op + cc] == c else Overrun(o, dst[..], c)
  {
    if cc > d {
      return Return(E_REFOOB, op);
    }
    ghost var out := dst[..op];
    if op + cc > dst.Length {
      var n := dst.Length - op;
      if n > 0 {
        CopyChunk(dst, op, d, n);
      }
      CopyRefPrefix(out, d, n, cc);
      assert dst[..] == dst[..op + n];
      return Return(E_DSTOOB, dst.Length);
    }
    if cc > 0 {
      CopyChunk(dst, op, d, cc);
    }
    return Loop;
  }

  /** A match with additional length bytes. */
  method LongMatch(dst: array<byte>, op: nat, d: nat, cc: nat) returns (o: Outcome)
    requires d <= op <= dst.Length && cc >= 1
    modifies dst
    ensures o.Loop? || (o.Return? && o.code < 0 && o.pwl <= dst.Length)
    ensures o.Loop? ==> op + cc <= dst.Length
    ensures 1 <= cc <= d ==>
      var c := CopyRef(old(dst[..op]), d, cc);
      if op + cc <= dst.Length then o.Loop? && dst[..op + cc] == c else Overrun(o, dst[..], c)
  {
    if op + cc < dst.Length - 63 && d > 15 {
      CopyLong(dst, op, d, cc);
      return Loop;
    }
    o := ExactMatch(dst, op, d, cc);
  }

  // ---------------------------------------------------------------- reference blocks

  /** `1 << ( bt << 3 )` */
  function OfsLimit(bt: nat): nat
    requires bt < 4
  {
    match bt
    case 0 => 1
    case 1 => 0x100
    case 2 => 0x1_0000
    case _ => 0x100_0000
  }

  lemma WordSplit(b0: byte, b1: byte, b2: byte, b3: byte, v: nat)
    requires v == b0 + 0x100 * (b1 as nat) + 0x1_0000 * (b2 as nat) + 0x100_0000 * (b3 as nat)
    ensures v % 0x100 == b0 && v / 0x100 % 256 == b1
    ensures v % 0x1_0000 == b0 + 0x100 * (b1 as nat) && v / 0x1_0000 % 256 == b2
    ensures v % 0x100_0000 == b0 + 0x100 * (b1 as nat) + 0x1_0000 * (b2 as nat) && v / 0x100_0000 % 256 == b3
  {
  }

  /** The one 32-bit load gives the offset bytes and the byte behind them. */
  lemma HeaderWord(s: seq<byte>)
    requires |s| >= 7
    ensures
      var bt, bv := s[0] / 16 % 4, LoadLE(s[1..5]);
      bv % OfsLimit(bt) == ParseOfs(s) && bv / OfsLimit(bt) % 256 == s[1 + bt]
  {
    var bt, bv := s[0] / 16 % 4, LoadLE(s[1..5]);
    LoadFour(s[1..5]);
    WordSplit(s[1], s[2], s[3], s[4], bv);
    if bt == 1 {
      LoadOne(s[1..2]);
    } else if bt == 2 {
      LoadPair(s[1..3]);
    } else if bt == 3 {
      LoadThree(s[1..4]);
    }
  }

  lemma LoadFour(s: seq<byte>)
    requires |s| == 4
    ensures LoadLE(s) == s[0] + 0x100 * (s[1] as nat) + 0x1_0000 * (s[2] as nat) + 0x100_0000 * (s[3] as nat)
  {
    LoadThree(s[1..]);
  }

  /** The parts of an offset do not overlap, so `|` joins them as `+` does. */
  lemma OfsJoin(hi: nat, lo: nat, cv: nat, csh: nat)
    requires lo < 4 && cv < Pow2(csh)
    ensures BitOr(lo, hi * 4) == lo + 4 * hi
    ensures BitOr(Shl((lo + 4 * hi) % WIN_LEN, csh), cv) == Shl((lo + 4 * hi) % WIN_LEN, csh) + cv
  {
    assert Pow2(2) == 4;
    OrDisjoint(hi, lo, 2);
    var x := (lo + 4 * hi) % WIN_LEN;
    ShlIsMul(x, csh);
    OrDisjoint(x, cv, csh);
  }

  lemma CarryBound(o: nat, bt: nat)
    requires bt < 4 && o < OfsLimit(bt)
    ensures o / 0x20_0000 < Pow2(if bt == 3 then 3 else 0)
  {
    assert Pow2(3) == 8 && Pow2(0) == 1;
  }

  /** Reading a reference header: the offset, the carry for the next one, and the byte behind the offset. */
  method ReadOffset(src: seq<byte>, r: Regs, ghost mref: nat) returns (d: nat, r': Regs)
    requires r.ip + 7 <= |src| && r.bh == src[r.ip] && r.cv < Pow2(r.csh)
    ensures
      var f := ParseRef(src[r.ip..], mref, r.csh, r.cv);
      d == f.d && r'.csh == f.sh && r'.cv == f.cv
    ensures r'.cv < Pow2(r'.csh) && r'.op == r.op
    ensures r'.ip == r.ip + 1 + r.bh / 16 % 4 && r'.bh == src[r'.ip]
  {
    hide LoadLE, ParseOfs, ParseRefLen, Shl, BitOr;
    ghost var s := src[r.ip..];
    var bt := r.bh / 16 % 4;
    var bv := LoadLE(src[r.ip + 1..r.ip + 5]);
    assert src[r.ip + 1..r.ip + 5] == s[1..5];
    HeaderWord(s);
    var o := bv % OfsLimit(bt);
    bv := bv / OfsLimit(bt);
    OfsJoin(o, r.bh / 64, r.cv, r.csh);
    CarryBound(o, bt);
    d := BitOr(Shl(BitOr(r.bh / 64, o * 4) % WIN_LEN, r.csh), r.cv);
    r' := Regs(r.ip + 1 + bt, r.op, bv % 256, o / 0x20_0000, if bt == 3 then 3 else 0);
  }

  /** Reading the match length; afterwards `ip` and `bh` are at the next block. */
  method ReadLength(src: seq<byte>, q: Regs, bh: byte, ghost ip0: nat, mref: nat) returns (cc: nat, q': Regs)
    requires mref < 16 && ip0 + 7 <= |src| && src[ip0] == bh && bh % 16 == 0
    requires q.ip == ip0 + 1 + bh / 16 % 4 && q.bh == src[q.ip]
    ensures (cc, q'.ip - ip0) == ParseRefLen(src[ip0..], mref) && cc >= 15
    ensures q' == q.(ip := q'.ip, bh := src[q'.ip])
  {
    cc := 16 + mref - 1 + q.bh;
    var ip := q.ip + 1;
    if q.bh == 255 {
      cc := cc + src[ip];
      ip := ip + 1;
    }
    q' := q.(ip := ip, bh := src[ip]);
  }

  /** The length of the match and the copy itself, once the offset `d` is known to be in range. */
  method MatchStep(src: seq<byte>, dst: array<byte>, r: Regs, q0: Regs, d: nat, mref: nat) returns (r': Regs, o: Outcome)
    requires mref < 16 && r.ip + 7 <= |src| && r.bh == src[r.ip] && d <= r.op <= dst.Length
    requires q0.ip == r.ip + 1 + r.bh / 16 % 4 && q0.bh == src[q0.ip] && q0.op == r.op
    modifies dst
    ensures o.Loop? || (o.Return? && o.code < 0 && o.pwl <= dst.Length)
    ensures o.Loop? ==> r'.op <= dst.Length && r.ip < r'.ip < |src| && r'.bh == src[r'.ip]
    ensures r'.cv == q0.cv && r'.csh == q0.csh
    ensures
      var (cc, k) := ParseRefLen(src[r.ip..], mref);
      o.Loop? ==> r'.ip == r.ip + k && r'.op == r.op + cc
    ensures
      var cc := ParseRefLen(src[r.ip..], mref).0;
      4 <= d && 1 <= cc <= d && (r.bh % 16 != 0 ==> cc <= 20) ==>
        var c := CopyRef(old(dst[..r.op]), d, cc);
        if o.Loop? then dst[..r.op + cc] == c else Overrun(o, dst[..], c)
  {
    ghost var s := src[r.ip..];
    assert s[0] == src[r.ip];
    var cc: nat := r.bh % 16;
    var q := q0;
    if cc != 0 {
      cc := cc + mref - 1;
      o := ShortMatch(dst, r.op, d, cc);
    } else {
      cc, q := ReadLength(src, q, r.bh, r.ip, mref);
      o := LongMatch(dst, r.op, d, cc);
    }
    r' := q.(op := r.op + cc);
  }

  /** The body of `_refblk`. */
  method RefStep(src: seq<byte>, dst: array<byte>, r: Regs, mref: nat,
                 ghost rest: seq<Item>, ghost full: seq<byte>, ghost good: bool)
    returns (r': Regs, o: Outcome)
    requires mref < 16 && r.ip + 7 <= |src| && r.bh == src[r.ip] && InBounds(r, |src|, dst.Length)
    requires good ==> 1 <= mref <= 6 && rest != [] && rest[0].Ref?
    requires good ==> Pending(src, r, mref, rest, dst[..r.op], full)
    modifies dst
    ensures o.Loop? || (o.Return? && o.code < 0 && o.pwl <= dst.Length)
    ensures o.Loop? ==> InBounds(r', |src|, dst.Length) && r.ip < r'.ip < |src| && r'.bh == src[r'.ip]
    ensures good && o.Loop? ==> Pending(src, r', mref, rest[1..], dst[..r'.op], full)
    ensures good && o.Return? ==> Overrun(o, dst[..], full)
    ensures ParseRef(src[r.ip..], mref, r.csh, r.cv).d > r.op ==> o == Return(E_REFOOB, r.op) && dst[..] == old(dst[..])
  {
    ghost var out := dst[..r.op];
    if good {
      RefPending(src, r, mref, rest, out, full);
    }
    var d, q := ReadOffset(src, r, mref);
    if d > r.op {
      return r, Return(E_REFOOB, r.op);
    }
    r', o := MatchStep(src, dst, r, q, d, mref);
    if good {
      if o.Loop? {
        RefDone(src, r, mref, rest, out, full, r', dst[..r'.op]);
      } else {
        RefOverrun(src, r, mref, rest, out, full, dst[..], o);
      }
    }
  }

  /** What the parser's step says about a pending reference. */
  lemma RefPending(src: seq<byte>, r: Regs, mref: nat, rest: seq<Item>, out: seq<byte>, full: seq<byte>)
    requires r.ip + 7 <= |src| && 1 <= mref <= 6
    requires Pending(src, r, mref, rest, out, full) && rest != [] && rest[0].Ref?
    ensures
      var f := ParseRef(src[r.ip..], mref, r.csh, r.cv);
      && rest[0] == Ref(f.d, f.rc) && 4 <= f.d <= |out| && 1 <= f.rc <= f.d
      && (src[r.ip] % 16 != 0 ==> f.rc <= 20)
  {
    assert src[r.ip..][0] == src[r.ip];
  }

  lemma RefDone(src: seq<byte>, r: Regs, mref: nat, rest: seq<Item>, out: seq<byte>, full: seq<byte>,
                r': Regs, out': seq<byte>)
    requires r.ip + 7 <= |src|
    requires Pending(src, r, mref, rest, out, full) && rest != [] && rest[0].Ref?
    requires
      var f := ParseRef(src[r.ip..], mref, r.csh, r.cv);
      && rest[0] == Ref(f.d, f.rc) && 1 <= f.d <= |out| && f.rc >= 0
      && r'.ip == r.ip + f.k && r'.csh == f.sh && r'.cv == f.cv && out' == CopyRef(out, f.d, f.rc)
    ensures Pending(src, r', mref, rest[1..], out', full)
  {
    hide ParseLit, ParseRef, Shl, CopyRef;
    var f := ParseRef(src[r.ip..], mref, r.csh, r.cv);
    assert src[r.ip..][f.k..] == src[r'.ip..];
  }

  lemma RefOverrun(src: seq<byte>, r: Regs, mref: nat, rest: seq<Item>, out: seq<byte>, full: seq<byte>,
                   dst: seq<byte>, o: Outcome)
    requires r.ip <= |src|
    requires Pending(src, r, mref, rest, out, full) && rest != [] && rest[0].Ref?
    requires 1 <= rest[0].d <= |out| && Overrun(o, dst, CopyRef(out, rest[0].d, rest[0].rc))
    ensures Overrun(o, dst, full)
  {
    var c := CopyRef(out, rest[0].d, rest[0].rc);
    assert full[..|dst|] == full[..|c|][..|dst|];
  }

  // ---------------------------------------------------------------- literal blocks

  lemma BitOrSmall(acc: nat, v: nat, sh: nat)
    requires acc < Pow2(sh) && v < 128
    ensures BitOr(acc, Shl(v, sh)) == acc + Shl(v, sh) < Pow2(sh + 7)
  {
    ShlIsMul(v, sh);
    OrDisjoint(v, acc, sh);
    Pow2Add(7, sh);
    assert Pow2(7) == 128;
    MulLess(acc, v, Pow2(sh));
  }

  lemma MulLess(acc: nat, v: nat, p: nat)
    requires acc < p && v < 128
    ensures acc + v * p < 128 * p
  {
    assert v * p <= 127 * p;
  }

  /** The additional length bytes of a literal block. */
  method ReadVarLen(src: seq<byte>, ip0: nat) returns (cc: nat, ip: nat)
    requires ip0 + 7 <= |src| && src[ip0] % 16 == 0
    ensures (cc, ip - ip0) == ParseLit(src[ip0..])
    ensures 16 <= cc && ip0 < ip <= ip0 + 6
  {
    ghost var s := src[ip0..];
    assert s[0] == src[ip0] && s[1] == src[ip0 + 1];
    var bh := src[ip0 + 1];
    cc := bh % 128;
    ip := ip0 + 2;
    if bh >= 128 {
      cc, ip := ReadVarTail(src, ip0, cc);
      cc := cc % 0x8000_0000;
    }
    cc := cc + 16;
  }

  method ReadVarTail(src: seq<byte>, ip0: nat, cc0: nat) returns (cc: nat, ip: nat)
    requires ip0 + 7 <= |src| && cc0 < 128
    ensures cc == cc0 + ParseVar(src[ip0..], 1).0 && ip == ip0 + ParseVar(src[ip0..], 1).1
  {
    ghost var s := src[ip0..];
    cc := cc0;
    ip := ip0 + 2;
    var sh := 7;
    ghost var k := 1;
    assert Pow2(7) == 128;
    ghost var val := cc0 + ParseVar(s, 1).0;
    ghost var end := ip0 + ParseVar(s, 1).1;
    while true
      invariant 1 <= k <= 4 && sh == 7 * k && ip == ip0 + k + 1
      invariant cc < Pow2(sh)
      invariant val == cc + ParseVar(s, k).0 && end == ip0 + ParseVar(s, k).1
      decreases 28 - sh
    {
      var bh := src[ip];
      assert s[k + 1] == bh;
      ip := ip + 1;
      BitOrSmall(cc, bh % 128, sh);
      cc := BitOr(cc, Shl(bh % 128, sh));
      if sh == 28 || bh < 128 {
        break;
      }
      sh := sh + 7;
      k := k + 1;
    }
  }

  /** The carry bits of a literal block go above those already seen. */
  lemma CarryTwoMore(cv: nat, ncv: nat, csh: nat)
    requires cv < Pow2(csh) && ncv < 4
    ensures BitOr(cv, Shl(ncv, csh)) == cv + Shl(ncv, csh) < Pow2(csh + 2)
  {
    ShlIsMul(ncv, csh);
    OrDisjoint(ncv, cv, csh);
    Pow2Add(2, csh);
    assert Pow2(2) == 4;
    assert ncv * Pow2(csh) <= 3 * Pow2(csh);
  }

  /** What the parser's step says about a pending literal run. */
  lemma LitPending(src: seq<byte>, r: Regs, mref: nat, rest: seq<Item>, out: seq<byte>, full: seq<byte>)
    requires r.ip + 7 <= |src| && src[r.ip] / 16 % 4 == 0
    requires Pending(src, r, mref, rest, out, full)
    ensures
      var (cc, k) := ParseLit(src[r.ip..]);
      && r.ip + k + cc <= |src|
      && rest != [] && rest[0] == Lit(src[r.ip + k..r.ip + k + cc])
  {
    var s := src[r.ip..];
    var (cc, k) := ParseLit(s);
    assert s[0] == src[r.ip];
    assert s[k..k + cc] == src[r.ip + k..r.ip + k + cc];
  }

  lemma LitDone(src: seq<byte>, r: Regs, mref: nat, rest: seq<Item>, out: seq<byte>, full: seq<byte>,
                r': Regs, out': seq<byte>)
    requires r.ip + 7 <= |src| && src[r.ip] / 16 % 4 == 0 && r'.ip <= |src|
    requires Pending(src, r, mref, rest, out, full) && rest != [] && rest[0].Lit?
    requires
      var (cc, k) := ParseLit(src[r.ip..]);
      r'.ip == r.ip + k + cc
    requires r'.csh == r.csh + 2 && r'.cv == r.cv + Shl(src[r.ip] / 64, r.csh) && out' == out + rest[0].bytes
    ensures Pending(src, r', mref, rest[1..], out', full)
    ensures r'.ip + 7 <= |src| ==> |rest| > 1 && rest[1].Ref?
  {
    hide ParseLit, ParseRef, Shl, CopyRef;
    var s := src[r.ip..];
    var (cc, k) := ParseLit(s);
    assert s[0] == src[r.ip];
    assert s[k + cc..] == src[r'.ip..];
  }

  lemma LitOverrun(src: seq<byte>, r: Regs, mref: nat, rest: seq<Item>, out: seq<byte>, full: seq<byte>,
                   dst: seq<byte>, o: Outcome)
    requires r.ip <= |src|
    requires Pending(src, r, mref, rest, out, full) && rest != [] && rest[0].Lit?
    requires Overrun(o, dst, out + rest[0].bytes)
    ensures Overrun(o, dst, full)
  {
    var c := out + rest[0].bytes;
    assert full[..|dst|] == full[..|c|][..|dst|];
  }

  /** The source has ended inside a literal run: what there was of it, or as much as fits, follows what had been written. */
  ghost predicate PastSource(o: Outcome, out: seq<byte>, dst: seq<byte>, lits: seq<byte>) {
    && o.Return? && o.code == E_SRCOOB && |out| <= o.pwl <= |dst| && dst[..o.pwl] <= out + lits
    && (o.pwl == |dst| || o.pwl == |out| + |lits|)
  }

  /** Copying a literal run without overshoot, with the checks of both ends. */
  method LitExact(src: seq<byte>, dst: array<byte>, op: nat, ipd: nat, cc: nat) returns (o: Outcome)
    requires ipd <= |src| && op <= dst.Length
    modifies dst
    ensures o.Loop? || o.Stop? || (o.Return? && o.code < 0 && o.pwl <= dst.Length)
    ensures o.Loop? ==> ipd + cc < |src|
    ensures o.Stop? ==> ipd + cc == |src|
    ensures o.Loop? || o.Stop? ==> op + cc <= dst.Length && dst[..op + cc] == old(dst[..op]) + src[ipd..ipd + cc]
    ensures ipd + cc <= |src| && o.Return? ==> Overrun(o, dst[..], old(dst[..op]) + src[ipd..ipd + cc])
    ensures ipd + cc > |src| ==> PastSource(o, old(dst[..op]), dst[..], src[ipd..])
  {
    ghost var out := dst[..op];
    if op + cc > dst.Length {
      if ipd + cc > |src| {
        o := LitPastSource(src, dst, op, ipd);
        return;
      }
      var n := dst.Length - op;
      AppendIn(dst, op, src, ipd, n);
      assert dst[..] == dst[..op + n];
      assert out + src[ipd..ipd + n] == (out + src[ipd..ipd + cc])[..dst.Length];
      return Return(E_DSTOOB, dst.Length);
    }
    if ipd + cc < |src| {
      AppendIn(dst, op, src, ipd, cc);
      return Loop;
    }
    if ipd + cc != |src| {
      o := LitPastSource(src, dst, op, ipd);
      return;
    }
    AppendIn(dst, op, src, ipd, cc);
    return Stop;
  }

  /** `_err_srcoob_lit`: the run claims more bytes than the source holds; what is there is still copied. */
  method LitPastSource(src: seq<byte>, dst: array<byte>, op: nat, ipd: nat) returns (o: Outcome)
    requires ipd <= |src| && op <= dst.Length
    modifies dst
    ensures PastSource(o, old(dst[..op]), dst[..], src[ipd..])
  {
    var cc := |src| - ipd;
    if cc < dst.Length - op {
      AppendIn(dst, op, src, ipd, cc);
      return Return(E_SRCOOB, op + cc);
    }
    AppendIn(dst, op, src, ipd, dst.Length - op);
    return Return(E_SRCOOB, dst.Length);
  }

  /** Copying a literal run: fast when both buffers leave room to overshoot. */
  method LitCopy(src: seq<byte>, dst: array<byte>, op: nat, ipd: nat, cc: nat, short: bool) returns (o: Outcome)
    requires 1 <= cc && ipd <= |src| && op <= dst.Length && (short <==> cc < 16)
    modifies dst
    ensures !o.Return? || (o.code < 0 && o.pwl <= dst.Length)
    ensures o.Loop? ==> ipd + cc < |src|
    ensures o.Stop? ==> ipd + cc == |src|
    ensures o.RefBlk? ==> ipd + cc + 7 < |src|
    ensures !o.Return? ==> op + cc <= dst.Length && dst[..op + cc] == old(dst[..op]) + src[ipd..ipd + cc]
    ensures ipd + cc <= |src| && o.Return? ==> Overrun(o, dst[..], old(dst[..op]) + src[ipd..ipd + cc])
    ensures ipd + cc > |src| ==> PastSource(o, old(dst[..op]), dst[..], src[ipd..])
  {
    var ipet := |src| - 6;
    var opet := dst.Length - 63;
    if short {
      if op < opet && ipd < ipet - 16 {
        ghost var out := dst[..op];
        AppendIn(dst, op, src, ipd, 16);
        assert dst[..op + cc] == dst[..op + 16][..op + cc];
        assert out + src[ipd..ipd + cc] == (out + src[ipd..ipd + 16])[..op + cc];
        return RefBlk;
      }
    } else if op + cc < opet && ipd + cc < ipet - 64 {
      CopyLongIn(dst, op, src, ipd, cc);
      return RefBlk;
    }
    o := LitExact(src, dst, op, ipd, cc);
  }

  /** A literal block. */
  method LitStep(src: seq<byte>, dst: array<byte>, r: Regs, mref: nat,
                 ghost rest: seq<Item>, ghost full: seq<byte>, ghost good: bool)
    returns (r': Regs, o: Outcome)
    requires r.ip + 7 <= |src| && r.bh == src[r.ip] && r.bh / 16 % 4 == 0 && InBounds(r, |src|, dst.Length)
    requires good ==> Pending(src, r, mref, rest, dst[..r.op], full)
    modifies dst
    ensures !o.Return? || (o.code < 0 && o.pwl <= dst.Length)
    ensures !o.Return? ==> InBounds(r', |src|, dst.Length) && r.ip < r'.ip
    ensures o.Loop? ==> r'.ip < |src| && r'.bh == src[r'.ip]
    ensures o.RefBlk? ==> r'.ip + 7 < |src| && r'.bh == src[r'.ip]
    ensures o.Stop? ==> r'.ip == |src|
    ensures good && !o.Return? ==> Pending(src, r', mref, rest[1..], dst[..r'.op], full)
    ensures good && o.RefBlk? ==> |rest| > 1 && rest[1].Ref?
    ensures good && o.Return? ==> Overrun(o, dst[..], full)
    ensures
      var (cc, k) := ParseLit(src[r.ip..]);
      r.ip + k + cc > |src| ==> r.ip + k <= |src| && PastSource(o, old(dst[..r.op]), dst[..], src[r.ip + k..])
  {
    hide Pending, Shl, BitOr, Expand, PastSource, Overrun;
    ghost var out := dst[..r.op];
    if good {
      LitPending(src, r, mref, rest, out, full);
    }
    var ipd, cc := r.ip + 1, r.bh % 16 as nat;
    var short := cc != 0;
    if !short {
      cc, ipd := ReadVarLen(src, r.ip);
    }
    assert (cc, ipd - r.ip) == ParseLit(src[r.ip..]);
    CarryTwoMore(r.cv, r.bh / 64, r.csh);
    o := LitCopy(src, dst, r.op, ipd, cc, short);
    var ip := ipd + cc;
    r' := Regs(ip, r.op + cc, if ip < |src| then src[ip] else r.bh, BitOr(r.cv, Shl(r.bh / 64, r.csh)), r.csh + 2);
    if good {
      if o.Return? {
        LitOverrun(src, r, mref, rest, out, full, dst[..], o);
      } else {
        LitDone(src, r, mref, rest, out, full, r', dst[..r'.op]);
      }
    }
  }

  // ---------------------------------------------------------------- the decoder

  /** What a byte-at-a-time decoder makes of a stream, if its blocks are complete and its references real. */
  ghost function Meaning(src: seq<byte>): (r: Option<seq<byte>>) {
    if src == [] || !(1 <= src[0] % 16 <= 6) then None
    else
      var mref := src[0] % 16;
      match Parse(src[1..], mref, 0, 0)
      case None => None
      case Some(items) =>
        if items != [] && ValidItems(0, items, mref) then Some(Expand([], items, mref)) else None
  }

  function Min(a: nat, b: nat): (m: nat)
    ensures m <= a && m <= b && (m == a || m == b)
  {
    if a < b then a else b
  }

  /** The result for a destination of `dstl` bytes when the stream means `full`. */
  function ExpectedCode(full: seq<byte>, dstl: nat): (r: int)
    ensures r >= 0 ==> r == dstl
    ensures (r == E_DSTLEN <==> |full| < dstl) && (r == E_DSTOOB <==> |full| > dstl)
  {
    if |full| == dstl then dstl else if |full| < dstl then E_DSTLEN else E_DSTOOB
  }

  /** One pass through the loop body. */
  method Step(src: seq<byte>, dst: array<byte>, r: Regs, toRef: bool, mref: nat,
              ghost rest: seq<Item>, ghost full: seq<byte>, ghost good: bool)
    returns (r': Regs, o: Outcome)
    requires mref < 16 && r.ip + 7 <= |src| && r.bh == src[r.ip] && InBounds(r, |src|, dst.Length)
    requires good ==> 1 <= mref <= 6 && Pending(src, r, mref, rest, dst[..r.op], full)
    requires good && toRef ==> rest != [] && rest[0].Ref?
    modifies dst
    ensures !o.Return? ==> InBounds(r', |src|, dst.Length) && r.ip < r'.ip
    ensures o.Return? ==> o.code < 0 && o.pwl <= dst.Length
    ensures o.Loop? ==> r'.ip < |src| && r'.bh == src[r'.ip]
    ensures o.RefBlk? ==> r'.ip + 7 <= |src| && r'.bh == src[r'.ip]
    ensures o.Stop? ==> r'.ip == |src|
    ensures good && !o.Return? ==> rest != [] && Pending(src, r', mref, rest[1..], dst[..r'.op], full)
    ensures good && o.RefBlk? ==> |rest| > 1 && rest[1].Ref?
    ensures good && o.Return? ==> Overrun(o, dst[..], full)
  {
    if good {
      PendingHead(src, r, mref, rest, dst[..r.op], full);
    }
    if toRef || r.bh / 16 % 4 != 0 {
      r', o := RefStep(src, dst, r, mref, rest, full, good);
    } else {
      r', o := LitStep(src, dst, r, mref, rest, full, good);
    }
  }

  lemma PendingHead(src: seq<byte>, r: Regs, mref: nat, rest: seq<Item>, out: seq<byte>, full: seq<byte>)
    requires r.ip + 7 <= |src| && Pending(src, r, mref, rest, out, full)
    ensures rest != [] && (rest[0].Ref? <==> src[r.ip] / 16 % 4 != 0)
  {
    assert src[r.ip..][0] == src[r.ip];
  }

  lemma PendingEnd(src: seq<byte>, r: Regs, mref: nat, rest: seq<Item>, out: seq<byte>, full: seq<byte>)
    requires r.ip <= |src| < r.ip + 7 && Pending(src, r, mref, rest, out, full)
    ensures out == full
  {
  }

  /** `lzav_decompress_2`: for any input it stays inside both buffers and reports success only when it has filled the
      destination; for a stream that means `full` it does exactly what a byte-at-a-time decoder would. */
  method Decompress2(src: seq<byte>, dst: array<byte>) returns (ret: int, pwl: nat)
    requires src != []
    modifies dst
    ensures pwl <= dst.Length && (ret >= 0 ==> ret == pwl == dst.Length)
    ensures |src| < 8 ==> ret == E_SRCOOB && pwl == 0
    ensures Meaning(src).Some? ==>
      var full := Meaning(src).value;
      && ret == ExpectedCode(full, dst.Length)
      && pwl == Min(|full|, dst.Length)
      && dst[..pwl] == full[..pwl]
  {
    pwl := dst.Length;
    var mref := src[0] % 16;
    var ipet := |src| - 6;
    if 1 >= ipet {
      return E_SRCOOB, 0;
    }
    ghost var good := Meaning(src).Some?;
    ghost var rest := if good then Parse(src[1..], mref, 0, 0).value else [];
    ghost var full := if good then Meaning(src).value else [];
    var r := Regs(1, 0, src[1], 0, 0);
    assert dst[..0] == [];
    var o := Loop;
    while o == RefBlk || (o == Loop && r.ip < ipet)
      invariant o != Stop ==> r.ip < |src| && r.bh == src[r.ip]
      invariant !o.Return? && InBounds(r, |src|, dst.Length)
      invariant o.RefBlk? ==> r.ip + 7 <= |src|
      invariant o.Stop? ==> r.ip == |src|
      invariant good ==> 1 <= mref <= 6 && Pending(src, r, mref, rest, dst[..r.op], full)
      invariant good && o.RefBlk? ==> rest != [] && rest[0].Ref?
      decreases |src| - r.ip
    {
      r, o := Step(src, dst, r, o == RefBlk, mref, rest, full, good);
      if o.Return? {
        return o.code, o.pwl;
      }
      rest := if good then rest[1..] else [];
    }
    if good {
      PendingEnd(src, r, mref, rest, dst[..r.op], full);
    }
    if r.op != dst.Length {
      return E_DSTLEN, r.op;
    }
    return r.op, pwl;
  }

  /** `lzav_decompress`, built for format 2 only: the whole output, in a destination of exactly its length. */
  method Decompress(src: seq<byte>, dst: array<byte>) returns (ret: int)
    modifies dst
    ensures ret >= 0 ==> ret == dst.Length
    ensures dst.Length > 0 && src != [] && src[0] / 16 == 2 && Meaning(src).Some? ==>
      var full := Meaning(src).value;
      ret == ExpectedCode(full, dst.Length) && (ret >= 0 ==> dst[..] == full)
    ensures src != [] && dst.Length > 0 && src[0] / 16 != 2 ==> ret == E_UNKFMT
    ensures src == [] || dst.Length == 0 ==> ret == if src == [] && dst.Length == 0 then 0 else E_PARAMS
  {
    if |src| == 0 {
      return if dst.Length == 0 then 0 else E_PARAMS;
    }
    if dst.Length == 0 {
      return E_PARAMS;
    }
    var fmt := src[0] / 16;
    if fmt == 2 {
      var pwl;
      ret, pwl := Decompress2(src, dst);
      assert dst[..] == dst[..dst.Length];
      return;
    }
    return E_UNKFMT;
  }

  /** `lzav_decompress_partial`: as much of the output as fits, never an error code. */
  method DecompressPartial(src: seq<byte>, dst: array<byte>) returns (n: nat)
    modifies dst
    ensures n <= dst.Length && (src == [] || src[0] / 16 != 2 ==> n == 0)
    ensures dst.Length > 0 && src != [] && src[0] / 16 == 2 && Meaning(src).Some? ==>
      var full := Meaning(src).value;
      n == Min(|full|, dst.Length) && dst[..n] == full[..n]
  {
    if |src| == 0 || dst.Length == 0 {
      return 0;
    }
    n := 0;
    if src[0] / 16 == 2 {
      var ret;
      ret, n := Decompress2(src, dst);
    }
  }
}
