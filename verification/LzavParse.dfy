/** Parsing inverts printing, for every list of items that fits the format. */
module LzavParse {
  import opened Bits
  import opened LzavMatch
  import opened LzavFormat

  // ---------------------------------------------------------------- literal lengths

  lemma {:induction false} ShlAdd(x: nat, y: nat, a: nat)
    ensures Shl(x + y, a) == Shl(x, a) + Shl(y, a)
  {
    if a > 0 {
      ShlAdd(x, y, a - 1);
    }
  }

  lemma {:induction false} ShlDouble(x: nat, a: nat)
    ensures Shl(2 * x, a) == Shl(x, a + 1)
  {
    if a > 0 {
      ShlDouble(x, a - 1);
    }
  }

  lemma ShlSeven(x: nat, a: nat)
    ensures Shl(128 * x, a) == Shl(x, a + 7)
  {
    ShlDouble(64 * x, a);
    ShlDouble(32 * x, a + 1);
    ShlDouble(16 * x, a + 2);
    ShlDouble(8 * x, a + 3);
    ShlDouble(4 * x, a + 4);
    ShlDouble(2 * x, a + 5);
    ShlDouble(x, a + 6);
  }

  /** The largest length that bytes `k` to 4 can hold, plus one. */
  function VarLimit(k: nat): nat {
    match k
    case 0 => 0x8_0000_0000
    case 1 => 0x1000_0000
    case 2 => 0x20_0000
    case 3 => 0x4000
    case _ => 0x80
  }

  lemma {:induction false} ParseVarPrint(s: seq<byte>, k: nat, n: nat)
    requires |s| >= 7 && 1 <= k <= 4 && n < VarLimit(k)
    requires |VarLen(n)| <= |s| - k - 1 && s[k + 1..k + 1 + |VarLen(n)|] == VarLen(n)
    ensures ParseVar(s, k) == (Shl(n, 7 * k), k + 1 + |VarLen(n)|)
    decreases 4 - k
  {
    hide Shl, VarLimit;
    var v := VarLen(n);
    assert s[k + 1] == v[0];
    VarLimitStep(k, n);
    if n >= 128 {
      VarTail(s, k + 1, n);
      ParseVarPrint(s, k + 1, n / 128);
      ShlSeven(n / 128, 7 * k);
      ShlAdd(n % 128, 128 * (n / 128), 7 * k);
    }
  }

  lemma VarLimitStep(k: nat, n: nat)
    requires k <= 4 && n < VarLimit(k)
    ensures n >= 128 ==> k < 4 && n / 128 < VarLimit(k + 1)
  {
  }

  /** The bytes of a long count behind the first one. */
  lemma VarTail(s: seq<byte>, at: nat, n: nat)
    requires n >= 128 && |VarLen(n)| <= |s| - at && s[at..at + |VarLen(n)|] == VarLen(n)
    ensures |VarLen(n)| == 1 + |VarLen(n / 128)| && s[at] == 128 + n % 128
    ensures s[at + 1..at + 1 + |VarLen(n / 128)|] == VarLen(n / 128)
  {
    var v := VarLen(n);
    assert s[at] == v[0];
    assert v[1..] == VarLen(n / 128);
    assert s[at + 1..at + |v|] == s[at..at + |v|][1..];
  }

  lemma {:induction false} VarLenBound(k: nat, n: nat)
    requires k <= 4 && n < VarLimit(k)
    ensures |VarLen(n)| <= 5 - k
    decreases 4 - k
  {
    if n >= 128 {
      VarLenBound(k + 1, n / 128);
    }
  }

  lemma LitHeaderBound(lc: nat, cv: nat)
    requires cv < 4 && 1 <= lc < 0x8000_0000
    ensures 1 <= |LitHeader(lc, cv)| <= 6
  {
    if lc >= 16 {
      VarLenBound(0, lc - 16);
    }
  }

  /** The header byte of a literal block and its length bytes read back. */
  lemma ParseLitPrint(s: seq<byte>, lc: nat, cv: nat)
    requires |s| >= 7 && cv < 4 && 1 <= lc < 0x8000_0000
    requires LitHeader(lc, cv) <= s
    ensures s[0] / 16 % 4 == 0 && s[0] / 64 == cv
    ensures ParseLit(s) == (lc, |LitHeader(lc, cv)|)
  {
    hide ParseVar, VarLen, Shl;
    var h := LitHeader(lc, cv);
    LitHeaderBound(lc, cv);
    assert s[0] == h[0];
    if lc >= 16 {
      var v := VarLen(lc - 16);
      assert s[1..1 + |v|] == v by {
        assert s[..|h|][1..] == h[1..];
      }
      if lc >= 144 {
        ParseLongPrint(s, lc - 16);
      } else {
        VarLenShort(lc - 16);
        assert s[1] == v[0];
      }
    }
  }

  lemma VarLenShort(n: nat)
    requires n < 128
    ensures VarLen(n) == [n]
  {
  }

  /** A count of two bytes or more reads back. */
  lemma ParseLongPrint(s: seq<byte>, n: nat)
    requires |s| >= 7 && 128 <= n < 0x7FFF_FFF0 && 1 <= |VarLen(n)| <= 5 && s[1..1 + |VarLen(n)|] == VarLen(n)
    ensures s[1] >= 128
    ensures
      var r := ParseVar(s, 1);
      (s[1] % 128 + r.0) % 0x8000_0000 == n && r.1 == 1 + |VarLen(n)|
  {
    hide ParseVar, VarLen;
    VarTail(s, 1, n);
    ParseVarPrint(s, 1, n / 128);
    ShlSeven(n / 128, 0);
    assert Shl(128 * (n / 128), 0) == 128 * (n / 128);
  }

  // ---------------------------------------------------------------- references

  lemma LoadOne(s: seq<byte>)
    requires |s| == 1
    ensures LoadLE(s) == s[0]
  {
  }

  lemma LoadThree(s: seq<byte>)
    requires |s| == 3
    ensures LoadLE(s) == s[0] + 256 * (s[1] as nat) + 65536 * (s[2] as nat)
  {
    LoadPair(s[1..]);
  }

  lemma OfsBytesLoad(d: nat, c: nat)
    requires d < WIN_LEN && c < 8 && (BlockType(d) != 3 ==> c == 0)
    ensures LoadLE(OfsBytes(d, c)) == d / 4 + 0x20_0000 * c
  {
    hide LoadLE;
    var o, b := d / 4, OfsBytes(d, c);
    match BlockType(d)
    case 1 => LoadOne(b);
    case 2 =>
      LoadPair(b);
      assert b[0] == o % 256 && b[1] == o / 256;
    case _ =>
      LoadThree(b);
      OfsThree(o);
      assert b[0] == o % 256 && b[1] == o / 256 % 256 && b[2] == o / 65536 + c * 32;
  }

  lemma OfsThree(o: nat)
    ensures o == o % 256 + 256 * (o / 256 % 256) + 65536 * (o / 65536)
  {
    assert o / 65536 == o / 256 / 256;
  }

  lemma RefHeaderFields(d: nat, rc: nat)
    requires 1 <= rc
    ensures RefHeader(d, rc) / 16 % 4 == BlockType(d)
    ensures RefHeader(d, rc) / 64 == d % 4
    ensures RefHeader(d, rc) % 16 == (if rc < 16 then rc else 0)
  {
  }

  lemma ParseOfsPrint(s: seq<byte>, d: nat, rc: nat, c: nat)
    requires d < WIN_LEN && c < 8 && (BlockType(d) != 3 ==> c == 0) && 1 <= rc <= REF_LEN + 1
    requires |s| >= 7 && RefBlock(d, rc, c) <= s
    ensures s[0] == RefHeader(d, rc)
    ensures ParseOfs(s) == d / 4 + 0x20_0000 * c
  {
    var r := RefBlock(d, rc, c);
    var bt := BlockType(d);
    assert s[0] == r[0];
    RefHeaderFields(d, rc);
    PrefixSlice(r, s, 1, 1 + bt);
    assert r[1..1 + bt] == OfsBytes(d, c);
    OfsBytesLoad(d, c);
  }

  lemma PrefixSlice(r: seq<byte>, s: seq<byte>, i: nat, j: nat)
    requires r <= s && i <= j <= |r|
    ensures s[i..j] == r[i..j]
  {
    assert s[..|r|][i..j] == s[i..j];
  }

  /** Offset, carried bits and length of a reference block read back. */
  lemma ParseRefPrint(s: seq<byte>, d: nat, rc: nat, c: nat, mref: nat, sh: nat, cv: nat)
    requires d < WIN_LEN && c < 8 && (BlockType(d) != 3 ==> c == 0) && 1 <= rc <= REF_LEN + 1
    requires |s| >= 7 && RefBlock(d, rc, c) <= s
    ensures s[0] / 16 % 4 == BlockType(d)
    ensures ParseRef(s, mref, sh, cv)
         == RefFields(Shl(d, sh) + cv, rc + mref - 1, |RefBlock(d, rc, c)|, FreeBits(d), c)
  {
    ParseOfsPrint(s, d, rc, c);
    RefHeaderFields(d, rc);
    assert d % 4 + 4 * (d / 4) == d;
    ModUnique(d + WIN_LEN * c, WIN_LEN, c, d);
    hide RefBlock, RefHeader, BlockType, Shl, ParseOfs;
    ParseRefLenPrint(s, d, rc, c, mref);
  }

  lemma RefBlockTypes(d: nat)
    ensures 1 <= BlockType(d) <= 3
  {
  }

  lemma ParseRefLenPrint(s: seq<byte>, d: nat, rc: nat, c: nat, mref: nat)
    requires d < WIN_LEN && c < 8 && (BlockType(d) != 3 ==> c == 0) && 1 <= rc <= REF_LEN + 1
    requires |s| >= 7 && RefBlock(d, rc, c) <= s
    ensures ParseRefLen(s, mref) == (rc + mref - 1, |RefBlock(d, rc, c)|)
  {
    hide RefHeader, BlockType, OfsBytes;
    var r := RefBlock(d, rc, c);
    var bt := BlockType(d);
    RefHeaderFields(d, rc);
    RefBlockTypes(d);
    assert s[0] == r[0] == RefHeader(d, rc);
    if rc >= 16 {
      assert s[1 + bt] == r[1 + bt] == ExtBytes(rc)[0];
      if rc >= 271 {
        assert s[2 + bt] == r[2 + bt] == ExtBytes(rc)[1];
      }
    }
  }

  // ---------------------------------------------------------------- whole streams

  /** Literal runs are separated by references, and a literal run ends the list. */
  predicate WellFormed(items: seq<Item>) {
    && items != []
    && (|items| == 1 ==> items[0].Lit?)
    && (|items| > 1 ==> (items[0].Lit? ==> items[1].Ref?) && WellFormed(items[1..]))
  }

  /** At least seven bytes remain wherever a block starts. */
  lemma {:induction false} PrintLength(items: seq<Item>, mref: nat, sh: nat, tail: seq<byte>)
    requires Printable(items, mref) && WellFormed(items)
    requires |FinalLits(items)| + |tail| >= LIT_FIN
    ensures |Print(items, mref, sh, 0)| + |tail| >= 7
    decreases |items|
  {
    if |items| == 1 {
      assert items[1..] == [];
      LitHeaderBound(|items[0].bytes|, Shr(NextOfs(items), sh) % 4);
    } else {
      PrintLength(items[1..], mref, ShiftAfter(items[0], sh), tail);
    }
  }

  /** Parsing what was printed gives the items back, whatever bits were carried in. */
  lemma {:induction false} ParsePrint(items: seq<Item>, mref: nat, sh: nat, tail: seq<byte>)
    requires Printable(items, mref) && WellFormed(items) && mref >= 1
    requires |tail| < LIT_FIN <= |FinalLits(items)| + |tail|
    ensures Parse(Print(items, mref, sh, 0) + tail, mref, sh, Low(NextOfs(items), sh)) == Some(items)
    decreases |items|
  {
    var s := Print(items, mref, sh, 0) + tail;
    var rest := items[1..];
    var sh' := ShiftAfter(items[0], sh);
    var s' := Print(rest, mref, sh', 0) + tail;
    var p := PrintItem(items, mref, sh, 0);
    assert s == p + s';
    PrintLength(items, mref, sh, tail);
    if |items| > 1 {
      ParsePrint(rest, mref, sh', tail);
    } else {
      assert rest == [] && s' == tail;
    }
    match items[0]
    case Lit(l) => ParseLitItem(items, mref, sh, s, s');
    case Ref(d, rc) => ParseRefItem(items, mref, sh, s, s');
  }

  lemma ParseLitItem(items: seq<Item>, mref: nat, sh: nat, s: seq<byte>, s': seq<byte>)
    requires items != [] && items[0].Lit? && ItemPrintable(items[0], mref)
    requires |s| >= 7 && s == PrintItem(items, mref, sh, 0) + s'
    requires Parse(s', mref, sh + 2, Low(NextOfs(items[1..]), sh + 2)) == Some(items[1..])
    ensures Parse(s, mref, sh, Low(NextOfs(items), sh)) == Some(items)
  {
    hide Parse, Low, Shr, Shl;
    var o := NextOfs(items);
    LowTwoMore(o, sh);
    ParseLitUnfold(s, s', items[0].bytes, Shr(o, sh) % 4, items[1..], mref, sh, Low(o, sh));
    assert [items[0]] + items[1..] == items;
  }

  lemma ParseLitUnfold(s: seq<byte>, s': seq<byte>, l: seq<byte>, v: nat, rest: seq<Item>, mref: nat, sh: nat, cv: nat)
    requires |s| >= 7 && v < 4 && 1 <= |l| < 0x8000_0000
    requires s == LitHeader(|l|, v) + l + s'
    requires Parse(s', mref, sh + 2, cv + Shl(v, sh)) == Some(rest)
    ensures Parse(s, mref, sh, cv) == Some([Lit(l)] + rest)
  {
    hide ParseLit, LitHeader, Parse, Shl;
    var h := LitHeader(|l|, v);
    ThreeParts(h, l, s', s);
    ParseLitPrint(s, |l|, v);
    ParseLitStep(s, mref, sh, cv);
  }

  lemma ThreeParts(a: seq<byte>, b: seq<byte>, c: seq<byte>, s: seq<byte>)
    requires s == a + b + c
    ensures a <= s && s[|a|..|a| + |b|] == b && s[|a| + |b|..] == c
  {
    assert s == a + (b + c);
  }

  lemma ParseLitStep(s: seq<byte>, mref: nat, sh: nat, cv: nat)
    requires |s| >= 7 && s[0] / 16 % 4 == 0
    ensures
      var (cc, k) := ParseLit(s);
      k + cc <= |s| ==>
        match Parse(s[k + cc..], mref, sh + 2, cv + Shl(s[0] / 64, sh))
        case None => Parse(s, mref, sh, cv) == None
        case Some(rest) => Parse(s, mref, sh, cv) == Some([Lit(s[k..k + cc])] + rest)
  {
    hide ParseLit, Shl;
  }

  lemma ParseRefItem(items: seq<Item>, mref: nat, sh: nat, s: seq<byte>, s': seq<byte>)
    requires |items| > 1 && items[0].Ref? && ItemPrintable(items[0], mref) && mref >= 1
    requires |s| >= 7 && s == PrintItem(items, mref, sh, 0) + s'
    requires
      var fb := ShiftAfter(items[0], sh);
      Parse(s', mref, fb, Low(NextOfs(items[1..]), fb)) == Some(items[1..])
    ensures Parse(s, mref, sh, Low(NextOfs(items), sh)) == Some(items)
  {
    var d' := Shr(items[0].d, sh);
    var fb := FreeBits(d');
    var c := CarryOut(items[1..], fb, 0);
    assert c == Low(NextOfs(items[1..]), fb) by {
      LowThree(NextOfs(items[1..]));
    }
    ParseRefUnfold(s, s', items, mref, sh, d', c);
  }

  lemma ParseRefUnfold(s: seq<byte>, s': seq<byte>, items: seq<Item>, mref: nat, sh: nat, d': nat, c: nat)
    requires |s| >= 7 && mref >= 1
    requires items != [] && items[0].Ref? && ItemPrintable(items[0], mref) && d' == Shr(items[0].d, sh)
    requires c < 8 && (BlockType(d') != 3 ==> c == 0)
    requires s == RefBlock(d', items[0].rc + 1 - mref, c) + s'
    requires Parse(s', mref, FreeBits(d'), c) == Some(items[1..])
    ensures Parse(s, mref, sh, Low(items[0].d, sh)) == Some(items)
  {
    hide ParseRef, RefBlock, FreeBits, Shl, Low, Shr, Parse;
    var rc := items[0].rc;
    var r := RefBlock(d', rc + 1 - mref, c);
    RefBlockTypes(d');
    ParseRefPrint(s, d', rc + 1 - mref, c, mref, sh, Low(items[0].d, sh));
    assert s[|r|..] == s';
    ShlShr(items[0].d, sh);
    ParseRefStep(s, mref, sh, Low(items[0].d, sh));
    assert [items[0]] + items[1..] == items;
  }

  lemma ParseRefStep(s: seq<byte>, mref: nat, sh: nat, cv: nat)
    requires |s| >= 7 && s[0] / 16 % 4 != 0
    ensures
      var f := ParseRef(s, mref, sh, cv);
      f.rc >= 0 ==>
        match Parse(s[f.k..], mref, f.sh, f.cv)
        case None => Parse(s, mref, sh, cv) == None
        case Some(rest) => Parse(s, mref, sh, cv) == Some([Ref(f.d, f.rc)] + rest)
  {
    hide ParseRef;
  }

  lemma LowThree(v: nat)
    ensures Low(v, 3) == v % 8 && Low(v, 0) == 0
  {
    LowIsMod(v, 3);
    assert Pow2(3) == 8;
  }

  /** Printer and parser are inverse on whole streams. */
  lemma ParseStream(items: seq<Item>, mref: nat)
    requires Printable(items, mref) && WellFormed(items) && 1 <= mref < 16
    ensures Stream(items, mref)[0] == 32 + mref
    ensures Parse(Stream(items, mref)[1..], mref, 0, 0) == Some(items)
  {
    FinalNonempty(items, mref);
    ParsePrint(items, mref, 0, Padding(items));
    StreamTail(items, mref);
    assert Low(NextOfs(items), 0) == 0;
  }

  lemma StreamTail(items: seq<Item>, mref: nat)
    requires Printable(items, mref) && mref < 16
    ensures Stream(items, mref)[0] == 32 + mref
    ensures Stream(items, mref)[1..] == Print(items, mref, 0, 0) + Padding(items)
  {
  }

  lemma {:induction false} FinalNonempty(items: seq<Item>, mref: nat)
    requires Printable(items, mref) && WellFormed(items)
    ensures FinalLits(items) != []
  {
    if |items| > 1 {
      FinalNonempty(items[1..], mref);
    }
  }

  /** A stream has one reading only. */
  lemma StreamInjective(items: seq<Item>, items': seq<Item>, mref: nat)
    requires Printable(items, mref) && WellFormed(items) && 1 <= mref < 16
    requires Printable(items', mref) && WellFormed(items')
    requires Stream(items, mref) == Stream(items', mref)
    ensures items == items'
  {
    ParseStream(items, mref);
    ParseStream(items', mref);
  }
}
