/** The hash tables of both compressors: items of tuples (first four bytes of a position, the position). */
module LzavHash {
  import opened Bits
  import opened LzavMatch
  import opened LzavFormat

  datatype Tuple = Tuple(w: nat, o: nat)

  function Word32(src: seq<byte>, p: nat): nat
    requires p + 4 <= |src|
  {
    LoadLE(src[p..p + 4])
  }

  function Word16(src: seq<byte>, p: nat): nat
    requires p + 2 <= |src|
  {
    LoadLE(src[p..p + 2])
  }

  /** The value of an unsigned 64-bit subtraction. */
  function Wrap64(x: int): nat {
    x % WORD64
  }

  /** The one unsigned comparison rejects offsets that are too small and too large. */
  lemma WindowCheck(d: nat)
    requires d < WORD64
    ensures Wrap64(d - OFS_MIN) > WIN_LEN - OFS_MIN - 1 <==> d < OFS_MIN || d >= WIN_LEN
  {
  }

  /** `lzav_hash`, before the mask is applied */
  function HashValue(iw1: nat, iw2: nat, sh: nat): nat {
    Shr(BitXor(0x85A308D3, iw2) * BitXor(0x243F6A88, iw1) % WORD32, sh)
  }

  /** A tuple records bytes that are in the source at a position no later than `ip`. */
  predicate TupleOk(src: seq<byte>, t: Tuple, ip: nat) {
    t.o + 4 <= |src| && t.o <= ip && t.w == Word32(src, t.o)
  }

  predicate TableOk(src: seq<byte>, ht: seq<Tuple>, ip: nat) {
    forall i :: 0 <= i < |ht| ==> TupleOk(src, ht[i], ip)
  }

  lemma TableLater(src: seq<byte>, ht: seq<Tuple>, ip: nat, ip': nat)
    requires TableOk(src, ht, ip) && ip <= ip'
    ensures TableOk(src, ht, ip')
  {
    forall i | 0 <= i < |ht| ensures TupleOk(src, ht[i], ip') {
      assert TupleOk(src, ht[i], ip);
    }
  }

  lemma {:induction false} AndBound(a: nat, b: nat)
    ensures BitAnd(a, b) <= b
    decreases a
  {
    if a != 0 {
      AndBound(a / 2, b / 2);
    }
  }

  lemma AndDouble(a: nat, h: nat)
    ensures BitAnd(a, 2 * h) == 2 * BitAnd(a / 2, h)
  {
    assert 2 * h / 2 == h;
  }

  lemma {:induction false} AndScale(a: nat, c: nat, k: nat)
    ensures BitAnd(a, Shl(c, k)) == Shl(BitAnd(Shr(a, k), c), k)
    decreases k
  {
    if k > 0 {
      AndDouble(a, Shl(c, k - 1));
      AndScale(a / 2, c, k - 1);
    }
  }

  lemma {:induction false} XorOnes(q: nat, k: nat)
    ensures BitXor(q * Pow2(k) + Pow2(k) - 1, Pow2(k) - 1) == q * Pow2(k)
    decreases k
  {
    hide BitXor;
    if k == 0 {
      XorZero(q);
    } else {
      var p := Pow2(k - 1);
      var h := q * p;
      assert q * Pow2(k) == 2 * h;
      XorOnes(q, k - 1);
      XorOdd(h + p - 1, p - 1);
    }
  }

  lemma XorZero(q: nat)
    ensures BitXor(q, 0) == q
  {
  }

  lemma XorOdd(a: nat, b: nat)
    ensures BitXor(2 * a + 1, 2 * b + 1) == 2 * BitXor(a, b)
  {
    assert (2 * a + 1) / 2 == a && (2 * b + 1) / 2 == b;
  }

  /** A masked value is the offset of a whole item inside the table. */
  lemma MaskedInRange(v: nat, items: nat, item: nat, k: nat)
    requires items >= 1 && item == Pow2(k)
    ensures
      var h := BitAnd(v, BitXor(items * item - 1, item - 1));
      h % item == 0 && h / item < items
  {
    hide BitAnd, BitXor, Shl, Shr;
    XorOnes(items - 1, k);
    assert (items - 1) * item + item - 1 == items * item - 1;
    ShlIsMul(items - 1, k);
    AndScale(v, items - 1, k);
    AndBound(Shr(v, k), items - 1);
    var i := BitAnd(Shr(v, k), items - 1);
    ShlIsMul(i, k);
    ModUnique(i * item, item, i, 0);
  }

  function ItemOf(iw1: nat, iw2: nat, sh: nat, hmask: nat, item: nat): nat
    requires item == 16 || item == 64
  {
    ItemNumber(BitAnd(HashValue(iw1, iw2, sh), hmask), item)
  }

  function ItemNumber(offset: nat, item: nat): nat
    requires item == 16 || item == 64
  {
    if item == 16 then offset / 16 else offset / 64
  }

  /** `lzav_hash`, as the number of an item in a table of `items` items of `item` bytes. */
  method HashItem(iw1: nat, iw2: nat, sh: nat, hmask: nat, ghost items: nat, item: nat) returns (h: nat)
    requires (item == 16 || item == 64) && items >= 1 && hmask == BitXor(items * item - 1, item - 1)
    ensures h < items && h == ItemOf(iw1, iw2, sh, hmask, item) && h * item == BitAnd(HashValue(iw1, iw2, sh), hmask)
  {
    ItemBelow(iw1, iw2, sh, hmask, items, item);
    var v := HashValue(iw1, iw2, sh);
    h := ItemNumber(BitAnd(v, hmask), item);
  }

  lemma ItemBelow(iw1: nat, iw2: nat, sh: nat, hmask: nat, items: nat, item: nat)
    requires (item == 16 || item == 64) && items >= 1 && hmask == BitXor(items * item - 1, item - 1)
    ensures ItemOf(iw1, iw2, sh, hmask, item) < items && ItemOf(iw1, iw2, sh, hmask, item) * item == BitAnd(HashValue(iw1, iw2, sh), hmask)
  {
    assert Pow2(4) == 16 && Pow2(6) == 64;
    MaskedInRange(HashValue(iw1, iw2, sh), items, item, if item == 16 then 4 else 6);
    WholeItem(BitAnd(HashValue(iw1, iw2, sh), hmask), item);
  }

  lemma WholeItem(offset: nat, item: nat)
    requires (item == 16 || item == 64) && offset % item == 0
    ensures ItemNumber(offset, item) * item == offset && ItemNumber(offset, item) == offset / item
  {
  }

  /** `n` doubled `k` times */
  function Doubled(n: nat, k: nat): nat {
    if k == 0 then n else 2 * Doubled(n, k - 1)
  }

  lemma DoubledOnce(n: nat, k: nat)
    ensures Doubled(n, 0) == n && Doubled(n, k + 1) == 2 * Doubled(n, k)
  {
  }

  /** `lzav_ht_init`: every tuple becomes the one given, 64 bytes at a time. */
  method HtInit(n: nat, t: Tuple) returns (ht: array<Tuple>)
    requires n >= 8 && n % 8 == 0
    ensures fresh(ht) && ht.Length == n
    ensures forall i :: 0 <= i < n ==> ht[i] == t
  {
    ht := new Tuple[n];
    forall i | 0 <= i < 8 {
      ht[i] := t;
    }
    var htc := 8;
    while htc != n
      invariant 8 <= htc <= n && htc % 8 == 0
      invariant forall i :: 0 <= i < htc ==> ht[i] == t
    {
      forall i | 0 <= i < 8 {
        ht[htc + i] := ht[i];
      }
      htc := htc + 8;
    }
  }

  lemma {:induction false} LoadInjective(a: seq<byte>, b: seq<byte>)
    requires |a| == |b| && LoadLE(a) == LoadLE(b)
    ensures a == b
  {
    if a != [] {
      LoadStep(a);
      LoadStep(b);
      LoadInjective(a[1..], b[1..]);
      assert a == [a[0]] + a[1..] && b == [b[0]] + b[1..];
    }
  }

  /** Equal words are equal bytes. */
  lemma SameWord32(src: seq<byte>, p: nat, q: nat)
    requires p + 4 <= |src| && q + 4 <= |src| && Word32(src, p) == Word32(src, q)
    ensures Agree(src, p, q, 4)
  {
    LoadInjective(src[p..p + 4], src[q..q + 4]);
    AgreeIsSliceEquality(src, p, q, 4);
  }

  lemma SameWord16(src: seq<byte>, p: nat, q: nat)
    requires p + 2 <= |src| && q + 2 <= |src| && Word16(src, p) == Word16(src, q)
    ensures Agree(src, p, q, 2)
  {
    LoadInjective(src[p..p + 2], src[q..q + 2]);
    AgreeIsSliceEquality(src, p, q, 2);
  }

  // ---------------------------------------------------------------- match lengths

  /** Takes back literals before `ip` that match as well. */
  method ExtendBack(src: seq<byte>, ip: nat, wpo: nat, rc0: nat, ml0: nat, lc: nat) returns (rc: nat, bmc: nat)
    requires wpo < ip && rc0 <= ml0 && ip + ml0 <= |src| && lc <= ip
    requires Agree(src, ip, wpo, rc0)
    ensures bmc <= lc && bmc <= wpo && rc == rc0 + bmc <= ml0
    ensures Agree(src, ip - bmc, wpo - bmc, rc)
    ensures bmc == lc || bmc == wpo || rc == ml0 || src[ip - bmc - 1] != src[wpo - bmc - 1]
  {
    rc, bmc := rc0, 0;
    if lc != 0 {
      var ml := ml0 - rc0;
      ml := if ml > lc then lc else ml;
      ml := if ml > wpo then wpo else ml;
      bmc := MatchLenR(src, ip, wpo, ml);
      AgreeConcat(src, ip - bmc, wpo - bmc, bmc, rc0);
      if bmc != 0 {
        rc := rc + bmc;
      }
    }
  }

  /** Length of the match of at most `ml` bytes whose first `k` are known. */
  method MatchFrom(src: seq<byte>, ip: nat, wpo: nat, k: nat, ml: nat) returns (rc: nat)
    requires k <= ml && ip + ml <= |src| && wpo <= ip && Agree(src, ip, wpo, k)
    ensures IsMatchLen(src, ip, wpo, ml, rc) && k <= rc
  {
    var n := MatchLen(src, ip + k, wpo + k, ml - k);
    AgreeConcat(src, ip, wpo, k, n);
    rc := k + n;
  }
}
