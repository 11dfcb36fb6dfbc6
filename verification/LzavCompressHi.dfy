/** `lzav_compress_hi`: the lazy match finder with rings of seven tuples. */
module LzavCompressHi {
  import opened Bits
  import opened LzavMatch
  import opened LzavFormat
  import opened LzavHash
  import opened LzavCopy
  import opened LzavWrite
  import opened LzavBound
  import opened LzavEmit
  import LzavCompress

  const MREF: nat := 5
  const MLEN: nat := REF_LEN + MREF
  /** The largest offset of a tuple in its item, in 32-bit words. */
  const MTI: nat := 12

  /** The variables of the main loop; `prc`, `pd` and `pip` are a match saved for comparison, if `prc` is not zero. */
  datatype Cursor = Cursor(ip: nat, ipa: nat, op: nat, cbp: nat, csh: nat, prc: nat, pd: nat, pip: nat)

  // ---------------------------------------------------------------- the rings

  /** Seven tuples an item; the position field of the eighth is the head of the ring. */
  predicate RingOk(src: seq<byte>, ht: seq<Tuple>, ip: nat) {
    forall i :: 0 <= i < |ht| ==>
      if i % 8 == 7 then ht[i].o % 2 == 0 && ht[i].o <= MTI else TupleOk(src, ht[i], ip)
  }

  lemma RingLater(src: seq<byte>, ht: seq<Tuple>, ip: nat, ip': nat)
    requires RingOk(src, ht, ip) && ip <= ip'
    ensures RingOk(src, ht, ip')
  {
    forall i | 0 <= i < |ht| && i % 8 != 7 ensures TupleOk(src, ht[i], ip') {
      assert TupleOk(src, ht[i], ip);
    }
  }

  lemma TupleIndex(h: nat, k: nat)
    requires k < 8
    ensures (8 * h + k) % 8 == k
  {
  }

  /** The item of the five bytes at `ip`. */
  function ItemAt(src: seq<byte>, ip: nat, hmask: nat): nat
    requires ip + 5 <= |src|
  {
    ItemOf(Word32(src, ip), src[ip + 4], 8, hmask, 64)
  }

  predicate HeadOk(ht: seq<Tuple>, h: nat)
    requires 8 * h + 8 <= |ht|
  {
    ht[8 * h + 7].o <= MTI && ht[8 * h + 7].o % 2 == 0
  }

  /** The ring of item `h` with one more tuple, in the place of its oldest, which becomes its head. */
  function RingInsert(ht: seq<Tuple>, h: nat, t: Tuple): (ht': seq<Tuple>)
    requires 8 * h + 8 <= |ht| && HeadOk(ht, h)
    ensures |ht'| == |ht|
  {
    var ti := if ht[8 * h + 7].o == 0 then MTI else ht[8 * h + 7].o - 2;
    ht[8 * h + ti / 2 := t][8 * h + 7 := Tuple(ht[8 * h + 7].w, ti)]
  }

  /** Read from its head on, the ring holds the new tuple and then what it held before, but for the last. */
  lemma InsertedFirst(ht: seq<Tuple>, h: nat, t: Tuple, i: nat)
    requires 8 * h + 8 <= |ht| && HeadOk(ht, h) && i < 7
    ensures
      var ht', k0 := RingInsert(ht, h, t), ht[8 * h + 7].o / 2;
      var k0' := ht'[8 * h + 7].o / 2;
      && k0' < 7 && 0 <= RingAt(k0', i) < 7 && 0 <= RingAt(k0, if i == 0 then 0 else i - 1) < 7
      && ht'[8 * h + RingAt(k0', i)] == if i == 0 then t else ht[8 * h + RingAt(k0, i - 1)]
  {
  }

  /** `lzav_ht_insert`: the ring's head moves back by one tuple. */
  method HtInsert(src: seq<byte>, ht: array<Tuple>, h: nat, ti0: nat, iw1: nat, ipo: nat, ghost ip: nat)
    requires 8 * h + 8 <= ht.Length && ti0 <= MTI && ti0 % 2 == 0
    requires ipo <= ip && ipo + 4 <= |src| && iw1 == Word32(src, ipo) && RingOk(src, ht[..], ip) && ti0 == ht[8 * h + 7].o
    modifies ht
    ensures RingOk(src, ht[..], ip) && ht[..] == RingInsert(old(ht[..]), h, Tuple(iw1, ipo))
  {
    ghost var before := ht[..];
    var ti := if ti0 == 0 then MTI else ti0 - 2;
    ghost var k := 8 * h + ti / 2;
    TupleIndex(h, ti / 2);
    TupleIndex(h, 7);
    ht[8 * h + ti / 2] := Tuple(iw1, ipo);
    ht[8 * h + 7] := Tuple(ht[8 * h + 7].w, ti);
    assert ht[..] == before[k := Tuple(iw1, ipo)][8 * h + 7 := ht[8 * h + 7]];
  }

  /** The match with tuple `t` is no longer than `n`. */
  ghost predicate NoLonger(src: seq<byte>, t: Tuple, ip: nat, mle: nat, n: nat)
    requires ip + mle <= |src| && t.o <= ip
  {
    var ml := if ip - t.o > mle then mle else ip - t.o;
    n < ml ==> !Agree(src, ip, t.o, n + 1)
  }

  lemma {:induction false} AgreeLess(src: seq<byte>, p: nat, q: nat, m: nat, n: nat)
    requires p + n <= |src| && q + n <= |src| && m <= n && Agree(src, p, q, n)
    ensures Agree(src, p, q, m)
    decreases n
  {
    if m < n {
      AgreeLess(src, p, q, m, n - 1);
    }
  }

  /** A longer match elsewhere makes this one no longer. */
  lemma StillNoLonger(src: seq<byte>, t: Tuple, ip: nat, mle: nat, n: nat, n': nat)
    requires ip + mle <= |src| && t.o <= ip && n <= n' && NoLonger(src, t, ip, mle, n)
    ensures NoLonger(src, t, ip, mle, n')
  {
    var ml := if ip - t.o > mle then mle else ip - t.o;
    if n' < ml && Agree(src, ip, t.o, n' + 1) {
      AgreeLess(src, ip, t.o, n + 1, n' + 1);
    }
  }

  lemma MeasuredNoLonger(src: seq<byte>, t: Tuple, ip: nat, mle: nat, ml: nat, n: nat, n': nat)
    requires ip + mle <= |src| && t.o <= ip && n <= n'
    requires ml == if ip - t.o > mle then mle else ip - t.o
    requires IsMatchLen(src, ip, t.o, ml, n)
    ensures NoLonger(src, t, ip, mle, n')
  {
    if n' < ml && Agree(src, ip, t.o, n' + 1) {
      AgreeLess(src, ip, t.o, n + 1, n' + 1);
    }
  }

  lemma UnequalNoLonger(src: seq<byte>, t: Tuple, ip: nat, mle: nat, n: nat)
    requires ip + mle <= |src| && ip + 4 <= |src| && TupleOk(src, t, ip) && n >= 3
    requires t.w != Word32(src, ip) || mle <= 3 || ip - t.o <= 3
    ensures NoLonger(src, t, ip, mle, n)
  {
    var ml := if ip - t.o > mle then mle else ip - t.o;
    if n < ml && Agree(src, ip, t.o, n + 1) {
      AgreeLess(src, ip, t.o, 4, n + 1);
      AgreeIsSliceEquality(src, ip, t.o, 4);
    }
  }

  /** The `i`-th tuple looked at, when the ring's head is tuple `k0`; and when tuple `j` is looked at. */
  function RingAt(k0: nat, i: nat): int {
    if k0 + i < 7 then k0 + i else k0 + i - 7
  }

  function RingOrder(k0: nat, j: nat): int {
    if j >= k0 then j - k0 else j + 7 - k0
  }

  /** Of the seven tuples of a ring, the first `i` from `k0` on give no match longer than `n`. */
  ghost predicate AllShorter(src: seq<byte>, ring: seq<Tuple>, ip: nat, mle: nat, n: nat, k0: nat, i: int)
    requires ip + mle <= |src|
  {
    forall k :: 0 <= k < |ring| ==>
      RingOrder(k0, k) < i ==> ring[k].o <= ip && NoLonger(src, ring[k], ip, mle, n)
  }

  lemma ShorterStep(src: seq<byte>, ring: seq<Tuple>, ip: nat, mle: nat, n: nat, n': nat, k0: nat, i: nat)
    requires ip + mle <= |src| && |ring| == 7 && k0 < 7 && i < 7
    requires AllShorter(src, ring, ip, mle, n, k0, i) && n <= n'
    requires ring[RingAt(k0, i)].o <= ip && NoLonger(src, ring[RingAt(k0, i)], ip, mle, n')
    ensures AllShorter(src, ring, ip, mle, n', k0, i + 1)
  {
    hide NoLonger;
    forall j | 0 <= j < |ring| && RingOrder(k0, j) < i + 1
      ensures ring[j].o <= ip && NoLonger(src, ring[j], ip, mle, n')
    {
      if j != RingAt(k0, i) {
        StillNoLonger(src, ring[j], ip, mle, n, n');
      }
    }
  }

  lemma ShorterWeaker(src: seq<byte>, ring: seq<Tuple>, ip: nat, mle: nat, n: nat, n': nat, k0: nat, i: nat)
    requires ip + mle <= |src| && AllShorter(src, ring, ip, mle, n, k0, i) && n <= n'
    ensures AllShorter(src, ring, ip, mle, n', k0, i)
  {
    hide NoLonger;
    forall j | 0 <= j < |ring| && RingOrder(k0, j) < i ensures ring[j].o <= ip && NoLonger(src, ring[j], ip, mle, n') {
      StillNoLonger(src, ring[j], ip, mle, n, n');
    }
  }

  lemma ShorterAll(src: seq<byte>, ring: seq<Tuple>, ip: nat, mle: nat, n: nat, k0: nat)
    requires ip + mle <= |src| && |ring| == 7 && AllShorter(src, ring, ip, mle, n, k0, 7)
    ensures forall k :: 0 <= k < |ring| ==> ring[k].o <= ip && NoLonger(src, ring[k], ip, mle, n)
  {
  }

  lemma IsAgree(src: seq<byte>, p: nat, q: nat, ml: nat, n: nat)
    requires p + ml <= |src| && q + ml <= |src| && IsMatchLen(src, p, q, ml, n)
    ensures n <= ml && Agree(src, p, q, n)
  {
  }

  /** The best of up to seven earlier positions; `rc` is the match length less four, zero if there is none. */
  method FindBest(src: seq<byte>, ht: array<Tuple>, h: nat, ti0: nat, ip: nat, iw1: nat, mle: nat)
    returns (rc: nat, d: nat, ghost kd: nat)
    requires 8 * h + 8 <= ht.Length && ti0 <= MTI && ti0 % 2 == 0 && RingOk(src, ht[..], ip)
    requires ip + 4 <= |src| && ip + mle <= |src| && iw1 == Word32(src, ip)
    ensures rc == 0 ==> d == 0
    ensures rc != 0 ==> rc + 4 <= d <= ip && rc + 4 <= mle && Agree(src, ip, ip - d, rc + 4)
    ensures
      var ring := ht[8 * h..8 * h + 7];
      && (forall k :: 0 <= k < |ring| ==> ring[k].o <= ip && NoLonger(src, ring[k], ip, mle, rc + 4))
      && (rc != 0 ==> kd < 7 && ring[kd].o == ip - d && AllShorter(src, ring, ip, mle, rc + 3, ti0 / 2, RingOrder(ti0 / 2, kd)))
  {
    hide Agree, IsMatchLen, NoLonger, AllShorter, RingOk, Word32;
    rc, d, kd := 0, 0, 0;
    var ti := ti0;
    var i := 0;
    ghost var ring := ht[8 * h..8 * h + 7];
    ghost var k0 := ti0 / 2;
    NoneVisited(src, ring, ip, mle, 4, k0);
    while i < 7
      invariant 0 <= i <= 7 && ti == 2 * RingAt(k0, i)
      invariant rc == 0 ==> d == 0
      invariant rc != 0 ==> rc + 4 <= d <= ip && rc + 4 <= mle && Agree(src, ip, ip - d, rc + 4)
      invariant AllShorter(src, ring, ip, mle, rc + 4, k0, i)
      invariant rc != 0 ==> kd < 7 && ring[kd].o == ip - d && AllShorter(src, ring, ip, mle, rc + 3, k0, RingOrder(k0, kd))
    {
      var t := ht[8 * h + ti / 2];
      ghost var rc0, k := rc, ti / 2;
      RingTuple(src, ht[..], ip, h, k);
      ti := if ti == MTI then 0 else ti + 2;
      rc, d := TryTuple(src, t, ip, iw1, mle, rc, d);
      if rc > rc0 {
        kd := k;
        ShorterWeaker(src, ring, ip, mle, rc0 + 4, rc + 3, k0, i);
      }
      ShorterStep(src, ring, ip, mle, rc0 + 4, rc + 4, k0, i);
      i := i + 1;
    }
    ShorterAll(src, ring, ip, mle, rc + 4, k0);
  }

  /** Takes the match with tuple `t` if it is longer. */
  method TryTuple(src: seq<byte>, t: Tuple, ip: nat, iw1: nat, mle: nat, rc0: nat, d0: nat) returns (rc: nat, d: nat)
    requires ip + 4 <= |src| && ip + mle <= |src| && iw1 == Word32(src, ip) && TupleOk(src, t, ip)
    requires if rc0 == 0 then d0 == 0 else rc0 + 4 <= d0 <= ip && rc0 + 4 <= mle && Agree(src, ip, ip - d0, rc0 + 4)
    ensures if rc == 0 then d == 0 else rc + 4 <= d <= ip && rc + 4 <= mle && Agree(src, ip, ip - d, rc + 4)
    ensures rc >= rc0 && NoLonger(src, t, ip, mle, rc + 4)
    ensures d == if rc > rc0 then ip - t.o else d0
  {
    hide Agree, IsMatchLen, NoLonger, Word32;
    rc, d := rc0, d0;
    var dt := ip - t.o;
    if iw1 == t.w {
      var ml := if dt > mle then mle else dt;
      if ml > 3 {
        SameWord32(src, ip, t.o);
        var n := MatchFrom(src, ip, t.o, 4, ml);
        IsAgree(src, ip, t.o, ml, n);
        if n - 4 > rc {
          d := dt;
          rc := n - 4;
        }
        MeasuredNoLonger(src, t, ip, mle, ml, n, rc + 4);
        return;
      }
    }
    UnequalNoLonger(src, t, ip, mle, rc + 4);
  }

  lemma RingTuple(src: seq<byte>, ht: seq<Tuple>, ip: nat, h: nat, k: nat)
    requires RingOk(src, ht, ip) && k < 7 && 8 * h + 8 <= |ht|
    ensures TupleOk(src, ht[8 * h + k], ip) && ht[8 * h..8 * h + 7][k] == ht[8 * h + k]
  {
    TupleIndex(h, k);
  }

  lemma NoneVisited(src: seq<byte>, ring: seq<Tuple>, ip: nat, mle: nat, n: nat, k0: nat)
    requires ip + mle <= |src| && |ring| <= 7 && k0 < 7
    ensures AllShorter(src, ring, ip, mle, n, k0, 0)
  {
  }

  // ---------------------------------------------------------------- choosing between matches

  /** A match that may be written: true, in the window, worth its offset, and leaving the final literals. */
  ghost predicate GoodMatch(src: seq<byte>, p: nat, d: nat, rc: nat) {
    && p + 15 < |src| && p + rc + LIT_FIN <= |src|
    && Worthwhile(rc, d, MREF) && OFS_MIN <= d < WIN_LEN && rc <= d <= p
    && Agree(src, p, p - d, rc)
  }

  ghost predicate SavedOk(src: seq<byte>, c: Cursor) {
    c.prc != 0 ==> c.ipa <= c.pip && c.pip < c.ip && GoodMatch(src, c.pip, c.pd, c.prc)
  }

  ghost predicate LoopState(src: seq<byte>, ht: seq<Tuple>, out: seq<byte>, c: Cursor, items: seq<Item>) {
    && c.ipa <= c.ip && c.ipa + LIT_FIN <= |src| && |out| == c.op
    && RingOk(src, ht, c.ip) && SavedOk(src, c)
    && Emitted(src, out, c.ipa, items, MREF, c.cbp, c.csh)
  }

  /** `lzav_est_blksize` */
  function EstBlkSize(lc: nat, d: nat, sh0: nat): nat {
    var lb := if lc != 0 then 1 else 0;
    var sh := sh0 + lb * 2;
    lc + lb + (if lc > 15 then 1 else 0) + 2 + (if d >= Pow2(sh) then 1 else 0) + (if d >= Pow2(sh + 8) then 1 else 0)
  }

  /** What a search has found: whether a match may be written; its length, its distance, and how many literals it takes back. */
  datatype Found = Found(ok: bool, rc: nat, d: nat, bmc: nat)

  /** How long a match at `ip` may be. */
  function MatchLimit(src: seq<byte>, ip: nat): (mle: nat)
    requires ip + LIT_FIN <= |src|
    ensures ip + mle + LIT_FIN <= |src| && mle <= MLEN
  {
    if |src| - LIT_FIN - ip > MLEN then MLEN else |src| - LIT_FIN - ip
  }

  /** No tuple of the ring gives a match of more than `n` bytes; and if that is more than four, `d` is the distance of the first
      one, from the ring's head on, that gives as many. */
  ghost predicate Best(src: seq<byte>, ht: seq<Tuple>, h: nat, ip: nat, n: nat, d: nat)
    requires 8 * h + 8 <= |ht| && ip + LIT_FIN <= |src|
  {
    && d <= ip && (if d == 0 then n == 4 else n <= d && n <= MatchLimit(src, ip) && Agree(src, ip, ip - d, n))
    && (forall k :: 8 * h <= k < 8 * h + 7 ==> ht[k].o <= ip && NoLonger(src, ht[k], ip, MatchLimit(src, ip), n))
    && (d != 0 ==> OneIsFirst(src, ht[8 * h..8 * h + 7], ip, n, d, ht[8 * h + 7].o / 2))
  }

  ghost predicate OneIsFirst(src: seq<byte>, ring: seq<Tuple>, ip: nat, n: nat, d: nat, k0: nat)
    requires |ring| == 7 && d <= ip && ip + LIT_FIN <= |src|
  {
    exists k: nat :: k < 7 && FirstBest(src, ring, ip, n, d, k0, k)
  }

  ghost predicate FirstBest(src: seq<byte>, ring: seq<Tuple>, ip: nat, n: nat, d: nat, k0: nat, k: nat)
    requires k < 7 == |ring| && d <= ip && ip + LIT_FIN <= |src|
  {
    ring[k].o == ip - d && n > 0 && AllShorter(src, ring, ip, MatchLimit(src, ip), n - 1, k0, RingOrder(k0, k))
  }

  /** The best match is taken if it is worth it and in the window, and is then extended back as far as the bytes agree or there
      is room. */
  ghost predicate Searched(src: seq<byte>, ht: seq<Tuple>, h: nat, ip: nat, ipa: nat, f: Found)
    requires 8 * h + 8 <= |ht| && ip + LIT_FIN <= |src|
  {
    && f.bmc <= f.rc && (!f.ok ==> f.bmc == 0) && f.d <= ip && Best(src, ht, h, ip, f.rc - f.bmc, f.d)
    && (f.ok <==> Worthwhile(f.rc - f.bmc, f.d, MREF) && OFS_MIN <= f.d < WIN_LEN)
    && (f.ok ==> ipa + f.bmc <= ip && f.bmc + f.d <= ip && f.rc <= f.d && f.rc <= MatchLimit(src, ip))
    && (f.ok ==> || ip - f.bmc == ipa || f.bmc + f.d == ip || f.rc == MatchLimit(src, ip) || f.rc == f.d
                 || src[ip - f.bmc - 1] != src[ip - f.d - f.bmc - 1])
  }

  /** The table after a search: the position is recorded, unless the best match only repeats what lies next to it. */
  function Noted(src: seq<byte>, ht: seq<Tuple>, h: nat, ip: nat, n: nat, d: nat): (ht': seq<Tuple>)
    requires ip + 4 <= |src| && 8 * h + 8 <= |ht| && HeadOk(ht, h)
    ensures |ht'| == |ht|
  {
    if d == n then ht else RingInsert(ht, h, Tuple(Word32(src, ip), ip))
  }

  /** Looks the bytes at `ip` up and inserts them. */
  method LookUp(src: seq<byte>, ht: array<Tuple>, hmask: nat, ip: nat) returns (rc: nat, d: nat)
    requires ip + 15 < |src| < 0x8000_0000
    requires ht.Length % 8 == 0 && ht.Length >= 8 && hmask == BitXor(ht.Length / 8 * 64 - 1, 63)
    requires RingOk(src, ht[..], ip)
    modifies ht
    ensures RingOk(src, ht[..], ip) && rc >= 4 && d <= ip && (d == 0 ==> rc == 4)
    ensures d != 0 ==> rc <= d && rc <= MatchLimit(src, ip) && Agree(src, ip, ip - d, rc)
    ensures
      var h := ItemAt(src, ip, hmask);
      && 8 * h + 8 <= ht.Length && HeadOk(old(ht[..]), h)
      && Best(src, old(ht[..]), h, ip, rc, d) && ht[..] == Noted(src, old(ht[..]), h, ip, rc, d)
  {
    hide NoLonger, Agree, ItemOf, RingInsert, Word32, BitXor, AllShorter, RingOk, Best, HeadOk, RingOrder;
    var iw1 := Word32(src, ip);
    var h := HashItem(iw1, src[ip + 4], 8, hmask, ht.Length / 8, 64);
    HeadIsOk(src, ht[..], ip, h);
    var ti0 := ht[8 * h + 7].o;
    assert ht[..][8 * h + 7].o == ti0;
    var mle := |src| - LIT_FIN - ip;
    mle := if mle > MLEN then MLEN else mle;
    ghost var ht0 := ht[..];
    ghost var k;
    rc, d, k := FindBest(src, ht, h, ti0, ip, iw1, mle);
    assert ht0[8 * h..8 * h + 7] == ht[8 * h..8 * h + 7];
    FoundBest(src, ht0, h, ip, rc, d, k);
    rc := rc + 4;
    if d != rc {
      HtInsert(src, ht, h, ti0, iw1, ip, ip);
    }
  }

  lemma HeadIsOk(src: seq<byte>, ht: seq<Tuple>, ip: nat, h: nat)
    requires RingOk(src, ht, ip) && 8 * h + 8 <= |ht|
    ensures HeadOk(ht, h) && ht[8 * h + 7].o <= MTI && ht[8 * h + 7].o % 2 == 0
  {
    hide TupleOk;
    TupleIndex(h, 7);
  }

  /** What the search of the ring has found is its best match. */
  lemma FoundBest(src: seq<byte>, ht: seq<Tuple>, h: nat, ip: nat, rc: nat, d: nat, k: nat)
    requires 8 * h + 8 <= |ht| && ip + LIT_FIN <= |src| && (rc == 0 ==> d == 0)
    requires rc != 0 ==> rc + 4 <= d <= ip && rc + 4 <= MatchLimit(src, ip) && Agree(src, ip, ip - d, rc + 4)
    requires
      var ring, mle := ht[8 * h..8 * h + 7], MatchLimit(src, ip);
      && (forall j :: 0 <= j < |ring| ==> ring[j].o <= ip && NoLonger(src, ring[j], ip, mle, rc + 4))
      && (rc != 0 ==> k < 7 && ring[k].o == ip - d
                      && AllShorter(src, ring, ip, mle, rc + 3, ht[8 * h + 7].o / 2, RingOrder(ht[8 * h + 7].o / 2, k)))
    ensures Best(src, ht, h, ip, rc + 4, d)
  {
    hide NoLonger, Agree, AllShorter, RingOrder;
    var ring := ht[8 * h..8 * h + 7];
    forall j | 8 * h <= j < 8 * h + 7 ensures ht[j].o <= ip && NoLonger(src, ht[j], ip, MatchLimit(src, ip), rc + 4) {
      assert ring[j - 8 * h] == ht[j];
    }
    if d != 0 {
      assert FirstBest(src, ring, ip, rc + 4, d, ht[8 * h + 7].o / 2, k);
    }
  }

  /** Looks the bytes at `ip` up, inserts them, and measures the best match with the literals it takes back. */
  method Search(src: seq<byte>, ht: array<Tuple>, hmask: nat, ip: nat, ipa: nat)
    returns (found: bool, rc: nat, d: nat, bmc: nat)
    requires ip + 15 < |src| < 0x8000_0000 && ipa <= ip
    requires ht.Length % 8 == 0 && ht.Length >= 8 && hmask == BitXor(ht.Length / 8 * 64 - 1, 63)
    requires RingOk(src, ht[..], ip)
    modifies ht
    ensures RingOk(src, ht[..], ip)
    ensures found ==> bmc <= ip - ipa && bmc < rc && GoodMatch(src, ip - bmc, d, rc)
    ensures
      var h, f := ItemAt(src, ip, hmask), Found(found, rc, d, bmc);
      && 8 * h + 8 <= ht.Length && HeadOk(old(ht[..]), h)
      && bmc <= rc && bmc <= ip && Searched(src, old(ht[..]), h, ip, ipa, f) && ht[..] == Noted(src, old(ht[..]), h, ip, rc - bmc, d)
  {
    hide Best, Noted, RingOk, ItemOf, Word32, BitXor, NoLonger;
    rc, d := LookUp(src, ht, hmask, ip);
    var mle := |src| - LIT_FIN - ip;
    mle := if mle > MLEN then MLEN else mle;
    bmc := 0;
    WindowCheck(d);
    if rc < MREF + (if d > OFS_TH2 then 1 else 0) || Wrap64(d - OFS_MIN) > WIN_LEN - OFS_MIN - 1 {
      return false, rc, d, bmc;
    }
    found := true;
    rc, bmc := ExtendBack(src, ip, ip - d, rc, if d > mle then mle else d, ip - ipa);
  }

  /** Writes a good match as a block. */
  method Commit(src: seq<byte>, dst: array<byte>, c: Cursor, p: nat, d: nat, rc: nat, ghost items: seq<Item>)
    returns (op: nat, cbp: nat, csh: nat, ghost items': seq<Item>)
    requires |src| < 0x8000_0000 && dst.Length >= CompressBoundHi(|src|)
    requires c.ipa <= p && GoodMatch(src, p, d, rc)
    requires c.op <= dst.Length && Emitted(src, dst[..c.op], c.ipa, items, MREF, c.cbp, c.csh)
    modifies dst
    ensures op <= dst.Length && Emitted(src, dst[..op], p + rc, items', MREF, cbp, csh)
    ensures items' == items + BlockItems(src[c.ipa..p], d, rc)
    ensures KeptBehind(dst, CompressBoundHi(|src|))
  {
    hide Emitted, Agree, BlockItems, CompressBoundHi;
    var lc := p - c.ipa;
    BlockRoom(src, dst[..c.op], c.ipa, items, MREF, c.cbp, c.csh, lc);
    op, cbp, csh := EmitBlock(dst, c.op, src, c.ipa, lc, rc, d, c.cbp, c.csh, MREF, items);
    items' := items + BlockItems(src[c.ipa..c.ipa + lc], d, rc);
  }

  /** The saved match gives more bytes than the current one for each byte its block is estimated to take. */
  predicate SavedIsDenser(c: Cursor, p: nat, d: nat, rc: nat)
    requires c.ipa <= p && c.ipa <= c.pip
  {
    var ov, pov := EstBlkSize(p - c.ipa, d, 10 + c.csh), EstBlkSize(c.pip - c.ipa, c.pd, 10 + c.csh);
    c.prc * ov > rc * pov
  }

  /** The denser match is written, the saved one only if it is really denser.  Behind a saved match that is written, the current
      one is saved in its turn, unless they overlap; if they do, or if the current match is written, none is. */
  ghost predicate Chosen(src: seq<byte>, c: Cursor, c': Cursor, items: seq<Item>, items': seq<Item>, p: nat, d: nat, rc: nat)
    requires c.ipa <= p <= |src| && c.ipa <= c.pip <= |src|
  {
    if SavedIsDenser(c, p, d, rc) then
      && items' == items + BlockItems(src[c.ipa..c.pip], c.pd, c.prc) && c'.ipa == c.pip + c.prc
      && (if c'.ipa > p then c'.prc == 0 && c'.ip == (if c'.ipa > c.ip then c'.ipa else c.ip + 1)
          else c'.ip == c.ip + 1 && (c'.prc, c'.pd, c'.pip) == (rc, d, p))
    else
      items' == items + BlockItems(src[c.ipa..p], d, rc) && c'.ip == c'.ipa == p + rc && c'.prc == 0
  }

  /** The table after a current match has been written. */
  function Skipped(src: seq<byte>, ht: seq<Tuple>, h: nat, p: nat): (ht': seq<Tuple>)
    requires p + 8 <= |src| && 8 * h + 8 <= |ht| && HeadOk(ht, h)
    ensures |ht'| == |ht|
  {
    RingInsert(ht, h, Tuple(Word32(src, p + 4), p + 4))
  }

  /** Inserts the position four bytes into a written match. */
  method InsertSkipped(src: seq<byte>, ht: array<Tuple>, hmask: nat, ip: nat, p: nat, end: nat)
    requires p <= ip < end && p + 4 < end && p + 9 <= |src|
    requires ht.Length % 8 == 0 && ht.Length >= 8 && hmask == BitXor(ht.Length / 8 * 64 - 1, 63)
    requires RingOk(src, ht[..], ip)
    modifies ht
    ensures RingOk(src, ht[..], end)
    ensures
      var h := ItemAt(src, p + 4, hmask);
      8 * h + 8 <= ht.Length && HeadOk(old(ht[..]), h) && ht[..] == Skipped(src, old(ht[..]), h, p)
  {
    hide ItemOf, Word32, BitXor, RingInsert;
    var iw1 := Word32(src, p + 4);
    var h := HashItem(iw1, src[p + 8], 8, hmask, ht.Length / 8, 64);
    TupleIndex(h, 7);
    assert ht[..][8 * h + 7] == ht[8 * h + 7];
    RingLater(src, ht[..], ip, end);
    HtInsert(src, ht, h, ht[8 * h + 7].o, iw1, p + 4, end);
  }

  /** The saved match is written. */
  method WriteSaved(src: seq<byte>, dst: array<byte>, ghost ht: seq<Tuple>, c: Cursor, p: nat, d: nat, rc: nat, ghost items: seq<Item>)
    returns (c': Cursor, ghost items': seq<Item>)
    requires |src| < 0x8000_0000 && dst.Length >= CompressBoundHi(|src|) && c.ip + 15 < |src| && c.prc != 0
    requires c.op <= dst.Length && LoopState(src, ht, dst[..c.op], c, items)
    requires c.ipa <= p <= c.ip < p + rc && GoodMatch(src, p, d, rc) && SavedIsDenser(c, p, d, rc)
    modifies dst
    ensures c'.ip > c.ip && c'.op <= dst.Length && LoopState(src, ht, dst[..c'.op], c', items')
    ensures KeptBehind(dst, CompressBoundHi(|src|))
    ensures c.ipa <= c.pip <= |src| && Chosen(src, c, c', items, items', p, d, rc)
  {
    hide Emitted, BlockItems, Agree, Word32, RingOk, EstBlkSize, CompressBoundHi;
    var ip1 := c.ip + 1;
    var op, cbp, csh;
    op, cbp, csh, items' := Commit(src, dst, c, c.pip, c.pd, c.prc, items);
    var ipa := c.pip + c.prc;
    if ipa > p {
      c' := Cursor(if ipa > ip1 then ipa else ip1, ipa, op, cbp, csh, 0, c.pd, c.pip);
    } else {
      // a winning previous match does not overlap the current one, which is saved instead
      c' := Cursor(ip1, ipa, op, cbp, csh, rc, d, p);
    }
    RingLater(src, ht, c.ip, c'.ip);
  }

  /** The current match is written. */
  method WriteCurrent(src: seq<byte>, dst: array<byte>, ht: array<Tuple>, hmask: nat, c: Cursor, p: nat, d: nat, rc: nat,
                      ghost items: seq<Item>)
    returns (c': Cursor, ghost items': seq<Item>)
    requires |src| < 0x8000_0000 && dst.Length >= CompressBoundHi(|src|) && c.ip + 15 < |src| && c.prc != 0
    requires ht.Length % 8 == 0 && ht.Length >= 8 && hmask == BitXor(ht.Length / 8 * 64 - 1, 63)
    requires c.op <= dst.Length && LoopState(src, ht[..], dst[..c.op], c, items)
    requires c.ipa <= p <= c.ip < p + rc && GoodMatch(src, p, d, rc) && !SavedIsDenser(c, p, d, rc)
    modifies dst, ht
    ensures c'.ip > c.ip && c'.op <= dst.Length && LoopState(src, ht[..], dst[..c'.op], c', items')
    ensures KeptBehind(dst, CompressBoundHi(|src|))
    ensures c.ipa <= c.pip <= |src| && Chosen(src, c, c', items, items', p, d, rc)
    ensures
      var h := ItemAt(src, p + 4, hmask);
      8 * h + 8 <= ht.Length && HeadOk(old(ht[..]), h) && ht[..] == Skipped(src, old(ht[..]), h, p)
  {
    hide Emitted, BlockItems, Agree, Word32, RingOk, ItemOf, EstBlkSize, CompressBoundHi, Skipped, BitXor, HeadOk;
    var op, cbp, csh;
    op, cbp, csh, items' := Commit(src, dst, c, p, d, rc, items);
    InsertSkipped(src, ht, hmask, c.ip, p, p + rc);
    c' := Cursor(p + rc, p + rc, op, cbp, csh, 0, c.pd, c.pip);
  }

  /** The lazy choice between the saved match and the current one, which starts at `p`. */
  method Choose(src: seq<byte>, dst: array<byte>, ht: array<Tuple>, hmask: nat, c: Cursor, p: nat, d: nat, rc: nat,
                ghost items: seq<Item>)
    returns (c': Cursor, ghost items': seq<Item>)
    requires |src| < 0x8000_0000 && dst.Length >= CompressBoundHi(|src|) && c.ip + 15 < |src| && c.prc != 0
    requires ht.Length % 8 == 0 && ht.Length >= 8 && hmask == BitXor(ht.Length / 8 * 64 - 1, 63)
    requires c.op <= dst.Length && LoopState(src, ht[..], dst[..c.op], c, items)
    requires c.ipa <= p <= c.ip < p + rc && GoodMatch(src, p, d, rc)
    modifies dst, ht
    ensures c'.ip > c.ip && c'.op <= dst.Length && LoopState(src, ht[..], dst[..c'.op], c', items')
    ensures KeptBehind(dst, CompressBoundHi(|src|))
    ensures c.ipa <= c.pip <= |src| && Chosen(src, c, c', items, items', p, d, rc)
    ensures SavedIsDenser(c, p, d, rc) ==> ht[..] == old(ht[..])
    ensures !SavedIsDenser(c, p, d, rc) ==>
      var h := ItemAt(src, p + 4, hmask);
      8 * h + 8 <= ht.Length && HeadOk(old(ht[..]), h) && ht[..] == Skipped(src, old(ht[..]), h, p)
  {
    hide LoopState, Chosen, GoodMatch, Skipped, ItemAt, EstBlkSize;
    SavedBehind(src, ht[..], dst[..c.op], c, items);
    var lc, plc := p - c.ipa, c.pip - c.ipa;
    var ov, pov := EstBlkSize(lc, d, 10 + c.csh), EstBlkSize(plc, c.pd, 10 + c.csh);
    if c.prc * ov > rc * pov {
      c', items' := WriteSaved(src, dst, ht[..], c, p, d, rc, items);
    } else {
      c', items' := WriteCurrent(src, dst, ht, hmask, c, p, d, rc, items);
    }
  }

  lemma SavedBehind(src: seq<byte>, ht: seq<Tuple>, out: seq<byte>, c: Cursor, items: seq<Item>)
    requires LoopState(src, ht, out, c, items) && c.prc != 0
    ensures c.ipa <= c.pip <= |src|
  {
    hide Emitted, RingOk;
  }

  /** A position without a match can be found from then on: it is the first in its ring. */
  lemma MissIsNoted(src: seq<byte>, ht: seq<Tuple>, h: nat, ip: nat, ipa: nat, f: Found)
    requires ip + 15 < |src| && 8 * h + 8 <= |ht| && HeadOk(ht, h) && Searched(src, ht, h, ip, ipa, f) && f.d == 0
    ensures
      var ht' := Noted(src, ht, h, ip, f.rc - f.bmc, f.d);
      HeadOk(ht', h) && ht'[8 * h + ht'[8 * h + 7].o / 2] == Tuple(Word32(src, ip), ip)
  {
    hide NoLonger, Agree, Word32;
    InsertedFirst(ht, h, Tuple(Word32(src, ip), ip), 0);
  }

  /** What follows a search with result `f`: a first match is saved for a later comparison; a second one is compared with it. */
  ghost predicate Resolved(src: seq<byte>, ht: seq<Tuple>, ht': seq<Tuple>, hmask: nat, c: Cursor, c': Cursor,
                           items: seq<Item>, items': seq<Item>, f: Found)
    requires c.ip + 15 < |src| && f.bmc <= c.ip
  {
    var p := c.ip - f.bmc;
    if !f.ok then items' == items && c' == c.(ip := c.ip + 1) && ht' == ht
    else if c.prc == 0 then items' == items && c' == c.(ip := c.ip + 1, prc := f.rc, pd := f.d, pip := p) && ht' == ht
    else
      && c.ipa <= p && c.ipa <= c.pip <= |src| && p + 9 <= |src| && Chosen(src, c, c', items, items', p, f.d, f.rc)
      && var h := ItemAt(src, p + 4, hmask);
         if SavedIsDenser(c, p, f.d, f.rc) then ht' == ht
         else 8 * h + 8 <= |ht| && HeadOk(ht, h) && ht' == Skipped(src, ht, h, p)
  }

  /** One pass: a search, and what follows it. */
  ghost predicate Passed(src: seq<byte>, ht: seq<Tuple>, ht': seq<Tuple>, hmask: nat, c: Cursor, c': Cursor,
                         items: seq<Item>, items': seq<Item>)
    requires c.ip + 15 < |src|
  {
    var h := ItemAt(src, c.ip, hmask);
    8 * h + 8 <= |ht| && HeadOk(ht, h) && exists f: Found :: PassedWith(src, ht, ht', hmask, h, c, c', items, items', f)
  }

  ghost predicate PassedWith(src: seq<byte>, ht: seq<Tuple>, ht': seq<Tuple>, hmask: nat, h: nat, c: Cursor, c': Cursor,
                             items: seq<Item>, items': seq<Item>, f: Found)
    requires c.ip + 15 < |src| && 8 * h + 8 <= |ht| && HeadOk(ht, h)
  {
    && f.bmc <= f.rc && f.bmc <= c.ip && Searched(src, ht, h, c.ip, c.ipa, f)
    && Resolved(src, Noted(src, ht, h, c.ip, f.rc - f.bmc, f.d), ht', hmask, c, c', items, items', f)
  }

  /** One pass through the loop body. */
  method Step(src: seq<byte>, dst: array<byte>, ht: array<Tuple>, hmask: nat, c: Cursor, ghost items: seq<Item>)
    returns (c': Cursor, ghost items': seq<Item>)
    requires |src| < 0x8000_0000 && dst.Length >= CompressBoundHi(|src|) && c.ip + 15 < |src|
    requires ht.Length % 8 == 0 && ht.Length >= 8 && hmask == BitXor(ht.Length / 8 * 64 - 1, 63)
    requires c.op <= dst.Length && LoopState(src, ht[..], dst[..c.op], c, items)
    modifies dst, ht
    ensures c'.ip > c.ip && c'.op <= dst.Length && LoopState(src, ht[..], dst[..c'.op], c', items')
    ensures KeptBehind(dst, CompressBoundHi(|src|))
    ensures Passed(src, old(ht[..]), ht[..], hmask, c, c', items, items')
  {
    hide Emitted, Searched, Noted, Chosen, GoodMatch, RingOk, ItemOf, Word32, BitXor, SavedIsDenser, Skipped, HeadOk;
    ghost var ht0 := ht[..];
    var found, rc, d, bmc := Search(src, ht, hmask, c.ip, c.ipa);
    ghost var ht1, f := ht[..], Found(found, rc, d, bmc);
    if found {
      GoodRoom(src, c.ip - bmc, d, rc);
    }
    items' := items;
    if !found {
      c' := c.(ip := c.ip + 1);
      RingLater(src, ht[..], c.ip, c'.ip);
    } else if c.prc == 0 {
      // saved for a later comparison
      c' := c.(ip := c.ip + 1, prc := rc, pd := d, pip := c.ip - bmc);
      RingLater(src, ht[..], c.ip, c'.ip);
    } else {
      c', items' := Choose(src, dst, ht, hmask, c, c.ip - bmc, d, rc, items);
    }
    assert Resolved(src, ht1, ht[..], hmask, c, c', items, items', f);
    assert PassedWith(src, ht0, ht[..], hmask, ItemAt(src, c.ip, hmask), c, c', items, items', f);
  }

  lemma GoodRoom(src: seq<byte>, p: nat, d: nat, rc: nat)
    requires GoodMatch(src, p, d, rc)
    ensures p + 15 < |src| && rc >= 5
  {
    hide Agree;
  }

  /** A table of the right size, in which all tuples record the first bytes of the source. */
  ghost predicate NewTable(src: seq<byte>, ht: seq<Tuple>, hmask: nat) {
    && |src| >= 16 && TableSize(8 * |ht|, |src|) && |ht| > 0 && hmask == BitXor(8 * |ht| - 1, 63)
    && forall i :: 0 <= i < |ht| ==> ht[i] == Tuple(Word32(src, 0), 0)
  }

  /** The state after `k` passes, from a new table and the start of the source. */
  ghost predicate Passes(src: seq<byte>, k: nat, ht: seq<Tuple>, hmask: nat, c: Cursor, items: seq<Item>) {
    if k == 0 then
      && NewTable(src, ht, hmask) && c == Cursor(0, 0, 1, 1, 0, 0, 0, 0) && items == []
    else
      exists ht0, c0: Cursor, items0 :: Passes(src, k - 1, ht0, hmask, c0, items0)
        && c0.ip + 15 < |src| && Passed(src, ht0, ht, hmask, c0, c, items0, items)
  }

  lemma PassesStart(src: seq<byte>, ht: seq<Tuple>, hmask: nat, c: Cursor)
    requires NewTable(src, ht, hmask) && c == Cursor(0, 0, 1, 1, 0, 0, 0, 0)
    ensures Passes(src, 0, ht, hmask, c, [])
  {
    hide NewTable;
  }

  lemma PassesMore(src: seq<byte>, k: nat, ht0: seq<Tuple>, ht: seq<Tuple>, hmask: nat, c0: Cursor, c: Cursor, items0: seq<Item>, items: seq<Item>)
    requires Passes(src, k, ht0, hmask, c0, items0) && c0.ip + 15 < |src| && Passed(src, ht0, ht, hmask, c0, c, items0, items)
    ensures Passes(src, k + 1, ht, hmask, c, items)
  {
    hide Passed, TableSize, BitXor;
  }

  /** The items up to `ipa` that a whole run gives: passes up to the last sixteen bytes, and the match still saved then. */
  ghost predicate PassesEnd(src: seq<byte>, k: nat, ht: seq<Tuple>, hmask: nat, c: Cursor, items0: seq<Item>, ipa: nat, items: seq<Item>) {
    && Passes(src, k, ht, hmask, c, items0) && c.ip + 15 >= |src|
    && if c.prc == 0 then ipa == c.ipa && items == items0
       else c.ipa <= c.pip <= |src| && ipa == c.pip + c.prc && items == items0 + BlockItems(src[c.ipa..c.pip], c.pd, c.prc)
  }

  /** `items` are what a whole run gives, and the final literals. */
  ghost predicate Parsed(src: seq<byte>, items: seq<Item>) {
    exists k: nat, ht, hmask: nat, c: Cursor, items0, ipa: nat, front ::
      PassesEnd(src, k, ht, hmask, c, items0, ipa, front) && ipa <= |src| && items == front + [Lit(src[ipa..])]
  }

  /** The smallest of the sizes from 8 KiB to 8 MiB, doubling, that is four times the source; or the largest. */
  ghost predicate TableSize(htsize: nat, srcl: nat) {
    && (exists k :: 0 <= k <= 10 && htsize == Doubled(8192, k))
    && (htsize == 8192 || htsize / 8 < srcl) && (htsize == 0x80_0000 || htsize / 4 >= srcl)
  }

  /** The number of bytes of the hash table. */
  method HashSize(srcl: nat) returns (htsize: nat)
    ensures htsize >= 8192 && htsize % 64 == 0 && TableSize(htsize, srcl)
  {
    hide Doubled;
    htsize := 8192;
    ghost var k := 0;
    DoubledOnce(8192, 0);
    while htsize != 0x80_0000 && htsize / 4 < srcl
      invariant k <= 10 && htsize == Doubled(8192, k) && htsize >= 8192 && htsize % 64 == 0
      invariant htsize == 8192 || htsize / 8 < srcl
      decreases 10 - k
    {
      DoubledBelow(k);
      DoubledOnce(8192, k);
      htsize := htsize * 2;
      k := k + 1;
    }
  }

  lemma DoubledBelow(k: nat)
    requires k <= 10 && Doubled(8192, k) != 0x80_0000
    ensures k < 10
  {
    assert Doubled(8192, 5) == 0x4_0000;
  }

  /** The main loop and the final literals. */
  method CompressLong(src: seq<byte>, dst: array<byte>) returns (n: nat, ghost items: seq<Item>)
    requires 16 <= |src| < 0x8000_0000 && dst.Length >= CompressBoundHi(|src|)
    modifies dst
    ensures 0 < n <= CompressBoundHi(|src|) && Complete(src, dst[..n], items, MREF) && Parsed(src, items)
    ensures KeptBehind(dst, CompressBoundHi(|src|))
  {
    hide Complete, Emitted, PassesEnd;
    BoundAtLeast(|src|);
    PutByte(dst, 0, 2 * 16 + MREF);
    assert dst[..1] == [2 * 16 + MREF];
    EmittedNothing(src, MREF);
    var c;
    ghost var k, ht, hmask, c0, items0;
    c, items, k, ht, hmask, c0, items0 := Scan(src, dst);
    EmittedRoom(src, dst[..c.op], c.ipa, items, MREF, c.cbp, c.csh);
    ghost var p := dst[..c.op];
    n := WriteFin(dst, c.op, src, c.ipa);
    Finish(src, p, dst[..n], c.ipa, c.cbp, c.csh, MREF, items);
    items := items + [Lit(src[c.ipa..])];
  }

  /** The hash table, all of whose tuples record the first bytes of the source. */
  method InitTable(src: seq<byte>) returns (ht: array<Tuple>, hmask: nat)
    requires |src| >= 16
    ensures fresh(ht) && ht.Length % 8 == 0 && ht.Length >= 8 && hmask == BitXor(ht.Length / 8 * 64 - 1, 63)
    ensures RingOk(src, ht[..], 0) && hmask == BitXor(8 * ht.Length - 1, 63)
    ensures NewTable(src, ht[..], hmask)
  {
    hide Word32, BitXor, TableSize, RingOk, NewTable;
    var htsize := HashSize(|src|);
    TupleCount(htsize);
    ht := HtInit(htsize / 8, Tuple(Word32(src, 0), 0));
    hmask := BitXor(htsize - 1, 63);
    RingStart(src, ht[..]);
    NewTableIs(src, ht[..], hmask, htsize);
  }

  lemma TupleCount(htsize: nat)
    requires htsize >= 8192 && htsize % 64 == 0
    ensures htsize / 8 >= 8 && htsize / 8 % 8 == 0 && 8 * (htsize / 8) == htsize && htsize / 8 / 8 * 64 == htsize
  {
    var k := htsize / 64;
    assert htsize == 64 * k;
    assert htsize / 8 == 8 * k;
    assert 8 * k / 8 == k;
  }

  lemma NewTableIs(src: seq<byte>, ht: seq<Tuple>, hmask: nat, htsize: nat)
    requires |src| >= 16 && 8 * |ht| == htsize > 0 && TableSize(htsize, |src|) && hmask == BitXor(htsize - 1, 63)
    requires forall i :: 0 <= i < |ht| ==> ht[i] == Tuple(Word32(src, 0), 0)
    ensures NewTable(src, ht, hmask)
  {
    hide Word32, BitXor, TableSize;
  }

  lemma RingStart(src: seq<byte>, ht: seq<Tuple>)
    requires |src| >= 4 && forall i :: 0 <= i < |ht| ==> ht[i] == Tuple(Word32(src, 0), 0)
    ensures RingOk(src, ht, 0)
  {
    hide Word32;
  }

  /** The hash table, the main loop, and the match still saved when it ends. */
  method Scan(src: seq<byte>, dst: array<byte>)
    returns (c: Cursor, ghost items: seq<Item>, ghost k: nat, ghost ht1: seq<Tuple>, ghost mask: nat, ghost c0: Cursor, ghost items0: seq<Item>)
    requires 16 <= |src| < 0x8000_0000 && dst.Length >= CompressBoundHi(|src|)
    requires 1 <= dst.Length && Emitted(src, dst[..1], 0, [], MREF, 1, 0)
    modifies dst
    ensures c.op <= dst.Length && c.ipa + LIT_FIN <= |src|
    ensures Emitted(src, dst[..c.op], c.ipa, items, MREF, c.cbp, c.csh)
    ensures KeptBehind(dst, CompressBoundHi(|src|))
    ensures PassesEnd(src, k, ht1, mask, c0, items0, c.ipa, items)
  {
    hide Emitted, BitXor, RingOk, Passed, Passes, BlockItems, CompressBoundHi, Agree, NewTable;
    var ht, hmask := InitTable(src);
    c, items, k, mask := Cursor(0, 0, 1, 1, 0, 0, 0, 0), [], 0, hmask;
    PassesStart(src, ht[..], hmask, c);
    while c.ip + 15 < |src|
      invariant c.op <= dst.Length && LoopState(src, ht[..], dst[..c.op], c, items)
      invariant KeptBehind(dst, CompressBoundHi(|src|)) && Passes(src, k, ht[..], hmask, c, items)
      decreases |src| - c.ip
    {
      ghost var ht0, cb, before := ht[..], c, items;
      c, items := Step(src, dst, ht, hmask, c, items);
      PassesMore(src, k, ht0, ht[..], hmask, cb, c, before, items);
      k := k + 1;
    }
    ht1, c0, items0 := ht[..], c, items;
    if c.prc != 0 {
      var op, cbp, csh;
      op, cbp, csh, items := Commit(src, dst, c, c.pip, c.pd, c.prc, items);
      c := c.(ipa := c.pip + c.prc, op := op, cbp := cbp, csh := csh);
    }
  }

  /** `lzav_compress_hi`: as `lzav_compress`, with its own bound. */
  method CompressHi(src: seq<byte>, dst: array<byte>) returns (n: nat, ghost items: seq<Item>)
    requires |src| < 0x8000_0000
    modifies dst
    ensures n == 0 <==> src == [] || dst.Length < CompressBoundHi(|src|)
    ensures src != [] && dst.Length >= |src| + |src| / 21 + 20 ==> 0 < n <= |src| + |src| / 21 + 20
    ensures n == 0 ==> dst[..] == old(dst[..])
    ensures n > 0 ==> n <= CompressBoundHi(|src|) && Complete(src, dst[..n], items, MREF)
    ensures n > 0 ==> KeptBehind(dst, CompressBoundHi(|src|))
    ensures n > 0 && |src| >= 16 ==> Parsed(src, items)
  {
    hide Complete, Parsed;
    BoundAtMost(|src|);
    items := [];
    if |src| == 0 || dst.Length < CompressBoundHi(|src|) {
      return 0, items;
    }
    BoundAtLeast(|src|);
    if |src| < 16 {
      n := LzavCompress.CompressShort(src, dst, MREF);
      items := [Lit(src)];
      return;
    }
    n, items := CompressLong(src, dst);
  }

  // ---------------------------------------------------------------- the size estimate

  lemma {:induction false} ShrIsDiv(v: nat, n: nat, m: nat)
    ensures Shr(v, n) >= m <==> v >= m * Pow2(n)
    decreases n
  {
    if n > 0 {
      ShrIsDiv(v / 2, n - 1, m);
      var x := m * Pow2(n - 1);
      assert m * Pow2(n) == 2 * x;
    }
  }

  /** The estimate is the exact size of a block with a short match and fewer than 144 literals. */
  lemma EstimateIsExact(lc: nat, rc: nat, d: nat, csh: nat)
    requires d < WIN_LEN && lc < 144 && 1 <= rc < 16
    ensures EstBlkSize(lc, d, 10 + csh) == |LitPart(lc)| + lc + |RefBlock(LeftOfs(d, csh, lc), rc, 0)|
  {
    var sh := if lc == 0 then csh else csh + 2;
    var x := LeftOfs(d, csh, lc);
    assert x == Shr(d, sh) by {
      ShrAdd(d, csh, 2);
      assert Shr(Shr(d, csh), 2) == Shr(d, csh) / 2 / 2;
    }
    ShrIsDiv(d, sh, 0x400);
    ShrIsDiv(d, sh, 0x4_0000);
    Pow2Add(10, sh);
    Pow2Add(18, sh);
    assert Pow2(10) == 0x400;
    Pow2Add(10, 8);
    RefBlockLength(x, rc);
  }

  /** The size of a block of `lc` literals and a match of `rc` bytes. */
  function BlockSize(lc: nat, rc: nat, d: nat, csh: nat): nat
    requires MREF <= rc <= MLEN && d < WIN_LEN
  {
    |LitPart(lc)| + lc + |RefBlock(LeftOfs(d, csh, lc), rc + 1 - MREF, 0)|
  }

  /** So between short matches the one is written that stands for more bytes of the source by each byte of its block. */
  lemma DenserBySize(c: Cursor, p: nat, d: nat, rc: nat)
    requires c.ipa <= p < c.ipa + 144 && c.ipa <= c.pip < c.ipa + 144 && d < WIN_LEN && c.pd < WIN_LEN
    requires MREF <= rc < MREF + 15 && MREF <= c.prc < MREF + 15
    ensures SavedIsDenser(c, p, d, rc) <==>
      c.prc * BlockSize(p - c.ipa, rc, d, c.csh) > rc * BlockSize(c.pip - c.ipa, c.prc, c.pd, c.csh)
  {
    hide EstBlkSize, LitPart, RefBlock;
    EstimateIsExact(p - c.ipa, rc + 1 - MREF, d, c.csh);
    EstimateIsExact(c.pip - c.ipa, c.prc + 1 - MREF, c.pd, c.csh);
  }
}
