/** `lzav_compress`: the greedy match finder with two tuples per hash-table item. */
module LzavCompress {
  import opened Bits
  import opened LzavMatch
  import opened LzavFormat
  import opened LzavParse
  import opened LzavHash
  import opened LzavCopy
  import opened LzavWrite
  import opened LzavBound
  import opened LzavEmit

  const MREF: nat := 6
  const MLEN: nat := REF_LEN + MREF

  /** The variables of the main loop. */
  datatype Cursor = Cursor(ip: nat, ipa: nat, op: nat, cbp: nat, csh: nat, mavg: int, rndb: nat)

  /** A table entry whose six bytes equal those at `ip`. */
  ghost predicate Candidate(src: seq<byte>, ip: nat, wpo: nat) {
    wpo <= ip && ip + 6 <= |src| && Agree(src, ip, wpo, 6)
  }

  /** The two comparisons decide. */
  lemma CandidateFound(src: seq<byte>, t: Tuple, ip: nat)
    requires ip + 6 <= |src| && TupleOk(src, t, ip)
    ensures Candidate(src, ip, t.o) <==> Word32(src, ip) == t.w && Word16(src, ip + 4) == Word16(src, t.o + 4)
  {
    if Word32(src, ip) == t.w && Word16(src, ip + 4) == Word16(src, t.o + 4) {
      SameWord32(src, ip, t.o);
      SameWord16(src, ip + 4, t.o + 4);
      AgreeConcat(src, ip, t.o, 4, 2);
    }
    if Candidate(src, ip, t.o) {
      AgreeIsSliceEquality(src, ip, t.o, 6);
      SixBytes(src, ip);
      SixBytes(src, t.o);
    }
  }

  lemma SixBytes(src: seq<byte>, p: nat)
    requires p + 6 <= |src|
    ensures src[p..p + 4] == src[p..p + 6][..4] && src[p + 4..p + 6] == src[p..p + 6][4..]
  {
  }

  /** What the first tuple of item `h` that records the same six bytes says, if there is one. */
  ghost function Hit(src: seq<byte>, ht: seq<Tuple>, h: nat, ip: nat): Option<nat>
    requires 2 * h + 1 < |ht|
  {
    var o0, o1 := ht[2 * h].o, ht[2 * h + 1].o;
    if Candidate(src, ip, o0) then Some(o0) else if Candidate(src, ip, o1) then Some(o1) else None
  }

  /** Looks the six bytes at `ip` up in both tuples of item `h`. */
  method FindTuple(src: seq<byte>, ht: array<Tuple>, h: nat, ip: nat, iw1: nat, iw2: nat) returns (found: bool, wpo: nat)
    requires ip + 6 <= |src| && 2 * h + 1 < ht.Length && TableOk(src, ht[..], ip)
    requires iw1 == Word32(src, ip) && iw2 == Word16(src, ip + 4)
    ensures Hit(src, ht[..], h, ip) == if found then Some(wpo) else None
    ensures found ==> wpo <= ip && Candidate(src, ip, wpo)
    ensures found ==> iw1 == ht[2 * h].w || iw1 == ht[2 * h + 1].w
  {
    hide Candidate, Word32, Word16, TupleOk;
    var t0, t1 := ht[2 * h], ht[2 * h + 1];
    assert t0 == ht[..][2 * h] && t1 == ht[..][2 * h + 1];
    CandidateFound(src, t0, ip);
    CandidateFound(src, t1, ip);
    TupleRoom(src, t0, ip);
    TupleRoom(src, t1, ip);
    wpo := 0;
    if iw1 != t0.w {
      if iw1 != t1.w {
        return false, wpo;
      }
      wpo := t1.o;
      if iw2 != Word16(src, wpo + 4) {
        return false, wpo;
      }
    } else {
      wpo := t0.o;
      if iw2 != Word16(src, wpo + 4) {
        if iw1 != t1.w {
          return false, wpo;
        }
        wpo := t1.o;
        if iw2 != Word16(src, wpo + 4) {
          return false, wpo;
        }
      }
    }
    return true, wpo;
  }

  lemma TupleRoom(src: seq<byte>, t: Tuple, ip: nat)
    requires ip + 6 <= |src| && TupleOk(src, t, ip)
    ensures t.o <= ip && t.o + 6 <= |src|
  {
  }

  method SetTuple(src: seq<byte>, ht: array<Tuple>, i: nat, t: Tuple, ghost ip: nat)
    requires i < ht.Length && TableOk(src, ht[..], ip) && TupleOk(src, t, ip)
    modifies ht
    ensures TableOk(src, ht[..], ip) && ht[..] == old(ht[..])[i := t]
  {
    ghost var before := ht[..];
    ht[i] := t;
    assert ht[..] == before[i := t];
  }

  /** What holds at the head of the main loop. */
  ghost predicate LoopState(src: seq<byte>, ht: seq<Tuple>, out: seq<byte>, c: Cursor, items: seq<Item>) {
    && c.ipa <= c.ip && c.ipa + LIT_FIN <= |src| && |out| == c.op && c.mavg >= 0 && c.rndb <= 1
    && TableOk(src, ht, c.ip)
    && Emitted(src, out, c.ipa, items, MREF, c.cbp, c.csh)
  }

  /** How far the cursor moves after a miss behind other literals, when `avg` is the average in whole units. */
  function Stride(avg: int, dither: nat): int {
    if avg >= 200 then 1 else dither + if avg >= 130 then 2 else if avg >= 100 then 3 else 103 - avg
  }

  /** The lower the average, the farther; and never more than 104 bytes. */
  lemma StrideGrows(a: int, b: int, dither: nat)
    requires 0 <= a <= b && dither <= 1
    ensures 1 <= Stride(b, dither) <= Stride(a, dither) <= 104
  {
  }

  /** A miss makes the average sink by its 2048th part; when it is low, the cursor skips ahead, dithered by the position of the
      miss before. */
  predicate Missed(c: Cursor, c': Cursor) {
    var avg := c'.mavg / 0x400;
    && c' == c.(ip := c'.ip, mavg := c.mavg - c.mavg / 0x800, rndb := if c.ip == c.ipa || avg >= 200 then c.rndb else c.ip % 2)
    && c'.ip == c.ip + if c.ip == c.ipa then 1 else Stride(avg, c.rndb)
  }

  /** A match moves the average a 1024th of the way to its length, which counts 128 units a byte. */
  predicate Averaged(was: int, now: int, rc: nat) {
    0x400 * (now - was) <= rc * 0x2_0000 - was < 0x400 * (now - was + 1)
  }

  /** After a miss: the average sinks, and when it is low the cursor skips ahead. */
  method Skip(c: Cursor, ipo: nat) returns (c': Cursor)
    requires ipo == c.ip && c.mavg >= 0 && c.rndb <= 1
    ensures Missed(c, c') && c.ip < c'.ip <= c.ip + 104 && 0 <= c'.mavg <= c.mavg && c'.rndb <= 1
    ensures c' == c.(ip := c'.ip, mavg := c'.mavg, rndb := c'.rndb)
  {
    var wp := c.ip;
    var mavg := c.mavg - c.mavg / 0x800;
    var ip: int := c.ip + 1;
    var rndb := c.rndb;
    if mavg < 200 * 0x400 && wp != c.ipa {
      ip := ip + 1 + rndb;
      rndb := ipo % 2;
      if mavg < 130 * 0x400 {
        ip := ip + 1;
        if mavg < 100 * 0x400 {
          ip := ip + 100 - mavg / 0x400;
        }
      }
    }
    c' := c.(ip := ip, mavg := mavg, rndb := rndb);
  }

  /** Moving the cursor on keeps the loop's state. */
  lemma LoopLater(src: seq<byte>, ht: seq<Tuple>, out: seq<byte>, c: Cursor, c': Cursor, items: seq<Item>)
    requires LoopState(src, ht, out, c, items)
    requires c.ip <= c'.ip && c' == c.(ip := c'.ip, mavg := c'.mavg, rndb := c'.rndb) && c'.mavg >= 0 && c'.rndb <= 1
    ensures LoopState(src, ht, out, c', items)
  {
    hide Emitted, TableOk;
    TableLater(src, ht, c.ip, c'.ip);
  }

  /** The item of the six bytes at `ip`. */
  function ItemAt(src: seq<byte>, ip: nat, hmask: nat): nat
    requires ip + 6 <= |src|
  {
    ItemOf(Word32(src, ip), Word16(src, ip + 4), 12, hmask, 16)
  }

  /** Item `h` after a match of `rc` bytes at distance `d`: the position is recorded in front, unless the match only repeats
      what lies next to it. */
  function Fronted(ht: seq<Tuple>, h: nat, t: Tuple, d: nat, rc: nat): (ht': seq<Tuple>)
    requires 2 * h + 1 < |ht|
    ensures |ht'| == |ht|
  {
    if ht[2 * h].w != t.w then ht[2 * h + 1 := ht[2 * h]][2 * h := t] else if d != rc then ht[2 * h := t] else ht
  }

  /** The table after a match: the position two bytes on is recorded as well, behind. */
  function Recorded(src: seq<byte>, ht: seq<Tuple>, h: nat, h': nat, ip: nat, d: nat, rc: nat): (ht': seq<Tuple>)
    requires ip + 8 <= |src| && 2 * h + 1 < |ht| && 2 * h' + 1 < |ht|
    ensures |ht'| == |ht|
  {
    var ht1 := Fronted(ht, h, Tuple(Word32(src, ip), ip), d, rc);
    ht1[2 * h' + 1 := Tuple(Word32(src, ip + 2), ip + 2)]
  }

  /** The table entry that matched is replaced, or the new one is put in front. */
  method UpdateItem(src: seq<byte>, ht: array<Tuple>, h: nat, ip: nat, iw1: nat, d: nat, rc: nat)
    requires ip + 4 <= |src| && iw1 == Word32(src, ip) && 2 * h + 1 < ht.Length && TableOk(src, ht[..], ip)
    modifies ht
    ensures TableOk(src, ht[..], ip) && ht[..] == Fronted(old(ht[..]), h, Tuple(iw1, ip), d, rc)
  {
    var hw := ht[2 * h];
    assert hw == ht[..][2 * h];
    if iw1 == hw.w {
      if d != rc {
        SetTuple(src, ht, 2 * h, Tuple(iw1, ip), ip);
      }
    } else {
      SetTuple(src, ht, 2 * h + 1, hw, ip);
      SetTuple(src, ht, 2 * h, Tuple(iw1, ip), ip);
    }
  }

  /** The update of the table for a match; a position two bytes on is added. */
  method UpdateTable(src: seq<byte>, ht: array<Tuple>, hmask: nat, h: nat, ip: nat, iw1: nat, d: nat, rc: nat)
    requires ht.Length % 2 == 0 && ht.Length >= 2 && hmask == BitXor(ht.Length / 2 * 16 - 1, 15)
    requires ip + 8 <= |src| && iw1 == Word32(src, ip) && h < ht.Length / 2
    requires TableOk(src, ht[..], ip)
    modifies ht
    ensures TableOk(src, ht[..], ip + 2)
    ensures 2 * ItemAt(src, ip + 2, hmask) + 1 < ht.Length
    ensures ht[..] == Recorded(src, old(ht[..]), h, ItemAt(src, ip + 2, hmask), ip, d, rc)
  {
    hide TableOk, Word32, Word16, ItemOf, Fronted, TupleOk;
    UpdateItem(src, ht, h, ip, iw1, d, rc);
    var iw1' := Word32(src, ip + 2);
    var h' := HashItem(iw1', Word16(src, ip + 6), 12, hmask, ht.Length / 2, 16);
    TableLater(src, ht[..], ip, ip + 2);
    NewTuple(src, ip + 2);
    SetTuple(src, ht, 2 * h' + 1, Tuple(iw1', ip + 2), ip + 2);
  }

  lemma NewTuple(src: seq<byte>, ip: nat)
    requires ip + 4 <= |src|
    ensures TupleOk(src, Tuple(Word32(src, ip), ip), ip)
  {
  }

  /** How long a match may be: no longer than the format allows, without overlap, and leaving the final literals. */
  function MatchRoom(src: seq<byte>, ip: nat, wpo: nat): (ml: nat)
    requires wpo <= ip && ip + LIT_FIN <= |src|
    ensures ml <= MLEN && ml <= ip - wpo && ip + ml + LIT_FIN <= |src|
  {
    var ml := |src| - LIT_FIN - ip;
    var ml1 := if ml > MLEN then MLEN else ml;
    if ml1 > ip - wpo then ip - wpo else ml1
  }

  /** A match of `rc` bytes that starts `bmc` bytes before `ip` and cannot be extended: forward to where the bytes differ or
      the room ends; then, if there is still room, back to where they differ, or to the literals' or the source's start. */
  ghost predicate Longest(src: seq<byte>, ipa: nat, ip: nat, wpo: nat, bmc: nat, rc: nat) {
    && wpo < ip && ip + LIT_FIN <= |src| && ipa + bmc <= ip && bmc <= wpo && bmc <= rc <= MatchRoom(src, ip, wpo)
    && IsMatchLen(src, ip, wpo, MatchRoom(src, ip, wpo), rc - bmc)
    && Agree(src, ip - bmc, wpo - bmc, rc)
    && (ip - bmc == ipa || bmc == wpo || rc == MatchRoom(src, ip, wpo) || src[ip - bmc - 1] != src[wpo - bmc - 1])
  }

  /** The length of a match inside the window, the table update, and the literals the match takes back. */
  method Measure(src: seq<byte>, ht: array<Tuple>, hmask: nat, ip: nat, ipa: nat, h: nat, iw1: nat, wpo: nat)
    returns (rc: nat, bmc: nat)
    requires ipa <= ip && ip + 15 < |src|
    requires ht.Length % 2 == 0 && ht.Length >= 2 && hmask == BitXor(ht.Length / 2 * 16 - 1, 15) && h < ht.Length / 2
    requires TableOk(src, ht[..], ip)
    requires iw1 == Word32(src, ip) && Candidate(src, ip, wpo) && OFS_MIN <= ip - wpo < WIN_LEN
    modifies ht
    ensures bmc <= ip - ipa && bmc <= wpo && MREF + bmc <= rc <= MLEN && rc <= ip - wpo
    ensures ip - bmc + rc + LIT_FIN <= |src|
    ensures Agree(src, ip - bmc, wpo - bmc, rc) && Longest(src, ipa, ip, wpo, bmc, rc)
    ensures TableOk(src, ht[..], ip - bmc + rc)
    ensures 2 * ItemAt(src, ip + 2, hmask) + 1 < ht.Length
    ensures ht[..] == Recorded(src, old(ht[..]), h, ItemAt(src, ip + 2, hmask), ip, ip - wpo, rc - bmc)
  {
    hide Recorded, ItemOf, Word32, Word16, TableOk;
    var d := ip - wpo;
    var ml := |src| - LIT_FIN - ip;
    ml := if ml > MLEN then MLEN else ml;
    ml := if ml > d then d else ml;
    rc := MatchFrom(src, ip, wpo, MREF, ml);
    UpdateTable(src, ht, hmask, h, ip, iw1, d, rc);
    TableLater(src, ht[..], ip + 2, ip + rc);
    rc, bmc := ExtendBack(src, ip, wpo, rc, ml, ip - ipa);
  }

  /** A longest match has become a block, behind the literals before it. */
  ghost predicate Wrote(src: seq<byte>, ht: seq<Tuple>, ht': seq<Tuple>, h: nat, h': nat, c: Cursor, c': Cursor,
                        items: seq<Item>, items': seq<Item>, wpo: nat)
    requires c.ip + 8 <= |src| && 2 * h + 1 < |ht| && 2 * h' + 1 < |ht|
  {
    exists bmc: nat, rc: nat :: bmc <= rc && Longest(src, c.ipa, c.ip, wpo, bmc, rc)
      && Block(src, c, c', items, items', c.ip - wpo, bmc, rc)
      && ht' == Recorded(src, ht, h, h', c.ip, c.ip - wpo, rc - bmc)
  }

  /** The block stands for the literals and for the match of `rc` bytes at distance `d`; the latter takes six bytes at most. */
  predicate Block(src: seq<byte>, c: Cursor, c': Cursor, items: seq<Item>, items': seq<Item>, d: nat, bmc: nat, rc: nat)
    requires c.ip <= |src|
  {
    && c.ipa + bmc <= c.ip && c'.ip == c'.ipa == c.ip - bmc + rc && c'.rndb == c.rndb && Averaged(c.mavg, c'.mavg, rc)
    && items' == items + BlockItems(src[c.ipa..c.ip - bmc], d, rc)
    && c'.op <= c.op + |LitPart(c.ip - bmc - c.ipa)| + c.ip - bmc - c.ipa + 6
  }

  lemma WroteBlock(src: seq<byte>, ht: seq<Tuple>, ht': seq<Tuple>, h: nat, h': nat, c: Cursor, c': Cursor,
                   items: seq<Item>, items': seq<Item>, wpo: nat, bmc: nat, rc: nat, x: nat)
    requires c.ip + 8 <= |src| && 2 * h + 1 < |ht| && 2 * h' + 1 < |ht|
    requires Longest(src, c.ipa, c.ip, wpo, bmc, rc) && MREF + bmc <= rc && x < WIN_LEN
    requires wpo <= c.ip && c.ipa + bmc <= c.ip && c'.ip == c'.ipa == c.ip - bmc + rc && c'.rndb == c.rndb && Averaged(c.mavg, c'.mavg, rc)
    requires items' == items + BlockItems(src[c.ipa..c.ip - bmc], c.ip - wpo, rc)
    requires ht' == Recorded(src, ht, h, h', c.ip, c.ip - wpo, rc - bmc)
    requires c'.op - c.op == |LitPart(c.ip - bmc - c.ipa)| + |RefBlock(x, rc + 1 - MREF, 0)| + (c.ip - bmc - c.ipa)
    ensures Wrote(src, ht, ht', h, h', c, c', items, items', wpo)
  {
    hide ItemOf, Word32, Word16, Recorded, LitPart, RefBlock, IsMatchLen, Agree, BlockItems;
    RefBlockLength(x, rc + 1 - MREF);
  }

  /** A match inside the window becomes a block. */
  method Match(src: seq<byte>, dst: array<byte>, ht: array<Tuple>, hmask: nat, c: Cursor, h: nat, iw1: nat, wpo: nat,
               ghost items: seq<Item>)
    returns (c': Cursor, ghost items': seq<Item>)
    requires |src| < 0x8000_0000 && dst.Length >= CompressBound(|src|) && c.ip + 15 < |src|
    requires ht.Length % 2 == 0 && ht.Length >= 2 && hmask == BitXor(ht.Length / 2 * 16 - 1, 15) && h < ht.Length / 2
    requires c.op <= dst.Length && LoopState(src, ht[..], dst[..c.op], c, items)
    requires iw1 == Word32(src, c.ip) && Candidate(src, c.ip, wpo) && OFS_MIN <= c.ip - wpo < WIN_LEN
    modifies dst, ht
    ensures c'.ip > c.ip && c'.op <= dst.Length && LoopState(src, ht[..], dst[..c'.op], c', items')
    ensures KeptBehind(dst, CompressBound(|src|))
    ensures 2 * ItemAt(src, c.ip + 2, hmask) + 1 < ht.Length
    ensures Wrote(src, old(ht[..]), ht[..], h, ItemAt(src, c.ip + 2, hmask), c, c', items, items', wpo)
  {
    hide Emitted, Recorded, ItemOf, Word32, Word16, Longest, Wrote, LitPart, RefBlock, TableOk, Candidate, Agree, BlockItems, CompressBound;
    ghost var ht0 := ht[..];
    var d := c.ip - wpo;
    var rc, bmc := Measure(src, ht, hmask, c.ip, c.ipa, h, iw1, wpo);
    var ip := c.ip - bmc;
    var lc := ip - c.ipa;
    BlockRoom(src, dst[..c.op], c.ipa, items, MREF, c.cbp, c.csh, lc);
    var op, cbp, csh := EmitBlock(dst, c.op, src, c.ipa, lc, rc, d, c.cbp, c.csh, MREF, items);
    items' := items + BlockItems(src[c.ipa..ip], d, rc);
    ip := ip + rc;
    c' := Cursor(ip, ip, op, cbp, csh, c.mavg + (rc * 0x2_0000 - c.mavg) / 0x400, c.rndb);
    WroteBlock(src, ht0, ht[..], h, ItemAt(src, c.ip + 2, hmask), c, c', items, items', wpo, bmc, rc, LeftOfs(d, c.csh, lc));
  }

  /** What one pass does, if item `h` is that of its position, and item `h'` that of the one two bytes on: a miss is recorded and passed over, a hit too near or too far is passed over, and any other becomes
      a block. */
  ghost predicate Passed(src: seq<byte>, ht: seq<Tuple>, ht': seq<Tuple>, h: nat, h': nat, c: Cursor, c': Cursor,
                         items: seq<Item>, items': seq<Item>)
    requires c.ip + 8 <= |src| && 2 * h + 1 < |ht| && 2 * h' + 1 < |ht|
  {
    PassedBy(src, ht, ht', h, h', c, c', items, items', Hit(src, ht, h, c.ip))
  }

  ghost predicate PassedBy(src: seq<byte>, ht: seq<Tuple>, ht': seq<Tuple>, h: nat, h': nat, c: Cursor, c': Cursor,
                           items: seq<Item>, items': seq<Item>, hit: Option<nat>)
    requires c.ip + 8 <= |src| && 2 * h + 1 < |ht| && 2 * h' + 1 < |ht|
  {
    var t := Tuple(Word32(src, c.ip), c.ip);
    match hit
    case None =>
      items' == items && Missed(c, c') && ht' == ht[2 * h + 1 := t]
    case Some(wpo) =>
      if wpo + OFS_MIN > c.ip then items' == items && c' == c.(ip := c.ip + 1) && ht' == ht
      else if wpo + WIN_LEN <= c.ip then
        items' == items && c' == c.(ip := c.ip + 1) && ht' == ht[(if t.w != ht[2 * h].w then 2 * h + 1 else 2 * h) := t]
      else Wrote(src, ht, ht', h, h', c, c', items, items', wpo)
  }

  /** One pass through the loop body. */
  method Step(src: seq<byte>, dst: array<byte>, ht: array<Tuple>, hmask: nat, c: Cursor, ghost items: seq<Item>)
    returns (c': Cursor, ghost items': seq<Item>)
    requires |src| < 0x8000_0000 && dst.Length >= CompressBound(|src|) && c.ip + 15 < |src|
    requires ht.Length % 2 == 0 && ht.Length >= 2 && hmask == BitXor(ht.Length / 2 * 16 - 1, 15)
    requires c.op <= dst.Length && LoopState(src, ht[..], dst[..c.op], c, items)
    modifies dst, ht
    ensures c'.ip > c.ip && c'.op <= dst.Length && LoopState(src, ht[..], dst[..c'.op], c', items')
    ensures KeptBehind(dst, CompressBound(|src|))
    ensures 2 * ItemAt(src, c.ip, hmask) + 1 < ht.Length && 2 * ItemAt(src, c.ip + 2, hmask) + 1 < ht.Length
    ensures Passed(src, old(ht[..]), ht[..], ItemAt(src, c.ip, hmask), ItemAt(src, c.ip + 2, hmask), c, c', items, items')
  {
    hide LoopState, Wrote, Hit, Candidate, ItemOf, Word32, Word16, TableOk, CompressBound, BitXor, Missed, HashValue;
    LoopTable(src, ht[..], dst[..c.op], c, items);
    ItemBelow(Word32(src, c.ip + 2), Word16(src, c.ip + 6), 12, hmask, ht.Length / 2, 16);
    var iw1, iw2 := Word32(src, c.ip), Word16(src, c.ip + 4);
    var h := HashItem(iw1, iw2, 12, hmask, ht.Length / 2, 16);
    var found, wpo := FindTuple(src, ht, h, c.ip, iw1, iw2);
    items' := items;
    ghost var ht0 := ht[..];
    NewTuple(src, c.ip);
    if !found {
      SetTuple(src, ht, 2 * h + 1, Tuple(iw1, c.ip), c.ip);
      c' := Skip(c, c.ip);
      LoopSet(src, ht0, ht[..], dst[..c.op], c, items);
      LoopLater(src, ht[..], dst[..c.op], c, c', items);
      return;
    }
    var d := c.ip - wpo;
    WindowCheck(d);
    if Wrap64(d - OFS_MIN) > WIN_LEN - OFS_MIN - 1 {
      if d >= WIN_LEN {
        var k := if iw1 != ht[2 * h].w then 2 * h + 1 else 2 * h;
        SetTuple(src, ht, k, Tuple(iw1, c.ip), c.ip);
      }
      c' := c.(ip := c.ip + 1);
      LoopSet(src, ht0, ht[..], dst[..c.op], c, items);
      LoopLater(src, ht[..], dst[..c.op], c, c', items);
      return;
    }
    c', items' := Match(src, dst, ht, hmask, c, h, iw1, wpo, items);
  }

  // ---------------------------------------------------------------- whole runs

  /** A table of `htsize` bytes in which all tuples record the first bytes of the source. */
  ghost predicate NewTable(src: seq<byte>, ht: seq<Tuple>, hmask: nat, htsize: nat) {
    && |src| >= 16 && 8 * |ht| == htsize > 0 && hmask == BitXor(htsize - 1, 15)
    && forall i :: 0 <= i < |ht| ==> ht[i] == Tuple(Word32(src, 0), 0)
  }

  /** The state after `k` passes, from a new table and the start of the source. */
  ghost predicate Passes(src: seq<byte>, htsize: nat, k: nat, ht: seq<Tuple>, hmask: nat, c: Cursor, items: seq<Item>)
    decreases k
  {
    if k == 0 then NewTable(src, ht, hmask, htsize) && c == Cursor(0, 0, 1, 1, 0, 100 * 0x2_0000, 0) && items == []
    else
      exists ht0, c0: Cursor, items0 :: Passes(src, htsize, k - 1, ht0, hmask, c0, items0)
        && c0.ip + 15 < |src| && PassedOn(src, ht0, ht, hmask, c0, c, items0, items)
  }

  /** One pass, with the items of its two positions. */
  ghost predicate PassedOn(src: seq<byte>, ht: seq<Tuple>, ht': seq<Tuple>, hmask: nat, c: Cursor, c': Cursor,
                           items: seq<Item>, items': seq<Item>)
    requires c.ip + 15 < |src|
  {
    var h, h' := ItemAt(src, c.ip, hmask), ItemAt(src, c.ip + 2, hmask);
    2 * h + 1 < |ht| && 2 * h' + 1 < |ht| && Passed(src, ht, ht', h, h', c, c', items, items')
  }

  lemma PassesStart(src: seq<byte>, htsize: nat, ht: seq<Tuple>, hmask: nat, c: Cursor)
    requires NewTable(src, ht, hmask, htsize) && c == Cursor(0, 0, 1, 1, 0, 100 * 0x2_0000, 0)
    ensures Passes(src, htsize, 0, ht, hmask, c, [])
  {
    hide NewTable;
  }

  lemma PassesMore(src: seq<byte>, htsize: nat, k: nat, ht0: seq<Tuple>, ht: seq<Tuple>, hmask: nat, c0: Cursor, c: Cursor,
                   items0: seq<Item>, items: seq<Item>)
    requires Passes(src, htsize, k, ht0, hmask, c0, items0) && c0.ip + 15 < |src| && PassedOn(src, ht0, ht, hmask, c0, c, items0, items)
    ensures Passes(src, htsize, k + 1, ht, hmask, c, items)
  {
    hide PassedOn, NewTable;
  }

  /** `items` are what passes up to the last sixteen bytes give, and the final literals. */
  ghost predicate Parsed(src: seq<byte>, htsize: nat, items: seq<Item>) {
    exists k: nat, ht, hmask: nat, c: Cursor, front ::
      Passes(src, htsize, k, ht, hmask, c, front) && c.ip + 15 >= |src| && c.ipa <= |src| && items == front + [Lit(src[c.ipa..])]
  }

  // ---------------------------------------------------------------- runs of one byte

  predicate OneByte(src: seq<byte>) {
    forall i :: 0 <= i < |src| ==> src[i] == src[0]
  }

  lemma {:induction false} OneByteAgrees(src: seq<byte>, p: nat, q: nat, n: nat)
    requires OneByte(src) && p + n <= |src| && q + n <= |src|
    ensures Agree(src, p, q, n)
    decreases n
  {
    if n > 0 {
      OneByteAgrees(src, p, q, n - 1);
    }
  }

  /** Everywhere the same item is looked at. */
  lemma OneByteItem(src: seq<byte>, p: nat, q: nat, hmask: nat)
    requires OneByte(src) && p + 6 <= |src| && q + 6 <= |src|
    ensures Word32(src, p) == Word32(src, q) && ItemAt(src, p, hmask) == ItemAt(src, q, hmask)
  {
    hide ItemOf, LoadLE;
    assert src[p..p + 4] == src[q..q + 4];
    assert src[p + 4..p + 6] == src[q + 4..q + 6];
  }

  /** How often sixteen can be doubled, up to 1024. */
  function Doublings(n: nat): (k: nat)
    ensures k <= 6
  {
    if n < 32 then 0 else if n < 64 then 1 else if n < 128 then 2 else if n < 256 then 3 else if n < 512 then 4
    else if n < 1024 then 5 else 6
  }

  /** The blocks of a run of one byte: eight literals and as long a match; then matches that double, as long as the first
      position is the only one recorded; then matches of the full length, every other of which records its position; and one
      last match up to the final literals. */
  predicate RunState(n: nat, o: nat, c: Cursor) {
    || (c.ipa == 0 && c.ip <= 8 && o == 0 && c.op == 1)
    || (16 <= c.ip == c.ipa <= 2 * MLEN && o == 0 && c.op <= 16 + 6 * Doublings(c.ip))
    || (2 * MLEN < c.ip == c.ipa && MLEN <= c.ip - o <= 2 * MLEN && MLEN * c.op <= 6 * c.ip + MLEN * 52)
    || (c.ip == c.ipa && c.ip + LIT_FIN == n && MLEN * c.op <= 6 * c.ip + MLEN * 58)
  }

  /** Item `h` is the one that is looked at. */
  predicate RunKept(src: seq<byte>, ht: seq<Tuple>, h: nat, c: Cursor)
    requires 2 * h + 1 < |ht|
  {
    OneByte(src) ==> RunState(|src|, ht[2 * h].o, c)
  }

  /** A longest match in a run of one byte takes all the room there is. */
  lemma RunMatch(src: seq<byte>, ipa: nat, ip: nat, wpo: nat, bmc: nat, rc: nat)
    requires OneByte(src) && Longest(src, ipa, ip, wpo, bmc, rc)
    ensures bmc == 0 && rc == MatchRoom(src, ip, wpo)
  {
    hide Agree;
  }

  /** The state after a block. */
  lemma RunBlock(n: nat, o: nat, o': nat, c: Cursor, c': Cursor, rc: nat)
    requires RunState(n, o, c) && c.ip + 15 < n && o + OFS_MIN <= c.ip < o + WIN_LEN
    requires rc == (var ml := if n - LIT_FIN - c.ip > MLEN then MLEN else n - LIT_FIN - c.ip; if ml > c.ip - o then c.ip - o else ml)
    requires o' == if c.ip - o != rc then c.ip else o
    requires c'.ip == c'.ipa == c.ip + rc && c'.op <= c.op + (if c.ip == c.ipa then 0 else 9) + 6
    ensures RunState(n, o', c')
  {
    if c'.ip + LIT_FIN == n {
    } else if c.ipa == 0 && c.ip <= 8 {
    } else if c.ip <= 2 * MLEN && o == 0 {
    }
  }

  lemma RunNear(n: nat, o: nat, c: Cursor)
    requires RunState(n, o, c) && c.ip + 15 < n
    ensures o <= c.ip < o + WIN_LEN && (o + OFS_MIN > c.ip ==> c.ipa == 0 && c.ip < 8 && RunState(n, o, c.(ip := c.ip + 1)))
    ensures c.ip == c.ipa || c.ip - c.ipa <= 8
  {
  }

  /** One pass in a run of one byte. */
  lemma RunStep(src: seq<byte>, ht: seq<Tuple>, ht': seq<Tuple>, h: nat, c: Cursor, c': Cursor, items: seq<Item>, items': seq<Item>)
    requires c.ip + 15 < |src| && |ht'| == |ht| && TableOk(src, ht, c.ip) && 2 * h + 1 < |ht|
    requires OneByte(src) && Passed(src, ht, ht', h, h, c, c', items, items') && RunState(|src|, ht[2 * h].o, c)
    ensures RunState(|src|, ht'[2 * h].o, c')
  {
    hide Word32, Longest, LitPart, BlockItems, RunState, OneByte, TableOk, Agree;
    var o := ht[2 * h].o;
    RunNear(|src|, o, c);
    RunTupleOk(src, ht, 2 * h, c.ip);
    OneByteAgrees(src, c.ip, o, 6);
    assert Hit(src, ht, h, c.ip) == Some(o);
    if o + OFS_MIN <= c.ip {
      var bmc: nat, rc: nat :| bmc <= rc && Longest(src, c.ipa, c.ip, o, bmc, rc)
        && Block(src, c, c', items, items', c.ip - o, bmc, rc)
        && ht' == Recorded(src, ht, h, h, c.ip, c.ip - o, rc - bmc);
      RunMatch(src, c.ipa, c.ip, o, bmc, rc);
      LitPartLength(c.ip - c.ipa);
      RunBlock(|src|, o, ht'[2 * h].o, c, c', rc);
    }
  }

  lemma RunTupleOk(src: seq<byte>, ht: seq<Tuple>, i: nat, ip: nat)
    requires TableOk(src, ht, ip) && i < |ht| && ip + 6 <= |src| && OneByte(src)
    ensures ht[i].o <= ip && ht[i].w == Word32(src, ip)
  {
    assert TupleOk(src, ht[i], ip);
    OneByteItem(src, ht[i].o, ip, 0);
  }

  /** The size doubles from 2 KiB until it is four times the source, or 1 MiB, or the next would not fit a caller's buffer. */
  ghost predicate TableSize(htsize: nat, srcl: nat, extBufl: Option<int>) {
    && (exists k: nat :: htsize == Doubled(2048, k)) && (htsize == 2048 || htsize / 8 < srcl)
    && match extBufl
       case None => htsize <= 0x10_0000 && (htsize == 0x10_0000 || htsize / 4 >= srcl)
       case Some(l) =>
         var room := if l > 8192 then l else 8192;
         htsize <= room && (htsize / 4 >= srcl || 2 * htsize > room)
  }

  /** The number of bytes of the hash table; `extBufl` is the capacity of a caller's buffer, if there is one. */
  method HashSize(srcl: nat, extBufl: Option<int>) returns (htsize: nat)
    ensures htsize >= 2048 && htsize % 64 == 0 && TableSize(htsize, srcl, extBufl)
  {
    hide Doubled;
    htsize := 2048;
    ghost var k, q := 0, 32;
    DoubledOnce(2048, 0);
    if extBufl.None? {
      while htsize != 0x10_0000 && htsize / 4 < srcl
        invariant k <= 9 && htsize == Doubled(2048, k) && htsize >= 2048 && htsize == 64 * q && htsize <= 0x10_0000
        invariant htsize == 2048 || htsize / 8 < srcl
        decreases 9 - k
      {
        DoubledBelow(k);
        DoubledOnce(2048, k);
        htsize := htsize * 2;
        k, q := k + 1, 2 * q;
      }
    } else {
      htsize := HashSizeIn(srcl, if extBufl.value > 8192 then extBufl.value else 8192);
    }
  }

  /** The size for a table in `htsizem` bytes. */
  method HashSizeIn(srcl: nat, htsizem: nat) returns (htsize: nat)
    requires htsizem >= 8192
    ensures htsize >= 2048 && htsize % 64 == 0 && (exists k: nat :: htsize == Doubled(2048, k)) && (htsize == 2048 || htsize / 8 < srcl)
    ensures htsize <= htsizem && (htsize / 4 >= srcl || 2 * htsize > htsizem)
  {
    hide Doubled;
    htsize := 2048;
    ghost var k, q := 0, 32;
    DoubledOnce(2048, 0);
    while htsize / 4 < srcl
      invariant htsize == Doubled(2048, k) && htsize >= 2048 && htsize == 64 * q && htsize <= htsizem
      invariant htsize == 2048 || htsize / 8 < srcl
      decreases 4 * srcl - htsize
    {
      var htsize2 := htsize * 2;
      if htsize2 > htsizem {
        break;
      }
      DoubledOnce(2048, k);
      htsize := htsize2;
      k, q := k + 1, 2 * q;
    }
  }

  lemma DoubledBelow(k: nat)
    requires k <= 9 && Doubled(2048, k) != 0x10_0000
    ensures k < 9 && Doubled(2048, k) <= 0x8_0000
  {
    assert Doubled(2048, 4) == 0x8000;
    DoubledUp(2048, k, 8);
  }

  lemma {:induction false} DoubledUp(n: nat, k: nat, m: nat)
    ensures k <= m ==> Doubled(n, k) <= Doubled(n, m)
    decreases m
  {
    if k < m {
      DoubledUp(n, k, m - 1);
    }
  }

  /** Sources of fewer than 16 bytes are one literal block, padded with zeros to six bytes. */
  method CompressShort(src: seq<byte>, dst: array<byte>, mref: nat) returns (n: nat)
    requires 1 <= |src| < 16 && dst.Length >= 16 + |src| && 1 <= mref < 16
    modifies dst
    ensures n == 2 + (if |src| < LIT_FIN then LIT_FIN else |src|)
    ensures Complete(src, dst[..n], [Lit(src)], mref)
    ensures KeptBehind(dst, 16 + |src|)
  {
    PutByte(dst, 0, 2 * 16 + mref);
    PutByte(dst, 1, |src|);
    AppendIn(dst, 2, src, 0, |src|);
    n := 2 + |src|;
    assert src[0..|src|] == src;
    assert dst[..n] == [2 * 16 + mref, |src|] + src;
    if |src| < LIT_FIN {
      ghost var p := dst[..n];
      forall i | n <= i < 2 + LIT_FIN {
        dst[i] := 0;
      }
      n := 2 + LIT_FIN;
      assert dst[..n] == p + seq(LIT_FIN - |src|, _ => 0);
    }
    ShortStream(src, mref);
    assert dst[..n] == Stream([Lit(src)], mref);
  }

  lemma ShortStream(src: seq<byte>, mref: nat)
    requires 1 <= |src| < 16 && 1 <= mref < 16
    ensures Printable([Lit(src)], mref) && Complete(src, Stream([Lit(src)], mref), [Lit(src)], mref)
    ensures Stream([Lit(src)], mref) == [2 * 16 + mref, |src|] + src + Padding([Lit(src)])
  {
    hide ValidItems, Expand, Print, Padding, Printable, WellFormed, FarRefs, LitHeader;
    PrintLit(src, mref, 0);
    ShortExpand(src, mref);
    ShortShape(src, mref);
    assert [2 * 16 + mref] + ([|src|] + src) == [2 * 16 + mref, |src|] + src;
  }

  lemma ShortShape(src: seq<byte>, mref: nat)
    requires 1 <= |src| < 16
    ensures Printable([Lit(src)], mref) && WellFormed([Lit(src)]) && FarRefs([Lit(src)]) && LitHeader(|src|, 0) == [|src|]
  {
    assert [Lit(src)][1..] == [];
  }

  lemma ShortExpand(src: seq<byte>, mref: nat)
    requires 1 <= |src| < 16
    ensures ValidItems(0, [Lit(src)], mref) && Expand([], [Lit(src)], mref) == src
  {
    assert [Lit(src)][1..] == [];
    assert [] + src == src;
  }

  /** All tuples of a new table say that the source begins with its first four bytes. */
  method InitTable(src: seq<byte>, htsize: nat) returns (ht: array<Tuple>)
    requires 4 <= |src| && htsize >= 2048 && htsize % 64 == 0
    ensures fresh(ht) && ht.Length == htsize / 8 && TableOk(src, ht[..], 0)
    ensures forall i :: 0 <= i < |ht[..]| ==> ht[..][i] == Tuple(Word32(src, 0), 0)
  {
    hide Word32;
    ht := HtInit(htsize / 8, Tuple(Word32(src, 0), 0));
    forall i | 0 <= i < |ht[..]| ensures TupleOk(src, ht[..][i], 0) {
    }
  }

  lemma TableSizes(htsize: nat)
    requires htsize >= 2048 && htsize % 64 == 0
    ensures htsize / 8 % 2 == 0 && htsize / 8 >= 2 && htsize / 8 / 2 * 16 == htsize
  {
    var k := htsize / 64;
    assert htsize == 64 * k;
    assert htsize / 8 == 8 * k;
    assert 8 * k / 2 == 4 * k;
  }

  /** The hash table and the main loop. */
  method Scan(src: seq<byte>, dst: array<byte>, htsize: nat)
    returns (c: Cursor, ghost items: seq<Item>, ghost k: nat, ghost ht1: seq<Tuple>, ghost mask: nat)
    requires 16 <= |src| < 0x8000_0000 && dst.Length >= CompressBound(|src|)
    requires htsize >= 2048 && htsize % 64 == 0
    requires 1 <= dst.Length && Emitted(src, dst[..1], 0, [], MREF, 1, 0)
    modifies dst
    ensures c.op <= dst.Length && c.ipa + LIT_FIN <= |src|
    ensures Emitted(src, dst[..c.op], c.ipa, items, MREF, c.cbp, c.csh)
    ensures KeptBehind(dst, CompressBound(|src|))
    ensures Passes(src, htsize, k, ht1, mask, c, items) && c.ip + 15 >= |src|
    ensures OneByte(src) ==> c.op + |src| - c.ipa <= |src| / 88 + 73
  {
    hide NewTable, Passes, Emitted, BitXor, TableOk, LoopState, CompressBound, Passed, RunState, ItemOf, Word32, Word16, OneByte, TupleOk;
    ghost var bound: nat := CompressBound(|src|);
    TableSizes(htsize);
    var ht := InitTable(src, htsize);
    var hmask := BitXor(htsize - 1, 15);
    c, items, k, mask := Cursor(0, 0, 1, 1, 0, 100 * 0x2_0000, 0), [], 0, hmask;
    NewTableIs(src, ht[..], hmask, htsize);
    PassesStart(src, htsize, ht[..], hmask, c);
    LoopStart(src, ht[..], dst[..1], c);
    ItemBelow(Word32(src, 0), Word16(src, 4), 12, hmask, ht.Length / 2, 16);
    ghost var h := ItemAt(src, 0, hmask);
    RunStart(src, ht[..], h, c);
    while c.ip + 15 < |src|
      invariant c.op <= dst.Length && LoopState(src, ht[..], dst[..c.op], c, items)
      invariant KeptBehind(dst, bound) && RunKept(src, ht[..], h, c) && Passes(src, htsize, k, ht[..], hmask, c, items)
      decreases |src| - c.ip
    {
      ghost var ht0, c0, items0 := ht[..], c, items;
      LoopTable(src, ht0, dst[..c.op], c, items);
      c, items := Step(src, dst, ht, hmask, c, items);
      PassesMore(src, htsize, k, ht0, ht[..], hmask, c0, c, items0, items);
      k := k + 1;
      if OneByte(src) {
        OneByteItem(src, c0.ip, 0, hmask);
        OneByteItem(src, c0.ip + 2, 0, hmask);
        RunStep(src, ht0, ht[..], h, c0, c, items0, items);
      }
    }
    ht1 := ht[..];
    LoopEnd(src, ht[..], dst[..c.op], c, items);
    if OneByte(src) {
      RunEnd(|src|, ht[..][2 * h].o, c);
    }
  }

  lemma NewTableIs(src: seq<byte>, ht: seq<Tuple>, hmask: nat, htsize: nat)
    requires |src| >= 16 && htsize % 64 == 0 && htsize > 0 && |ht| == htsize / 8 && hmask == BitXor(htsize - 1, 15)
    requires forall i :: 0 <= i < |ht| ==> ht[i] == Tuple(Word32(src, 0), 0)
    ensures NewTable(src, ht, hmask, htsize)
  {
    hide Word32, BitXor;
  }

  lemma RunStart(src: seq<byte>, ht: seq<Tuple>, h: nat, c: Cursor)
    requires 16 <= |src| && TableOk(src, ht, 0) && 2 * h + 1 < |ht| && c.ip == c.ipa == 0 && c.op == 1
    ensures RunKept(src, ht, h, c)
  {
    hide Word32, OneByte;
    assert TupleOk(src, ht[2 * h], 0);
  }

  lemma RunEnd(n: nat, o: nat, c: Cursor)
    requires RunState(n, o, c) && n <= c.ip + 15 && c.ipa <= n
    ensures c.op + n - c.ipa <= n / 88 + 73
  {
  }

  lemma LoopTable(src: seq<byte>, ht: seq<Tuple>, out: seq<byte>, c: Cursor, items: seq<Item>)
    requires LoopState(src, ht, out, c, items)
    ensures TableOk(src, ht, c.ip) && c.mavg >= 0 && c.rndb <= 1
  {
    hide Emitted, TableOk;
  }

  /** A new table that is in order keeps the loop's state. */
  lemma LoopSet(src: seq<byte>, ht: seq<Tuple>, ht': seq<Tuple>, out: seq<byte>, c: Cursor, items: seq<Item>)
    requires LoopState(src, ht, out, c, items) && TableOk(src, ht', c.ip)
    ensures LoopState(src, ht', out, c, items)
  {
    hide Emitted, TableOk;
  }

  lemma LoopStart(src: seq<byte>, ht: seq<Tuple>, out: seq<byte>, c: Cursor)
    requires |src| >= 16 && |out| == 1 && TableOk(src, ht, 0) && Emitted(src, out, 0, [], MREF, 1, 0)
    requires c == Cursor(0, 0, 1, 1, 0, c.mavg, c.rndb) && c.mavg >= 0 && c.rndb <= 1
    ensures LoopState(src, ht, out, c, [])
  {
    hide Emitted, TableOk;
  }

  lemma LoopEnd(src: seq<byte>, ht: seq<Tuple>, out: seq<byte>, c: Cursor, items: seq<Item>)
    requires LoopState(src, ht, out, c, items)
    ensures c.ipa + LIT_FIN <= |src| && Emitted(src, out, c.ipa, items, MREF, c.cbp, c.csh)
  {
    hide Emitted, TableOk;
  }

  /** The main loop and the final literals. */
  method CompressLong(src: seq<byte>, dst: array<byte>, htsize: nat) returns (n: nat, ghost items: seq<Item>)
    requires 16 <= |src| < 0x8000_0000 && dst.Length >= CompressBound(|src|)
    requires htsize >= 2048 && htsize % 64 == 0
    modifies dst
    ensures 0 < n <= CompressBound(|src|) && Complete(src, dst[..n], items, MREF) && Parsed(src, htsize, items)
    ensures KeptBehind(dst, CompressBound(|src|))
    ensures OneByte(src) ==> n <= |src| / 88 + 80
  {
    hide Complete, Emitted, OneByte, Passes;
    BoundAtLeast(|src|);
    PutByte(dst, 0, 2 * 16 + MREF);
    assert dst[..1] == [2 * 16 + MREF];
    EmittedNothing(src, MREF);
    var c;
    ghost var k, ht, hmask;
    c, items, k, ht, hmask := Scan(src, dst, htsize);
    EmittedRoom(src, dst[..c.op], c.ipa, items, MREF, c.cbp, c.csh);
    ghost var p := dst[..c.op];
    n := WriteFin(dst, c.op, src, c.ipa);
    Finish(src, p, dst[..n], c.ipa, c.cbp, c.csh, MREF, items);
    items := items + [Lit(src[c.ipa..])];
  }

  /** `items` are what the passes give with a table of the right size. */
  ghost predicate ParsedIn(src: seq<byte>, extBufl: Option<int>, items: seq<Item>) {
    exists htsize: nat :: TableSize(htsize, |src|, extBufl) && Parsed(src, htsize, items)
  }

  /** `lzav_compress`: zero is returned exactly when nothing can be compressed into `dst`; otherwise the result is a
      stream whose blocks decode to the source, and no byte behind the promised bound has been touched. */
  method Compress(src: seq<byte>, dst: array<byte>, extBufl: Option<int>) returns (n: nat, ghost items: seq<Item>)
    requires |src| < 0x8000_0000
    modifies dst
    ensures n == 0 <==> src == [] || dst.Length < CompressBound(|src|)
    ensures src != [] && dst.Length >= |src| + |src| / 150 + 20 ==> 0 < n <= |src| + |src| / 150 + 20
    ensures n == 0 ==> dst[..] == old(dst[..])
    ensures n > 0 ==> n <= CompressBound(|src|) && Complete(src, dst[..n], items, MREF)
    ensures n > 0 ==> KeptBehind(dst, CompressBound(|src|))
    ensures OneByte(src) ==> n <= |src| / 88 + 80
    ensures n > 0 && |src| >= 16 ==> ParsedIn(src, extBufl, items)
  {
    hide OneByte, Parsed, TableSize, Complete, CompressBound;
    BoundAtMost(|src|);
    items := [];
    if |src| == 0 || dst.Length < CompressBound(|src|) {
      return 0, items;
    }
    BoundAtLeast(|src|);
    if |src| < 16 {
      n := CompressShort(src, dst, MREF);
      items := [Lit(src)];
      return;
    }
    var htsize := HashSize(|src|, extBufl);
    n, items := CompressLong(src, dst, htsize);
  }
}
