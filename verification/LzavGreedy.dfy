/** What the compressors' passes come to: the blocks lie side by side, and no reference could have been longer. */
module LzavGreedy {
  import opened Bits
  import opened LzavMatch
  import opened LzavFormat
  import opened LzavHash
  import opened LzavWrite
  import LzavCompress
  import LzavCompressHi

  /** Why a match of `rc` bytes at distance `d` ends at `e`: the format allows no more, more would overlap, the final literals
      begin, or the bytes differ. */
  predicate Stops(src: seq<byte>, e: nat, d: nat, rc: nat, mlen: nat) {
    rc == mlen || rc == d || e + LIT_FIN == |src| || (d <= e < |src| && src[e] != src[e - d])
  }

  /** The items stand for the source up to `e`: literals for themselves, and each reference for as much as it can. */
  ghost predicate Greedy(src: seq<byte>, items: seq<Item>, e: nat, mlen: nat)
    requires e <= |src|
    decreases |items|
  {
    if items == [] then e == 0
    else
      var front := items[..|items| - 1];
      match items[|items| - 1]
      case Lit(l) => |l| <= e && src[e - |l|..e] == l && Greedy(src, front, e - |l|, mlen)
      case Ref(d, rc) => rc <= e && Stops(src, e, d, rc, mlen) && Greedy(src, front, e - rc, mlen)
  }

  lemma GreedyBlock(src: seq<byte>, items: seq<Item>, ipa: nat, p: nat, d: nat, rc: nat, mlen: nat)
    requires ipa <= p && p + rc <= |src| && Greedy(src, items, ipa, mlen) && Stops(src, p + rc, d, rc, mlen)
    ensures Greedy(src, items + BlockItems(src[ipa..p], d, rc), p + rc, mlen)
  {
    var l := src[ipa..p];
    if l == [] {
      assert (items + [Ref(d, rc)])[..|items|] == items;
    } else {
      assert (items + [Lit(l)])[..|items|] == items;
      assert items + [Lit(l), Ref(d, rc)] == items + [Lit(l)] + [Ref(d, rc)];
      assert (items + [Lit(l)] + [Ref(d, rc)])[..|items| + 1] == items + [Lit(l)];
    }
  }

  lemma GreedyEnd(src: seq<byte>, items: seq<Item>, ipa: nat, mlen: nat)
    requires ipa <= |src| && Greedy(src, items, ipa, mlen)
    ensures Greedy(src, items + [Lit(src[ipa..])], |src|, mlen)
  {
    assert (items + [Lit(src[ipa..])])[..|items|] == items;
  }

  // ---------------------------------------------------------------- `lzav_compress`

  lemma LongestStops(src: seq<byte>, ipa: nat, ip: nat, wpo: nat, bmc: nat, rc: nat)
    requires bmc <= rc && LzavCompress.Longest(src, ipa, ip, wpo, bmc, rc)
    ensures bmc <= ip && ip - bmc + rc <= |src| && Stops(src, ip - bmc + rc, ip - wpo, rc, LzavCompress.MLEN)
  {
    hide Agree;
  }

  /** What a pass adds is a block for a longest match. */
  lemma PassBlock(src: seq<byte>, ht: seq<Tuple>, ht': seq<Tuple>, hmask: nat, c: LzavCompress.Cursor, c': LzavCompress.Cursor,
                  items: seq<Item>, items': seq<Item>) returns (wpo: nat, bmc: nat, rc: nat)
    requires c.ip + 15 < |src| && LzavCompress.PassedOn(src, ht, ht', hmask, c, c', items, items')
    requires !(c'.ipa == c.ipa && items' == items)
    ensures bmc <= rc && wpo <= c.ip && LzavCompress.Longest(src, c.ipa, c.ip, wpo, bmc, rc)
    ensures LzavCompress.Block(src, c, c', items, items', c.ip - wpo, bmc, rc)
  {
    hide LzavCompress.Longest, LzavCompress.Candidate, LzavCompress.ItemAt, LzavCompress.Recorded, LzavCompress.Block, Word32;
    var h := LzavCompress.ItemAt(src, c.ip, hmask);
    wpo := LzavCompress.Hit(src, ht, h, c.ip).value;
    bmc, rc :| bmc <= rc && LzavCompress.Longest(src, c.ipa, c.ip, wpo, bmc, rc)
      && LzavCompress.Block(src, c, c', items, items', c.ip - wpo, bmc, rc);
  }

  lemma PassStops(src: seq<byte>, ht: seq<Tuple>, ht': seq<Tuple>, hmask: nat, c: LzavCompress.Cursor, c': LzavCompress.Cursor,
                  items: seq<Item>, items': seq<Item>)
    requires c.ip + 15 < |src| && c.ipa <= |src| && LzavCompress.PassedOn(src, ht, ht', hmask, c, c', items, items')
    requires Greedy(src, items, c.ipa, LzavCompress.MLEN)
    ensures c'.ipa <= |src| && Greedy(src, items', c'.ipa, LzavCompress.MLEN)
  {
    hide Greedy, Stops, LzavCompress.Longest, LzavCompress.PassedOn;
    if !(c'.ipa == c.ipa && items' == items) {
      var wpo, bmc, rc := PassBlock(src, ht, ht', hmask, c, c', items, items');
      LongestStops(src, c.ipa, c.ip, wpo, bmc, rc);
      GreedyBlock(src, items, c.ipa, c.ip - bmc, c.ip - wpo, rc, LzavCompress.MLEN);
    }
  }

  lemma {:induction false} PassesStop(src: seq<byte>, htsize: nat, k: nat, ht: seq<Tuple>, hmask: nat, c: LzavCompress.Cursor, items: seq<Item>)
    requires LzavCompress.Passes(src, htsize, k, ht, hmask, c, items)
    ensures c.ipa <= |src| && Greedy(src, items, c.ipa, LzavCompress.MLEN)
    decreases k
  {
    hide LzavCompress.PassedOn, LzavCompress.NewTable;
    if k > 0 {
      var ht0, c0: LzavCompress.Cursor, items0 :| LzavCompress.Passes(src, htsize, k - 1, ht0, hmask, c0, items0)
        && c0.ip + 15 < |src| && LzavCompress.PassedOn(src, ht0, ht, hmask, c0, c, items0, items);
      PassesStop(src, htsize, k - 1, ht0, hmask, c0, items0);
      PassStops(src, ht0, ht, hmask, c0, c, items0, items);
    }
  }

  /** The blocks of `lzav_compress` are a greedy parse of the source. */
  lemma GreedyParse(src: seq<byte>, extBufl: Option<int>, items: seq<Item>)
    requires LzavCompress.ParsedIn(src, extBufl, items)
    ensures Greedy(src, items, |src|, LzavCompress.MLEN)
  {
    hide Greedy, LzavCompress.TableSize, LzavCompress.Passes;
    var htsize: nat :| LzavCompress.TableSize(htsize, |src|, extBufl) && LzavCompress.Parsed(src, htsize, items);
    var k: nat, ht, hmask: nat, c: LzavCompress.Cursor, front :|
      LzavCompress.Passes(src, htsize, k, ht, hmask, c, front) && c.ip + 15 >= |src| && c.ipa <= |src| && items == front + [Lit(src[c.ipa..])];
    PassesStop(src, htsize, k, ht, hmask, c, front);
    GreedyEnd(src, front, c.ipa, LzavCompress.MLEN);
  }

  // ---------------------------------------------------------------- `lzav_compress_hi`

  /** A search ends where the match with its tuple does. */
  lemma SearchStops(src: seq<byte>, ht: seq<Tuple>, h: nat, ip: nat, ipa: nat, f: LzavCompressHi.Found)
    requires 8 * h + 8 <= |ht| && ip + 15 < |src| && f.ok && LzavCompressHi.Searched(src, ht, h, ip, ipa, f)
    ensures ipa + f.bmc <= ip && f.bmc <= f.rc && ip - f.bmc + f.rc <= |src|
    ensures Stops(src, ip - f.bmc + f.rc, f.d, f.rc, LzavCompressHi.MLEN)
  {
    hide Agree;
    var n, mle := f.rc - f.bmc, LzavCompressHi.MatchLimit(src, ip);
    var ring := ht[8 * h..8 * h + 7];
    var k: nat :| k < 7 && LzavCompressHi.FirstBest(src, ring, ip, n, f.d, ht[8 * h + 7].o / 2, k);
    assert ring[k] == ht[8 * h + k];
    assert LzavCompressHi.NoLonger(src, ht[8 * h + k], ip, mle, n);
    if n < f.d && n < mle {
      assert !Agree(src, ip, ip - f.d, n + 1);
      OneMoreAgrees(src, ip, ip - f.d, n);
    }
  }

  lemma OneMoreAgrees(src: seq<byte>, p: nat, q: nat, n: nat)
    requires p + n < |src| && q + n < |src| && Agree(src, p, q, n) && !Agree(src, p, q, n + 1)
    ensures src[p + n] != src[q + n]
  {
  }

  ghost predicate SavedStops(src: seq<byte>, c: LzavCompressHi.Cursor) {
    c.prc != 0 ==> c.ipa <= c.pip && c.pip + c.prc <= |src| && Stops(src, c.pip + c.prc, c.pd, c.prc, LzavCompressHi.MLEN)
  }

  lemma PassStopsHi(src: seq<byte>, ht: seq<Tuple>, ht': seq<Tuple>, hmask: nat, c: LzavCompressHi.Cursor, c': LzavCompressHi.Cursor,
                    items: seq<Item>, items': seq<Item>)
    requires c.ip + 15 < |src| && c.ipa <= |src| && LzavCompressHi.Passed(src, ht, ht', hmask, c, c', items, items')
    requires Greedy(src, items, c.ipa, LzavCompressHi.MLEN) && SavedStops(src, c)
    ensures c'.ipa <= |src| && Greedy(src, items', c'.ipa, LzavCompressHi.MLEN) && SavedStops(src, c')
  {
    hide Greedy, Stops, LzavCompressHi.Searched, LzavCompressHi.ItemAt, LzavCompressHi.Noted, LzavCompressHi.Skipped,
         LzavCompressHi.SavedIsDenser, Word32, BlockItems;
    var h := LzavCompressHi.ItemAt(src, c.ip, hmask);
    var f: LzavCompressHi.Found :| LzavCompressHi.PassedWith(src, ht, ht', hmask, h, c, c', items, items', f);
    if f.ok {
      SearchStops(src, ht, h, c.ip, c.ipa, f);
      if c.prc != 0 {
        GreedyBlock(src, items, c.ipa, c.pip, c.pd, c.prc, LzavCompressHi.MLEN);
        GreedyBlock(src, items, c.ipa, c.ip - f.bmc, f.d, f.rc, LzavCompressHi.MLEN);
      }
    }
  }

  lemma {:induction false} PassesStopHi(src: seq<byte>, k: nat, ht: seq<Tuple>, hmask: nat, c: LzavCompressHi.Cursor, items: seq<Item>)
    requires LzavCompressHi.Passes(src, k, ht, hmask, c, items)
    ensures c.ipa <= |src| && Greedy(src, items, c.ipa, LzavCompressHi.MLEN) && SavedStops(src, c)
    decreases k
  {
    hide LzavCompressHi.Passed, LzavCompressHi.NewTable, Stops;
    if k > 0 {
      var ht0, c0: LzavCompressHi.Cursor, items0 :| LzavCompressHi.Passes(src, k - 1, ht0, hmask, c0, items0)
        && c0.ip + 15 < |src| && LzavCompressHi.Passed(src, ht0, ht, hmask, c0, c, items0, items);
      PassesStopHi(src, k - 1, ht0, hmask, c0, items0);
      PassStopsHi(src, ht0, ht, hmask, c0, c, items0, items);
    }
  }

  /** So are those of `lzav_compress_hi`, whichever matches its comparisons have chosen. */
  lemma GreedyParseHi(src: seq<byte>, items: seq<Item>)
    requires LzavCompressHi.Parsed(src, items)
    ensures Greedy(src, items, |src|, LzavCompressHi.MLEN)
  {
    hide Greedy, LzavCompressHi.Passes, Stops, BlockItems;
    var k: nat, ht, hmask: nat, c: LzavCompressHi.Cursor, items0, ipa: nat, front :|
      LzavCompressHi.PassesEnd(src, k, ht, hmask, c, items0, ipa, front) && ipa <= |src| && items == front + [Lit(src[ipa..])];
    PassesStopHi(src, k, ht, hmask, c, items0);
    if c.prc != 0 {
      GreedyBlock(src, items0, c.ipa, c.pip, c.pd, c.prc, LzavCompressHi.MLEN);
    }
    GreedyEnd(src, front, ipa, LzavCompressHi.MLEN);
  }
}
