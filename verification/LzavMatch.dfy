/** Word-wise match finding (`lzav_match_len`, `lzav_match_len_r`), 64-bit little-endian path. */
module LzavMatch {
  import opened Bits

  /** The value a little-endian machine reads from the bytes `s`. */
  function LoadLE(s: seq<byte>): nat {
    if s == [] then 0 else s[0] + 256 * LoadLE(s[1..])
  }

  /** The `n` bytes from `p` on equal the `n` bytes from `q` on. */
  ghost predicate Agree(a: seq<byte>, p: nat, q: nat, n: nat)
    requires p + n <= |a| && q + n <= |a|
  {
    n == 0 || (Agree(a, p, q, n - 1) && a[p + n - 1] == a[q + n - 1])
  }

  /** `n` is the length of the common prefix of `a[p..p+ml]` and `a[q..q+ml]`. */
  ghost predicate IsMatchLen(a: seq<byte>, p: nat, q: nat, ml: nat, n: nat)
    requires p + ml <= |a| && q + ml <= |a|
  {
    n <= ml && Agree(a, p, q, n) && (n < ml ==> a[p + n] != a[q + n])
  }

  /** `n` is the length of the common suffix of `a[p-ml..p]` and `a[q-ml..q]`. */
  ghost predicate IsMatchLenR(a: seq<byte>, p: nat, q: nat, ml: nat, n: nat)
    requires ml <= p <= |a| && ml <= q <= |a|
  {
    n <= ml && Agree(a, p - n, q - n, n) && (n < ml ==> a[p - n - 1] != a[q - n - 1])
  }

  /** `Agree` is equality of the two stretches. */
  lemma {:induction false} AgreeIsSliceEquality(a: seq<byte>, p: nat, q: nat, n: nat)
    requires p + n <= |a| && q + n <= |a|
    ensures Agree(a, p, q, n) <==> a[p..p + n] == a[q..q + n]
  {
    if n > 0 {
      AgreeIsSliceEquality(a, p, q, n - 1);
      assert a[p..p + n] == a[p..p + n - 1] + [a[p + n - 1]];
      assert a[q..q + n] == a[q..q + n - 1] + [a[q + n - 1]];
      SnocEqual(a[p..p + n - 1], a[p + n - 1], a[q..q + n - 1], a[q + n - 1]);
    }
  }

  lemma SnocEqual(u: seq<byte>, x: byte, v: seq<byte>, y: byte)
    requires |u| == |v|
    ensures u + [x] == v + [y] <==> u == v && x == y
  {
    var s, t := u + [x], v + [y];
    assert s[..|u|] == u && t[..|v|] == v && s[|u|] == x && t[|v|] == y;
  }

  lemma {:induction false} AgreeConcat(a: seq<byte>, p: nat, q: nat, m: nat, n: nat)
    requires p + m + n <= |a| && q + m + n <= |a|
    ensures Agree(a, p, q, m + n) <==> Agree(a, p, q, m) && Agree(a, p + m, q + m, n)
  {
    if n > 0 {
      AgreeConcat(a, p, q, m, n - 1);
    }
  }

  /** The first differing position of two equally long strings, or their length. */
  function FirstDiff(a: seq<byte>, b: seq<byte>): (n: nat)
    requires |a| == |b|
    ensures n <= |a| && a[..n] == b[..n] && (n < |a| ==> a[n] != b[n])
  {
    if a == [] then 0
    else if a[0] != b[0] then 0
    else
      var n := FirstDiff(a[1..], b[1..]);
      assert a[..n + 1] == [a[0]] + a[1..][..n] && b[..n + 1] == [b[0]] + b[1..][..n];
      n + 1
  }

  lemma XorHalf(a: nat, b: nat)
    ensures BitXor(a, b) / 2 == BitXor(a / 2, b / 2)
    ensures BitXor(a, b) % 2 == 0 <==> a % 2 == b % 2
  {
  }

  lemma XorByte(a: nat, b: nat)
    ensures BitXor(a, b) / 256 == BitXor(a / 256, b / 256)
    ensures BitXor(a, b) % 256 == 0 <==> a % 256 == b % 256
  {
    var x := BitXor(a, b);
    var x4, a4, b4 := BitXor(a / 16, b / 16), a / 16, b / 16;
    XorNibble(a, b);
    XorNibble(a4, b4);
    assert a4 / 16 == a / 256 && b4 / 16 == b / 256 && x4 / 16 == x / 256;
    assert x % 256 == (x4 % 16) * 16 + x % 16;
    assert a % 256 == (a4 % 16) * 16 + a % 16 && b % 256 == (b4 % 16) * 16 + b % 16;
  }

  lemma XorNibble(a: nat, b: nat)
    ensures BitXor(a, b) / 16 == BitXor(a / 16, b / 16)
    ensures BitXor(a, b) % 16 == 0 <==> a % 16 == b % 16
  {
    hide BitXor;
    XorQuarter(a, b);
    XorQuarter(a / 4, b / 4);
    NibbleParts(a);
    NibbleParts(b);
    NibbleParts(BitXor(a, b));
  }

  lemma NibbleParts(a: nat)
    ensures a / 4 / 4 == a / 16 && a % 16 == a % 4 + 4 * (a / 4 % 4)
  {
  }

  lemma XorQuarter(a: nat, b: nat)
    ensures BitXor(a, b) / 4 == BitXor(a / 4, b / 4)
    ensures BitXor(a, b) % 4 == 0 <==> a % 4 == b % 4
  {
    XorHalf(a, b);
    XorHalf(a / 2, b / 2);
    assert a / 2 / 2 == a / 4 && b / 2 / 2 == b / 4;
  }

  lemma LoadStep(s: seq<byte>)
    requires s != []
    ensures LoadLE(s) % 256 == s[0] && LoadLE(s) / 256 == LoadLE(s[1..])
  {
  }

  /** The whole of `__builtin_ctz(v1 ^ v2) >> 3`: it is the first differing byte of the two words. */
  lemma {:induction false} XorCtzIsFirstDiff(a: seq<byte>, b: seq<byte>)
    requires |a| == |b|
    ensures BitXor(LoadLE(a), LoadLE(b)) == 0 <==> a == b
    ensures a != b ==> TrailingZeros(BitXor(LoadLE(a), LoadLE(b))) / 8 == FirstDiff(a, b) < |a|
  {
    if a != [] {
      var x := BitXor(LoadLE(a), LoadLE(b));
      XorByte(LoadLE(a), LoadLE(b));
      LoadStep(a);
      LoadStep(b);
      XorCtzIsFirstDiff(a[1..], b[1..]);
      assert a == b <==> a[0] == b[0] && a[1..] == b[1..] by {
        assert a == [a[0]] + a[1..] && b == [b[0]] + b[1..];
      }
      if x != 0 {
        TrailingZerosByte(x);
      }
    }
  }

  lemma {:induction false} TrailingZerosByte(x: nat)
    requires x != 0
    ensures x % 256 != 0 ==> TrailingZeros(x) < 8
    ensures x % 256 == 0 ==> TrailingZeros(x) == 8 + TrailingZeros(x / 256)
  {
    TrailingZerosNibble(x);
    if x % 16 == 0 {
      TrailingZerosNibble(x / 16);
      assert x / 16 / 16 == x / 256;
    }
  }

  lemma {:induction false} TrailingZerosNibble(x: nat)
    requires x != 0
    ensures x % 16 != 0 ==> TrailingZeros(x) < 4
    ensures x % 16 == 0 ==> TrailingZeros(x) == 4 + TrailingZeros(x / 16)
  {
    if x % 2 == 0 {
      if x / 2 % 2 == 0 {
        assert x / 2 / 2 == x / 4;
        if x / 4 % 2 == 0 {
          assert x / 4 / 2 == x / 8;
          assert x / 8 / 2 == x / 16;
          assert TrailingZeros(x / 4) == 1 + TrailingZeros(x / 8);
        }
      }
    }
  }

  /** One word comparison: either the `w` bytes at `p` and `q` agree, or the xor shows where they stop to. */
  lemma WordCompare(a: seq<byte>, p: nat, q: nat, w: nat)
    requires p + w <= |a| && q + w <= |a|
    ensures
      var vd := BitXor(LoadLE(a[p..p + w]), LoadLE(a[q..q + w]));
      if vd == 0 then Agree(a, p, q, w)
      else var k := TrailingZeros(vd) / 8; k < w && Agree(a, p, q, k) && a[p + k] != a[q + k]
  {
    var u, v := a[p..p + w], a[q..q + w];
    XorCtzIsFirstDiff(u, v);
    if u == v {
      AgreeIsSliceEquality(a, p, q, w);
    } else {
      var k := FirstDiff(u, v);
      assert u[..k] == a[p..p + k] && v[..k] == a[q..q + k];
      AgreeIsSliceEquality(a, p, q, k);
    }
  }

  /** Loads two `w`-byte words behind an already matching stretch of `o` bytes and returns their xor. */
  method XorWords(a: seq<byte>, p: nat, q: nat, o: nat, w: nat, ml: nat) returns (vd: nat)
    requires p + ml <= |a| && q + ml <= |a| && o + w <= ml
    requires Agree(a, p, q, o)
    ensures vd == 0 ==> Agree(a, p, q, o + w)
    ensures vd != 0 ==> IsMatchLen(a, p, q, ml, o + TrailingZeros(vd) / 8)
  {
    hide BitXor, LoadLE, TrailingZeros;
    vd := BitXor(LoadLE(a[p + o..p + o + w]), LoadLE(a[q + o..q + o + w]));
    WordCompare(a, p + o, q + o, w);
    if vd == 0 {
      AgreeConcat(a, p, q, o, w);
    } else {
      MatchStop(a, p, q, o, w, ml, TrailingZeros(vd) / 8);
    }
  }

  lemma MatchStop(a: seq<byte>, p: nat, q: nat, o: nat, w: nat, ml: nat, k: nat)
    requires p + ml <= |a| && q + ml <= |a| && o + w <= ml
    requires Agree(a, p, q, o)
    requires k < w && Agree(a, p + o, q + o, k) && a[p + o + k] != a[q + o + k]
    ensures IsMatchLen(a, p, q, ml, o + k)
  {
    AgreeConcat(a, p, q, o, k);
  }

  /** `lzav_match_len`: leading bytes of `a[p..]` and `a[q..]` that match, at most `ml`. */
  method MatchLen(a: seq<byte>, p: nat, q: nat, ml: nat) returns (n: nat)
    requires p + ml <= |a| && q + ml <= |a|
    ensures IsMatchLen(a, p, q, ml, n)
  {
    var o := 0;
    var o2 := 7;
    while o2 < ml
      invariant o2 == o + 7 && o <= ml
      invariant Agree(a, p, q, o)
    {
      var vd := XorWords(a, p, q, o, 8, ml);
      if vd != 0 {
        return o + TrailingZeros(vd) / 8;
      }
      o2 := o2 + 8;
      o := o + 8;
    }
    if o + 3 < ml {
      var vd := XorWords(a, p, q, o, 4, ml);
      if vd != 0 {
        return o + TrailingZeros(vd) / 8;
      }
      o := o + 4;
    }
    n := MatchTail(a, p, q, o, ml);
  }

  /** The last, at most three, bytes one by one. */
  method MatchTail(a: seq<byte>, p: nat, q: nat, o0: nat, ml: nat) returns (n: nat)
    requires p + ml <= |a| && q + ml <= |a| && o0 <= ml <= o0 + 3
    requires Agree(a, p, q, o0)
    ensures IsMatchLen(a, p, q, ml, n)
  {
    var o := o0;
    if o < ml {
      if a[p + o] != a[q + o] {
        return o;
      }
      o := o + 1;
      if o < ml {
        if a[p + o] != a[q + o] {
          return o;
        }
        o := o + 1;
        if o < ml {
          if a[p + o] != a[q + o] {
            return o;
          }
          assert Agree(a, p, q, o + 1);
        }
      }
    }
    return ml;
  }

  /** Loads the two bytes before `p` and `q`, which are followed by `k` matching bytes, and returns their xor. */
  method XorHalfwords(a: seq<byte>, p: nat, q: nat, k: nat) returns (vd: nat)
    requires 2 <= p && p + k <= |a| && 2 <= q && q + k <= |a|
    requires Agree(a, p, q, k)
    ensures vd == 0 ==> Agree(a, p - 2, q - 2, k + 2)
    ensures vd != 0 && vd / 256 % 256 == 0 ==> Agree(a, p - 1, q - 1, k + 1) && a[p - 2] != a[q - 2]
    ensures vd != 0 && vd / 256 % 256 != 0 ==> a[p - 1] != a[q - 1]
  {
    hide BitXor, LoadLE;
    vd := BitXor(LoadLE(a[p - 2..p]), LoadLE(a[q - 2..q]));
    HalfwordCompare(a, p, q);
    AgreeTwo(a, p - 2, q - 2);
    AgreeConcat(a, p - 2, q - 2, 2, k);
    AgreeConcat(a, p - 1, q - 1, 1, k);
  }

  /** `lzav_match_len_r`: bytes before `p` and `q` that match, at most `ml`. */
  method MatchLenR(a: seq<byte>, p: nat, q: nat, ml: nat) returns (n: nat)
    requires ml <= p <= |a| && ml <= q <= |a|
    ensures IsMatchLenR(a, p, q, ml, n)
  {
    if ml == 0 {
      return 0;
    }
    if a[p - 1] != a[q - 1] {
      return 0;
    }
    if ml != 1 {
      var p1e := p - ml + 1;
      var p1, q1 := p - 1, q - 1;
      while p1 > p1e
        invariant p1e - 1 <= p1 < p && q1 == p1 + q - p
        invariant Agree(a, p1, q1, p - p1)
      {
        var vd := XorHalfwords(a, p1, q1, p - p1);
        if vd != 0 {
          // `vd & 0xFF00` is zero exactly when the upper byte of the xor is
          return p - p1 + (if vd / 256 % 256 == 0 then 1 else 0);
        }
        p1 := p1 - 2;
        q1 := q1 - 2;
      }
      if p1 + 1 > p1e && a[p1 - 1] != a[q1 - 1] {
        return p - p1;
      }
      if p1 + 1 > p1e {
        AgreeConcat(a, p1 - 1, q1 - 1, 1, p - p1);
      }
    }
    return ml;
  }

  lemma HalfwordCompare(a: seq<byte>, p: nat, q: nat)
    requires 2 <= p <= |a| && 2 <= q <= |a|
    ensures
      var vd := BitXor(LoadLE(a[p - 2..p]), LoadLE(a[q - 2..q]));
      && (vd == 0 <==> Agree(a, p - 2, q - 2, 2))
      && (vd / 256 % 256 == 0 <==> Agree(a, p - 1, q - 1, 1))
      && (vd == 0 <==> a[p - 2] == a[q - 2] && a[p - 1] == a[q - 1])
  {
    hide BitXor, LoadLE;
    HalfwordXor(a[p - 2..p], a[q - 2..q]);
    AgreeTwo(a, p - 2, q - 2);
  }

  lemma AgreeTwo(a: seq<byte>, p: nat, q: nat)
    requires p + 2 <= |a| && q + 2 <= |a|
    ensures Agree(a, p, q, 2) <==> a[p] == a[q] && a[p + 1] == a[q + 1]
    ensures Agree(a, p + 1, q + 1, 1) <==> a[p + 1] == a[q + 1]
  {
    assert Agree(a, p + 1, q + 1, 0);
    assert Agree(a, p, q, 1) <==> a[p] == a[q];
  }

  lemma HalfwordXor(u: seq<byte>, v: seq<byte>)
    requires |u| == |v| == 2
    ensures
      var vd := BitXor(LoadLE(u), LoadLE(v));
      && (vd == 0 <==> u[0] == v[0] && u[1] == v[1])
      && (vd / 256 % 256 == 0 <==> u[1] == v[1])
  {
    hide BitXor, LoadLE, TrailingZeros, FirstDiff;
    LoadPair(u);
    LoadPair(v);
    XorByte(LoadLE(u), LoadLE(v));
    XorSmallHigh(u[1], v[1]);
    XorCtzIsFirstDiff(u, v);
    assert u == v <==> u[0] == v[0] && u[1] == v[1];
  }

  lemma XorSmallHigh(a: byte, b: byte)
    ensures BitXor(a, b) % 256 == 0 <==> a == b
  {
    XorByte(a, b);
  }

  lemma LoadPair(s: seq<byte>)
    requires |s| == 2
    ensures LoadLE(s) == s[0] + 256 * (s[1] as nat)
  {
    assert s[1..][1..] == [];
    assert LoadLE(s[1..]) == s[1];
  }
}
