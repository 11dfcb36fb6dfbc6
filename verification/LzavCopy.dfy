/** Block copies, and the decoder's wide copies that write past the end of a match. */
module LzavCopy {
  import opened Bits
  import opened LzavFormat

  /** `memcpy` from a buffer that is only read. */
  method AppendIn(dst: array<byte>, to: nat, src: seq<byte>, from: nat, n: nat)
    requires from + n <= |src| && to + n <= dst.Length
    modifies dst
    ensures dst[..to + n] == old(dst[..to]) + src[from..from + n]
    ensures forall i :: to + n <= i < dst.Length ==> dst[i] == old(dst[i])
  {
    ghost var out := dst[..to];
    forall i | 0 <= i < n {
      dst[to + i] := src[from + i];
    }
    Joined(dst[..to + n], out, src[from..from + n]);
  }

  lemma Joined(s: seq<byte>, a: seq<byte>, b: seq<byte>)
    requires |s| == |a| + |b|
    requires forall i :: 0 <= i < |a| ==> s[i] == a[i]
    requires forall i :: 0 <= i < |b| ==> s[|a| + i] == b[i]
    ensures s == a + b
  {
  }

  /** `memcpy` within the destination; the regions must not overlap. */
  method CopyWithin(dst: array<byte>, to: nat, from: nat, n: nat)
    requires from + n <= to && to + n <= dst.Length
    modifies dst
    ensures dst[..] == old(dst[..to]) + old(dst[from..from + n]) + old(dst[to + n..])
  {
    ghost var out, s, rest := dst[..to], dst[from..from + n], dst[to + n..];
    forall i | 0 <= i < n {
      dst[to + i] := dst[from + i];
    }
    Joined(dst[..to + n], out, s);
    Joined(dst[..], out + s, rest);
  }

  // ---------------------------------------------------------------- copying byte by byte

  lemma {:induction false} CopyRefAdd(out: seq<byte>, d: nat, m: nat, n: nat)
    requires 1 <= d <= |out|
    ensures CopyRef(CopyRef(out, d, m), d, n) == CopyRef(out, d, m + n)
    decreases m, |out|
  {
    hide CopyRef;
    CopyRefStep(out, d, m);
    CopyRefStep(out, d, m + n);
    if m > 0 {
      CopyRefAdd(out + [out[|out| - d]], d, m - 1, n);
    }
  }

  lemma CopyRefStep(out: seq<byte>, d: nat, n: nat)
    requires 1 <= d <= |out|
    ensures n == 0 ==> CopyRef(out, d, n) == out
    ensures n > 0 ==> CopyRef(out, d, n) == CopyRef(out + [out[|out| - d]], d, n - 1)
  {
  }

  /** Every byte appended is the one `d` positions before it. */
  lemma {:induction false} CopyRefBytes(out: seq<byte>, d: nat, n: nat)
    requires 1 <= d <= |out|
    ensures
      var r := CopyRef(out, d, n);
      |r| == |out| + n && r[..|out|] == out && forall k :: |out| <= k < |r| ==> r[k] == r[k - d]
    decreases n, |out|
  {
    if n > 0 {
      var o := out + [out[|out| - d]];
      var r := CopyRef(o, d, n - 1);
      CopyRefBytes(o, d, n - 1);
      assert r[..|o|] == o;
      assert r[|out|] == o[|out|] && r[|out| - d] == o[|out| - d];
    }
  }

  /** A shorter copy is a prefix of a longer one. */
  lemma CopyRefPrefix(out: seq<byte>, d: nat, m: nat, n: nat)
    requires 1 <= d <= |out| && m <= n
    ensures CopyRef(out, d, n)[..|out| + m] == CopyRef(out, d, m)
  {
    CopyRefAdd(out, d, m, n - m);
  }

  /** Without overlap the byte-by-byte copy is one block copy. */
  lemma {:induction false} CopyRefSlice(out: seq<byte>, d: nat, n: nat)
    requires n <= d <= |out| && 1 <= d
    ensures CopyRef(out, d, n) == out + out[|out| - d..|out| - d + n]
    decreases n, |out|
  {
    hide CopyRef;
    CopyRefStep(out, d, n);
    if n > 0 {
      var p := |out| - d;
      var o := out + [out[p]];
      CopyRefSlice(o, d, n - 1);
      assert o[p + 1..p + n] == out[p + 1..p + n];
      assert [out[p]] + out[p + 1..p + n] == out[p..p + n];
    }
  }

  /** One block copy of `n <= d` bytes continues a match. */
  method CopyChunk(dst: array<byte>, op: nat, d: nat, n: nat)
    requires 1 <= n <= d <= op && op + n <= dst.Length
    modifies dst
    ensures dst[..op + n] == CopyRef(old(dst[..op]), d, n)
  {
    ghost var out := dst[..op];
    CopyWithin(dst, op, op - d, n);
    CopyRefSlice(out, d, n);
    assert out[op - d..op - d + n] == old(dst[op - d..op - d + n]);
    assert dst[..op + n] == dst[..][..op + n];
  }

  /** Two block copies in a row. */
  method CopyTwo(dst: array<byte>, op: nat, d: nat, m: nat, n: nat)
    requires 1 <= m <= d <= op && 1 <= n <= m && op + m + n <= dst.Length
    modifies dst
    ensures dst[..op + m + n] == CopyRef(old(dst[..op]), d, m + n)
  {
    ghost var out := dst[..op];
    CopyChunk(dst, op, d, m);
    ghost var mid := dst[..op + m];
    CopyChunk(dst, op + m, d, n);
    CopyRefSum(out, mid, dst[..op + m + n], d, m, n);
  }

  /** Four 16-byte copies. */
  method Copy64(dst: array<byte>, op: nat, d: nat)
    requires 15 < d <= op && op + 64 <= dst.Length
    modifies dst
    ensures dst[..op + 64] == CopyRef(old(dst[..op]), d, 64)
  {
    ghost var out := dst[..op];
    CopyTwo(dst, op, d, 16, 16);
    ghost var mid := dst[..op + 32];
    CopyTwo(dst, op + 32, d, 16, 16);
    CopyRefSum(out, mid, dst[..op + 64], d, 32, 32);
  }

  lemma CopyRefSum(out: seq<byte>, mid: seq<byte>, end: seq<byte>, d: nat, m: nat, n: nat)
    requires 1 <= d <= |out| && mid == CopyRef(out, d, m) && end == CopyRef(mid, d, n)
    ensures end == CopyRef(out, d, m + n)
  {
    CopyRefAdd(out, d, m, n);
  }

  /** Copies a match in 64-byte steps, writing up to 63 bytes too many. */
  method CopyLong(dst: array<byte>, op0: nat, d: nat, cc: nat)
    requires 15 < d <= op0 && 1 <= cc && op0 + cc + 63 < dst.Length
    modifies dst
    ensures dst[..op0 + cc] == CopyRef(old(dst[..op0]), d, cc)
  {
    ghost var out := dst[..op0];
    var op := op0;
    while op < op0 + cc
      invariant op0 <= op < op0 + cc + 64
      invariant dst[..op] == CopyRef(out, d, op - op0)
    {
      ghost var mid := dst[..op];
      Copy64(dst, op, d);
      CopyRefSum(out, mid, dst[..op + 64], d, op - op0, 64);
      op := op + 64;
    }
    CopyRefPrefix(out, d, cc, op - op0);
    assert dst[..op0 + cc] == dst[..op][..op0 + cc];
  }

  /** Copies literals in 64-byte steps, reading and writing up to 63 bytes too many. */
  method CopyLongIn(dst: array<byte>, op0: nat, src: seq<byte>, from: nat, cc: nat)
    requires op0 + cc + 63 < dst.Length && from + cc + 63 < |src|
    modifies dst
    ensures dst[..op0 + cc] == old(dst[..op0]) + src[from..from + cc]
  {
    ghost var out := dst[..op0];
    var op, ipd := op0, from;
    while op < op0 + cc
      invariant op0 <= op < op0 + cc + 64 && ipd - from == op - op0
      invariant dst[..op] == out + src[from..ipd]
    {
      CopyIn64(dst, op, src, ipd);
      SliceJoin(src, from, ipd, ipd + 64);
      op := op + 64;
      ipd := ipd + 64;
    }
    assert dst[..op0 + cc] == dst[..op][..op0 + cc];
    SliceTake(src, from, ipd, cc);
  }

  lemma SliceJoin(s: seq<byte>, a: nat, b: nat, c: nat)
    requires a <= b <= c <= |s|
    ensures s[a..b] + s[b..c] == s[a..c]
  {
  }

  lemma SliceTake(s: seq<byte>, a: nat, b: nat, n: nat)
    requires a + n <= b <= |s|
    ensures s[a..b][..n] == s[a..a + n]
  {
  }

  method CopyIn64(dst: array<byte>, op: nat, src: seq<byte>, ipd: nat)
    requires op + 64 <= dst.Length && ipd + 64 <= |src|
    modifies dst
    ensures dst[..op + 64] == old(dst[..op]) + src[ipd..ipd + 64]
  {
    AppendIn(dst, op, src, ipd, 16);
    AppendIn(dst, op + 16, src, ipd + 16, 16);
    AppendIn(dst, op + 32, src, ipd + 32, 16);
    AppendIn(dst, op + 48, src, ipd + 48, 16);
    assert src[ipd..ipd + 64] == src[ipd..ipd + 16] + src[ipd + 16..ipd + 32] + src[ipd + 32..ipd + 48] + src[ipd + 48..ipd + 64];
  }
}
