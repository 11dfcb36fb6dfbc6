/** Compression loses nothing: the decoder gives back what either compressor was given. */
module LzavRoundTrip {
  import opened Bits
  import opened LzavFormat
  import opened LzavParse
  import opened LzavEmit
  import opened LzavBound
  import opened LzavDecompress
  import LzavCompress
  import LzavCompressHi

  /** A complete stream means the source, to a byte-at-a-time decoder. */
  lemma CompleteMeaning(src: seq<byte>, out: seq<byte>, items: seq<Item>, mref: nat)
    requires Complete(src, out, items, mref) && mref <= 6
    ensures out != [] && out[0] == 2 * 16 + mref && Meaning(out) == Some(src)
  {
    hide Parse, Expand, ValidItems, Print, Printable, Padding, FarRefs;
    ParseStream(items, mref);
  }

  /** Decoding into any capacity gives exactly the part of the source that fits. */
  method DecodePrefix(src: seq<byte>, stream: seq<byte>, ghost items: seq<Item>, ghost mref: nat, m: nat)
    returns (ret: int, n: nat, out: seq<byte>)
    requires Complete(src, stream, items, mref) && mref <= 6 && m > 0
    ensures ret == ExpectedCode(src, m) && |out| == m
    ensures n == Min(|src|, m) && out[..n] == src[..n]
    ensures m == |src| ==> ret == |src| && out == src
  {
    hide Meaning, Complete;
    CompleteMeaning(src, stream, items, mref);
    var dst := new byte[m];
    ret := Decompress(stream, dst);
    if ret >= 0 {
      assert dst[..] == src;
    }
    n := DecompressPartial(stream, dst);
    out := dst[..];
    assert out[..n] == dst[..n];
  }

  /** `lzav_decompress( lzav_compress( s ), |s| )` is `s`, for every non-empty source of less than 2 GiB. */
  method RoundTrip(src: seq<byte>, extBufl: Option<int>) returns (ret: int, out: seq<byte>, clen: nat)
    requires 1 <= |src| < 0x8000_0000
    ensures ret == |src| && out == src
    ensures 0 < clen <= CompressBound(|src|)
  {
    BoundAtLeast(|src|);
    var comp := new byte[CompressBound(|src|)];
    ghost var items;
    clen, items := LzavCompress.Compress(src, comp, extBufl);
    var n;
    ret, n, out := DecodePrefix(src, comp[..clen], items, LzavCompress.MREF, |src|);
  }

  /** The same for the higher-ratio compressor. */
  method RoundTripHi(src: seq<byte>) returns (ret: int, out: seq<byte>, clen: nat)
    requires 1 <= |src| < 0x8000_0000
    ensures ret == |src| && out == src
    ensures 0 < clen <= CompressBoundHi(|src|)
  {
    BoundAtLeast(|src|);
    var comp := new byte[CompressBoundHi(|src|)];
    ghost var items;
    clen, items := LzavCompressHi.CompressHi(src, comp);
    var n;
    ret, n, out := DecodePrefix(src, comp[..clen], items, LzavCompressHi.MREF, |src|);
  }
}
