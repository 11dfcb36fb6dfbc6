/** LZAV stream format 2: what a stream means, how it is printed and how it is parsed.
    A stream is a list of literal runs and back-references.  The offset of a reference is spread over up to
    three headers: the free bits of an earlier 23-bit block, the two carry bits of a literal block, and its own. */
module LzavFormat {
  import opened Bits
  import opened LzavMatch

  const WIN_LEN: nat := 0x80_0000
  const REF_LEN: nat := 524
  const LIT_FIN: nat := 6
  const OFS_MIN: nat := 8
  const OFS_TH1: nat := 0x3FF
  const OFS_TH2: nat := 0x3_FFFF

  datatype Item =
    | Lit(bytes: seq<byte>)
    | Ref(d: nat, rc: nat)

  // ---------------------------------------------------------------- meaning

  /** Appends `n` bytes, each one equal to the byte `d` positions earlier. */
  function CopyRef(out: seq<byte>, d: nat, n: nat): (r: seq<byte>)
    requires 1 <= d <= |out|
    ensures |r| == |out| + n && r[..|out|] == out
    decreases n, |out|
  {
    if n == 0 then out else CopyRef(out + [out[|out| - d]], d, n - 1)
  }

  /** The references are real: they point into what has been produced and do not overlap their own output. */
  ghost predicate ValidItems(n: nat, items: seq<Item>, mref: nat)
    decreases |items|
  {
    items == [] ||
    match items[0]
    case Lit(l) =>
      && 1 <= |l| < 0x8000_0000
      && (|items| > 1 ==> items[1].Ref?)
      && ValidItems(n + |l|, items[1..], mref)
    case Ref(d, rc) =>
      && mref <= rc <= mref + REF_LEN
      && 4 <= d < WIN_LEN && rc <= d <= n
      && ValidItems(n + rc, items[1..], mref)
  }

  /** The output of a byte-at-a-time decoder that has already produced `out`. */
  ghost function Expand(out: seq<byte>, items: seq<Item>, mref: nat): (r: seq<byte>)
    requires ValidItems(|out|, items, mref)
    ensures |r| >= |out| && r[..|out|] == out
    decreases |items|
  {
    if items == [] then out
    else
      match items[0]
      case Lit(l) =>
        var r := Expand(out + l, items[1..], mref);
        assert r[..|out|] == r[..|out + l|][..|out|];
        r
      case Ref(d, rc) =>
        var o := CopyRef(out, d, rc);
        var r := Expand(o, items[1..], mref);
        assert r[..|out|] == r[..|o|][..|out|];
        r
  }

  // ---------------------------------------------------------------- printing

  /** The offset of the next reference; its low bits are printed before the reference itself. */
  function NextOfs(items: seq<Item>): nat {
    if items == [] then 0 else if items[0].Ref? then items[0].d else NextOfs(items[1..])
  }

  /** Seven bits a byte, lowest first; the top bit says that more follow. */
  function VarLen(n: nat): (r: seq<byte>)
    ensures |r| >= 1
  {
    if n < 128 then [n] else [128 + n % 128] + VarLen(n / 128)
  }

  function LitHeader(lc: nat, cv: nat): seq<byte>
    requires cv < 4 && 1 <= lc
  {
    if lc < 16 then [cv * 64 + lc] else [cv * 64] + VarLen(lc - 16)
  }

  function BlockType(d: nat): nat {
    if d <= OFS_TH1 then 1 else if d <= OFS_TH2 then 2 else 3
  }

  /** How many bits of the next offset the block can carry. */
  function FreeBits(d: nat): nat {
    if BlockType(d) == 3 then 3 else 0
  }

  function RefHeader(d: nat, rc: nat): byte
    requires 1 <= rc
  {
    d % 4 * 64 + BlockType(d) * 16 + if rc < 16 then rc else 0
  }

  /** The offset bytes; the last one also holds the carried bits `c` of the next offset. */
  function OfsBytes(d: nat, c: nat): (r: seq<byte>)
    requires d < WIN_LEN && c < 8 && (BlockType(d) != 3 ==> c == 0)
    ensures |r| == BlockType(d)
  {
    var o := d / 4;
    match BlockType(d)
    case 1 => [o]
    case 2 => [o % 256, o / 256]
    case _ => [o % 256, o / 256 % 256, o / 65536 + c * 32]
  }

  function ExtBytes(rc: nat): (r: seq<byte>)
    requires 1 <= rc <= REF_LEN + 1
    ensures |r| <= 2
  {
    if rc < 16 then [] else if rc < 16 + 255 then [rc - 16] else [255, rc - 16 - 255]
  }

  /** A reference block: `d` is what is left of the offset, `rc` the length above `mref - 1`. */
  function RefBlock(d: nat, rc: nat, c: nat): seq<byte>
    requires d < WIN_LEN && c < 8 && (BlockType(d) != 3 ==> c == 0) && 1 <= rc <= REF_LEN + 1
  {
    [RefHeader(d, rc)] + OfsBytes(d, c) + ExtBytes(rc)
  }

  /** The items fit the fields of the format. */
  predicate Printable(items: seq<Item>, mref: nat) {
    items == [] || (ItemPrintable(items[0], mref) && Printable(items[1..], mref))
  }

  predicate ItemPrintable(item: Item, mref: nat) {
    match item
    case Lit(l) => 1 <= |l| < 0x8000_0000
    case Ref(d, rc) => d < WIN_LEN && mref <= rc <= mref + REF_LEN
  }

  /** The bits that the items still to come leave in a block with `fb` free bits; `c` if none come. */
  function CarryOut(rest: seq<Item>, fb: nat, c: nat): (r: nat)
    requires (fb == 0 || fb == 3) && c < 8
    ensures r < 8 && (fb == 0 ==> r == 0)
  {
    if fb == 0 then 0 else if rest == [] then c else NextOfs(rest) % 8
  }

  /** Prints `items` when `sh` low bits of the next offset have already been printed.
      `c` goes to the free bits of the last block, for an offset still to come. */
  function Print(items: seq<Item>, mref: nat, sh: nat, c: nat): seq<byte>
    requires Printable(items, mref) && c < 8
    decreases |items|
  {
    if items == [] then [] else PrintItem(items, mref, sh, c) + Print(items[1..], mref, ShiftAfter(items[0], sh), c)
  }

  function ShiftAfter(item: Item, sh: nat): nat {
    match item
    case Lit(_) => sh + 2
    case Ref(d, _) => FreeBits(Shr(d, sh))
  }

  function PrintItem(items: seq<Item>, mref: nat, sh: nat, c: nat): seq<byte>
    requires items != [] && ItemPrintable(items[0], mref) && c < 8
  {
    match items[0]
    case Lit(l) => LitHeader(|l|, Shr(NextOfs(items), sh) % 4) + l
    case Ref(d, rc) =>
      var d' := Shr(d, sh);
      RefBlock(d', rc + 1 - mref, CarryOut(items[1..], FreeBits(d'), c))
  }

  /** A whole stream: prefix byte, blocks, and zeros after a final run of fewer than six literals. */
  function Stream(items: seq<Item>, mref: nat): seq<byte>
    requires Printable(items, mref) && mref < 16
  {
    [2 * 16 + mref] + Print(items, mref, 0, 0) + Padding(items)
  }

  /** The literals of the last block. */
  function FinalLits(items: seq<Item>): seq<byte> {
    if items == [] then []
    else if |items| == 1 then (if items[0].Lit? then items[0].bytes else [])
    else FinalLits(items[1..])
  }

  function Padding(items: seq<Item>): (r: seq<byte>)
    ensures |r| < LIT_FIN <==> FinalLits(items) != []
    ensures |FinalLits(items)| + |r| >= LIT_FIN
  {
    var n := |FinalLits(items)|;
    if n < LIT_FIN then seq(LIT_FIN - n, _ => 0) else []
  }

  // ---------------------------------------------------------------- parsing

  /** The value of length byte `k` and those after it, and where they end: byte 4 is the last one. */
  function ParseVar(s: seq<byte>, k: nat): (r: (nat, nat))
    requires |s| >= 7 && 1 <= k <= 4
    ensures k + 2 <= r.1 <= 6
    decreases 4 - k
  {
    var v := Shl(s[k + 1] % 128, 7 * k);
    if k == 4 || s[k + 1] < 128 then (v, k + 2)
    else
      var r := ParseVar(s, k + 1);
      (v + r.0, r.1)
  }

  /** Length of the literal run and where its bytes start. */
  function ParseLit(s: seq<byte>): (r: (nat, nat))
    requires |s| >= 7
    ensures 1 <= r.0 && 1 <= r.1 <= 6
  {
    if s[0] % 16 != 0 then (s[0] % 16, 1)
    else if s[1] < 128 then (s[1] + 16, 2)
    else
      var r := ParseVar(s, 1);
      ((s[1] % 128 + r.0) % 0x8000_0000 + 16, r.1)
  }

  function ParseOfs(s: seq<byte>): nat
    requires |s| >= 7
  {
    LoadLE(s[1..1 + s[0] / 16 % 4])
  }

  /** What a reference block says: offset, length, end of the block, and the bits it carries for the next. */
  datatype RefFields = RefFields(d: nat, rc: int, k: nat, sh: nat, cv: nat)

  function ParseRef(s: seq<byte>, mref: nat, sh: nat, cv: nat): (r: RefFields)
    requires |s| >= 7
    ensures 1 <= r.k <= 6
  {
    var bt := s[0] / 16 % 4;
    var (rc, k) := ParseRefLen(s, mref);
    var o := ParseOfs(s);
    RefFields(Shl((s[0] / 64 + 4 * o) % WIN_LEN, sh) + cv, rc, k, if bt == 3 then 3 else 0, o / 0x20_0000)
  }

  /** Reference length and where the block ends. */
  function ParseRefLen(s: seq<byte>, mref: nat): (r: (int, nat))
    requires |s| >= 7
    ensures 1 <= r.1 <= 6
  {
    var bt := s[0] / 16 % 4;
    if s[0] % 16 != 0 then (s[0] % 16 + mref - 1, 1 + bt)
    else if s[1 + bt] != 255 then (16 + mref - 1 + s[1 + bt], 2 + bt)
    else (16 + mref - 1 + 255 + s[2 + bt], 3 + bt)
  }

  datatype Option<T> = None | Some(value: T)

  /** Parses blocks until at most six bytes remain.  `sh` and `cv` are the number and value of the
      offset bits seen so far. */
  function Parse(s: seq<byte>, mref: nat, sh: nat, cv: nat): (r: Option<seq<Item>>)
    decreases |s|
  {
    if |s| <= 6 then Some([])
    else if s[0] / 16 % 4 == 0 then
      var (cc, k) := ParseLit(s);
      if k + cc > |s| then None
      else
        match Parse(s[k + cc..], mref, sh + 2, cv + Shl(s[0] / 64, sh))
        case None => None
        case Some(rest) => Some([Lit(s[k..k + cc])] + rest)
    else
      var f := ParseRef(s, mref, sh, cv);
      if f.rc < 0 then None
      else
        match Parse(s[f.k..], mref, f.sh, f.cv)
        case None => None
        case Some(rest) => Some([Ref(f.d, f.rc)] + rest)
  }
}
