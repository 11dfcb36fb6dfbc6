/** The client's push buffer: everything pushed since the last reset, or a flag that something did not fit. */
module PushBuffer {
  import opened Bits

  /** `sizeof( int )` */
  const WORD: nat := 4
  const VP_UPLOAD: nat := 6

  /** One push: bytes, rounded up to whole words or not; or an alignment to the next word. */
  datatype Push = Data(bytes: seq<byte>, pad: bool) | Align

  function Words(n: nat): nat {
    (n + WORD - 1) / WORD
  }

  /** The bytes of a 32-bit word, lowest first. */
  function Word32(c: nat): (b: seq<byte>)
    ensures |b| == WORD
  {
    [c % 256, c / 0x100 % 256, c / 0x1_0000 % 256, c / 0x100_0000 % 256]
  }

  function PushWord(c: nat): Push {
    Data(Word32(c), false)
  }

  /** Where a push that starts at `n` ends. */
  function After(n: nat, p: Push): (m: nat)
    ensures m >= n
  {
    match p
    case Data(bytes, pad) => n + if pad then Words(|bytes|) * WORD else |bytes|
    case Align => Words(n) * WORD
  }

  function End(ps: seq<Push>): nat {
    if ps == [] then 0 else After(End(ps[..|ps| - 1]), ps[|ps| - 1])
  }

  /** The memory holds the bytes of every push, one after the other; padding is whatever was there. */
  predicate Holds(mem: seq<byte>, ps: seq<Push>) {
    ps == [] || (
      var n := |ps| - 1;
      var o := End(ps[..n]);
      Holds(mem, ps[..n])
      && (ps[n].Data? ==> o + |ps[n].bytes| <= |mem| && mem[o..o + |ps[n].bytes|] == ps[n].bytes))
  }

  lemma WordsCover(n: nat)
    ensures n <= Words(n) * WORD < n + WORD
  {
  }

  /** Only the memory before the end matters. */
  lemma {:induction false} HoldsBelow(mem: seq<byte>, mem': seq<byte>, ps: seq<Push>)
    requires Holds(mem, ps) && End(ps) <= |mem| && End(ps) <= |mem'| && forall i :: 0 <= i < End(ps) ==> mem[i] == mem'[i]
    ensures Holds(mem', ps)
  {
    if ps != [] {
      var n := |ps| - 1;
      var o, p := End(ps[..n]), ps[n];
      HoldsBelow(mem, mem', ps[..n]);
      if p.Data? {
        WordsCover(|p.bytes|);
        assert o + |p.bytes| <= End(ps);
        assert mem'[o..o + |p.bytes|] == mem[o..o + |p.bytes|];
      }
    }
  }

  lemma EndSnoc(ps: seq<Push>, p: Push)
    ensures End(ps + [p]) == After(End(ps), p)
    ensures (ps + [p])[..|ps|] == ps && (ps + [p])[|ps|] == p
  {
  }

  lemma HoldsSnoc(mem: seq<byte>, ps: seq<Push>, p: Push)
    requires Holds(mem, ps) && (p.Data? ==> End(ps) + |p.bytes| <= |mem| && mem[End(ps)..End(ps) + |p.bytes|] == p.bytes)
    ensures Holds(mem, ps + [p])
  {
    EndSnoc(ps, p);
  }

  // ---------------------------------------------------------------- the buffer

  class Buffer {
    const inBase: array<byte>
    /** The write position, in bytes. */
    var inCur: nat
    var writeOverflowed: bool
    /** Every push since the last reset. */
    ghost var pushed: seq<Push>

    ghost predicate Valid()
      reads this, inBase
    {
      && inCur <= inBase.Length
      && (writeOverflowed <==> End(pushed) > inBase.Length)
      && (!writeOverflowed ==> inCur == End(pushed) && Holds(inBase[..], pushed))
    }

    constructor (capacity: nat)
      ensures Valid() && fresh(inBase) && inBase.Length == capacity && pushed == []
    {
      inBase := new byte[capacity](_ => 0);
      inCur, writeOverflowed, pushed := 0, false, [];
    }

    /** `pb_reset` */
    method Reset()
      modifies this
      ensures Valid() && pushed == [] && !writeOverflowed && inCur == 0
    {
      inCur, writeOverflowed, pushed := 0, false, [];
    }

    /** `pb_can_write` */
    predicate CanWrite(length: nat)
      reads this
    {
      inCur + length <= inBase.Length
    }

    /** `pb_push`, `pb_push64`, `pb_memcpy` and `pb_memcpy_unaligned` with the bytes they copy. */
    method Write(bytes: seq<byte>, pad: bool)
      requires Valid()
      modifies this, inBase
      ensures Valid() && pushed == old(pushed) + [Data(bytes, pad)]
    {
      hide Holds, End;
      ghost var p, was, mem := Data(bytes, pad), pushed, inBase[..];
      var length := if pad then Words(|bytes|) * WORD else |bytes|;
      WordsCover(|bytes|);
      EndSnoc(was, p);
      pushed := pushed + [p];
      if !CanWrite(length) {
        writeOverflowed := true;
        return;
      }
      CopyIn(bytes);
      if !writeOverflowed {
        HoldsBelow(mem, inBase[..], was);
        HoldsSnoc(inBase[..], was, p);
      }
      inCur := inCur + length;
    }

    /** The bytes are copied to the write position. */
    method CopyIn(bytes: seq<byte>)
      requires inCur + |bytes| <= inBase.Length
      modifies inBase
      ensures inBase[..inCur] == old(inBase[..inCur]) && inBase[inCur..inCur + |bytes|] == bytes
    {
      var i := 0;
      while i < |bytes|
        invariant 0 <= i <= |bytes|
        invariant inBase[..inCur] == old(inBase[..inCur]) && inBase[inCur..inCur + i] == bytes[..i]
      {
        inBase[inCur + i] := bytes[i];
        i := i + 1;
      }
    }

    /** `pb_push` */
    method PushInt(c: nat)
      requires Valid()
      modifies this, inBase
      ensures Valid() && pushed == old(pushed) + [PushWord(c)]
    {
      Write(Word32(c), false);
    }

    /** `pb_realign` */
    method Realign()
      requires Valid()
      modifies this
      ensures Valid() && pushed == old(pushed) + [Align]
    {
      hide Holds, End;
      EndSnoc(pushed, Align);
      ghost var was := pushed;
      pushed := pushed + [Align];
      var aligned := Words(inCur) * WORD;
      WordsCover(inCur);
      if !CanWrite(aligned - inCur) {
        writeOverflowed := true;
        return;
      }
      inCur := aligned;
      if !writeOverflowed {
        HoldsSnoc(inBase[..], was, Align);
      }
    }

    /** `glimpl_submit` up to raising SUBMIT: the buffer reaches the stage whole, or not at all. */
    method Submit(stage: array<byte>) returns (submitted: bool, size: nat)
      requires Valid() && stage != inBase
      modifies this, inBase, stage
      ensures Valid() && pushed == []
      ensures submitted <==> End(old(pushed) + [PushWord(0)]) <= inBase.Length && End(old(pushed) + [PushWord(0)]) <= stage.Length
      ensures submitted ==> size == End(old(pushed) + [PushWord(0)]) <= stage.Length
                            && (forall i :: size <= i < stage.Length ==> stage[i] == old(stage[i]))
                            && Holds(stage[..size], old(pushed) + [PushWord(0)])
      ensures !submitted ==> size == 0 && stage[..] == old(stage[..])
    {
      hide Holds, End;
      PushInt(0);
      size := inCur;
      if writeOverflowed || size > stage.Length {
        Reset();
        return false, 0;
      }
      ghost var was, before, mem := pushed, stage[..], inBase[..];
      var i := 0;
      while i < size
        invariant 0 <= i <= size <= stage.Length && size <= inBase.Length
        invariant forall k :: 0 <= k < i ==> stage[k] == inBase[k]
        invariant forall k :: size <= k < stage.Length ==> stage[k] == before[k]
        invariant inBase[..] == mem
      {
        stage[i] := inBase[i];
        i := i + 1;
      }
      HoldsBelow(inBase[..], stage[..size], was);
      Reset();
      submitted := true;
    }
  }

  // ---------------------------------------------------------------- uploads

  /** `glimpl_upload_buffer` */
  method UploadBuffer(b: Buffer, data: seq<byte>)
    requires b.Valid()
    modifies b, b.inBase
    ensures b.Valid() && b.pushed == old(b.pushed) + [PushWord(VP_UPLOAD), PushWord(Words(|data|)), Data(data, true)]
  {
    b.PushInt(VP_UPLOAD);
    b.PushInt(Words(|data|));
    b.Write(data, true);
  }

  /** Element `i` of an array of which elements lie `stride` bytes apart. */
  function Element(data: seq<byte>, first: nat, i: nat, elemSize: nat, stride: nat): (s: seq<byte>)
    requires (first + i) * stride + elemSize <= |data|
    ensures |s| == elemSize
  {
    data[(first + i) * stride..(first + i) * stride + elemSize]
  }

  predicate Readable(data: seq<byte>, first: nat, count: nat, elemSize: nat, stride: nat) {
    forall i :: 0 <= i < count ==> ElementEnd(first, i, elemSize, stride) <= |data|
  }

  function ElementEnd(first: nat, i: nat, elemSize: nat, stride: nat): nat {
    (first + i) * stride + elemSize
  }

  /** The pushes for `count` elements, one by one. */
  function Elements(data: seq<byte>, first: nat, count: nat, elemSize: nat, stride: nat): (ps: seq<Push>)
    requires Readable(data, first, count, elemSize, stride)
    ensures |ps| == count
  {
    if count == 0 then []
    else
      assert ElementEnd(first, count - 1, elemSize, stride) <= |data|;
      Elements(data, first, count - 1, elemSize, stride) + [Data(Element(data, first, count - 1, elemSize, stride), false)]
  }

  /** `glimpl_push_client_pointer` for memory the client manages; `data` is what its pointer points to. */
  method PushClientPointer(b: Buffer, data: seq<byte>, first: nat, count: nat, elemSize: nat, stride: nat)
    requires b.Valid() && Readable(data, first, count, elemSize, if stride == 0 then elemSize else stride)
    requires stride == 0 ==> (first + count) * elemSize <= |data|
    modifies b, b.inBase
    ensures b.Valid()
    ensures stride == 0 ==>
      first * elemSize <= (first + count) * elemSize
      && b.pushed == old(b.pushed) + [PushWord(VP_UPLOAD), PushWord(Words(elemSize * count))]
           + [Data(data[first * elemSize..(first + count) * elemSize], true)]
    ensures stride != 0 ==>
      b.pushed == old(b.pushed) + [PushWord(VP_UPLOAD), PushWord(Words(elemSize * count))] + (Elements(data, first, count, elemSize, stride) + [Align])
  {
    hide Readable, Elements, Holds, End, Word32;
    b.PushInt(VP_UPLOAD);
    b.PushInt(Words(elemSize * count));
    if stride == 0 {
      PackedEnd(first, count, elemSize);
      b.Write(data[first * elemSize..(first + count) * elemSize], true);
    } else {
      PushElements(b, data, first, count, elemSize, stride);
      b.Realign();
    }
  }

  /** The loop over the elements. */
  method PushElements(b: Buffer, data: seq<byte>, first: nat, count: nat, elemSize: nat, stride: nat)
    requires b.Valid() && Readable(data, first, count, elemSize, stride)
    modifies b, b.inBase
    ensures b.Valid() && b.pushed == old(b.pushed) + Elements(data, first, count, elemSize, stride)
  {
    hide Readable, Holds, End;
    var i := 0;
    ReadableBelow(data, first, count, 0, elemSize, stride);
    while i < count
      invariant 0 <= i <= count && b.Valid() && Readable(data, first, i, elemSize, stride)
      invariant b.pushed == old(b.pushed) + Elements(data, first, i, elemSize, stride)
    {
      ReadableAt(data, first, count, i, elemSize, stride);
      ReadableBelow(data, first, count, i + 1, elemSize, stride);
      b.Write(Element(data, first, i, elemSize, stride), false);
      i := i + 1;
    }
  }

  lemma PackedEnd(first: nat, count: nat, elemSize: nat)
    ensures first * elemSize <= (first + count) * elemSize
    ensures (first + count) * elemSize - first * elemSize == elemSize * count
  {
  }

  lemma ReadableAt(data: seq<byte>, first: nat, count: nat, i: nat, elemSize: nat, stride: nat)
    requires Readable(data, first, count, elemSize, stride) && i < count
    ensures (first + i) * stride + elemSize <= |data|
  {
    assert ElementEnd(first, i, elemSize, stride) <= |data|;
  }

  lemma ReadableBelow(data: seq<byte>, first: nat, count: nat, k: nat, elemSize: nat, stride: nat)
    requires Readable(data, first, count, elemSize, stride) && k <= count
    ensures Readable(data, first, k, elemSize, stride)
  {
  }

  /** The bytes of `count` elements, together. */
  function Gathered(data: seq<byte>, first: nat, count: nat, elemSize: nat, stride: nat): (s: seq<byte>)
    requires Readable(data, first, count, elemSize, stride)
    ensures |s| == elemSize * count
  {
    if count == 0 then []
    else
      assert ElementEnd(first, count - 1, elemSize, stride) <= |data|;
      Gathered(data, first, count - 1, elemSize, stride) + Element(data, first, count - 1, elemSize, stride)
  }

  /** Byte `j` of the `i`-th element gathered is byte `j` of element `first + i` of the array. */
  lemma {:induction false} GatheredAt(data: seq<byte>, first: nat, count: nat, elemSize: nat, stride: nat, i: nat, j: nat)
    requires Readable(data, first, count, elemSize, stride) && i < count && j < elemSize
    ensures 0 <= i * elemSize + j < elemSize * count && (first + i) * stride + j < |data|
    ensures Gathered(data, first, count, elemSize, stride)[i * elemSize + j] == data[(first + i) * stride + j]
    decreases count
  {
    hide Readable, Gathered, Element;
    var n := count - 1;
    ReadableAt(data, first, count, n, elemSize, stride);
    ReadableBelow(data, first, count, n, elemSize, stride);
    ElementBelow(i, j, count, elemSize);
    GatheredStep(data, first, n, elemSize, stride);
    if i < n {
      GatheredAt(data, first, n, elemSize, stride, i, j);
    } else {
      assert n * elemSize == elemSize * n;
      ElementAt(data, first, n, elemSize, stride, j);
    }
  }

  lemma GatheredStep(data: seq<byte>, first: nat, n: nat, elemSize: nat, stride: nat)
    requires Readable(data, first, n + 1, elemSize, stride) && Readable(data, first, n, elemSize, stride)
    requires (first + n) * stride + elemSize <= |data|
    ensures Gathered(data, first, n + 1, elemSize, stride) == Gathered(data, first, n, elemSize, stride) + Element(data, first, n, elemSize, stride)
  {
  }

  lemma ElementAt(data: seq<byte>, first: nat, i: nat, elemSize: nat, stride: nat, j: nat)
    requires (first + i) * stride + elemSize <= |data| && j < elemSize
    ensures (first + i) * stride + j < |data| && Element(data, first, i, elemSize, stride)[j] == data[(first + i) * stride + j]
  {
  }

  lemma ElementBelow(i: nat, j: nat, count: nat, elemSize: nat)
    requires i < count && j < elemSize
    ensures 0 <= i * elemSize + j < elemSize * count
  {
    MulMonotone(i + 1, count, elemSize);
    assert elemSize * (i + 1) == i * elemSize + elemSize;
  }

  /** Elements without gaps are gathered as one copy of the array from element `first` on: both branches of
      `glimpl_push_client_pointer` upload the same bytes. */
  lemma {:induction false} GatheredPacked(data: seq<byte>, first: nat, count: nat, elemSize: nat)
    requires (first + count) * elemSize <= |data|
    ensures first * elemSize <= (first + count) * elemSize && Readable(data, first, count, elemSize, elemSize)
    ensures Gathered(data, first, count, elemSize, elemSize) == data[first * elemSize..(first + count) * elemSize]
    decreases count
  {
    PackedReadable(data, first, count, elemSize);
    PackedEnd(first, count, elemSize);
    if count > 0 {
      var a, b, c := first * elemSize, (first + (count - 1)) * elemSize, (first + count) * elemSize;
      assert c == b + elemSize;
      GatheredPacked(data, first, count - 1, elemSize);
      Adjacent(data, a, b, c);
    }
  }

  lemma PackedReadable(data: seq<byte>, first: nat, count: nat, elemSize: nat)
    requires (first + count) * elemSize <= |data|
    ensures Readable(data, first, count, elemSize, elemSize)
  {
    forall i | 0 <= i < count ensures ElementEnd(first, i, elemSize, elemSize) <= |data| {
      MulMonotone(first + i + 1, first + count, elemSize);
      assert (first + i) * elemSize + elemSize == elemSize * (first + i + 1);
    }
  }

  lemma EndConcat(ps: seq<Push>, x: Push, y: Push)
    ensures End(ps + [x, y]) == After(After(End(ps), x), y)
  {
    EndSnoc(ps, x);
    EndSnoc(ps + [x], y);
    assert ps + [x] + [y] == ps + [x, y];
  }

  /** After the header of an upload, the buffer is two words further. */
  lemma HeaderEnd(ps: seq<Push>, count: nat)
    ensures End(ps + [PushWord(VP_UPLOAD), PushWord(count)]) == End(ps) + 2 * WORD
  {
    EndConcat(ps, PushWord(VP_UPLOAD), PushWord(count));
  }

  /** Elements pushed one by one lie one after the other. */
  lemma {:induction false} ElementsHeld(mem: seq<byte>, ps: seq<Push>, data: seq<byte>, first: nat, count: nat, elemSize: nat, stride: nat)
    requires Readable(data, first, count, elemSize, stride)
    requires Holds(mem, ps + Elements(data, first, count, elemSize, stride))
    ensures End(ps + Elements(data, first, count, elemSize, stride)) == End(ps) + elemSize * count
    ensures End(ps) + elemSize * count <= |mem| || count == 0
    ensures count > 0 ==> mem[End(ps)..End(ps) + elemSize * count] == Gathered(data, first, count, elemSize, stride)
    decreases count
  {
    hide Readable, Holds, End, Element, Elements, Gathered;
    if count == 0 {
      ElementsNone(data, first, elemSize, stride);
      assert ps + [] == ps;
    } else {
      var n := count - 1;
      ReadableBelow(data, first, count, n, elemSize, stride);
      ReadableAt(data, first, count, n, elemSize, stride);
      ElementsStep(data, first, n, elemSize, stride);
      GatheredStep(data, first, n, elemSize, stride);
      var q, x := Elements(data, first, n, elemSize, stride), Element(data, first, n, elemSize, stride);
      assert ps + (q + [Data(x, false)]) == ps + q + [Data(x, false)];
      HoldsLast(mem, ps + q, Data(x, false));
      ElementsHeld(mem, ps, data, first, n, elemSize, stride);
      NextEnd(n, elemSize);
      if n == 0 {
        GatheredNone(data, first, elemSize, stride);
      }
      OneMore(mem, ps + q, x, End(ps), Gathered(data, first, n, elemSize, stride));
    }
  }

  lemma ElementsNone(data: seq<byte>, first: nat, elemSize: nat, stride: nat)
    ensures Readable(data, first, 0, elemSize, stride) && Elements(data, first, 0, elemSize, stride) == []
  {
  }

  lemma GatheredNone(data: seq<byte>, first: nat, elemSize: nat, stride: nat)
    ensures Readable(data, first, 0, elemSize, stride) && Gathered(data, first, 0, elemSize, stride) == []
  {
  }

  lemma ElementsStep(data: seq<byte>, first: nat, n: nat, elemSize: nat, stride: nat)
    requires Readable(data, first, n + 1, elemSize, stride) && Readable(data, first, n, elemSize, stride)
    requires (first + n) * stride + elemSize <= |data|
    ensures Elements(data, first, n + 1, elemSize, stride)
      == Elements(data, first, n, elemSize, stride) + [Data(Element(data, first, n, elemSize, stride), false)]
  {
  }

  lemma NextEnd(n: nat, elemSize: nat)
    ensures elemSize * (n + 1) == elemSize * n + elemSize && elemSize * 0 == 0
  {
  }

  /** One piece more behind pieces that lie together. */
  lemma OneMore(mem: seq<byte>, ps: seq<Push>, x: seq<byte>, o: nat, s: seq<byte>)
    requires End(ps) == o + |s| && End(ps) + |x| <= |mem| && mem[End(ps)..End(ps) + |x|] == x
    requires mem[o..o + |s|] == s
    ensures End(ps + [Data(x, false)]) == o + |s| + |x| && mem[o..o + |s| + |x|] == s + x
  {
    hide End;
    EndSnoc(ps, Data(x, false));
    Adjacent(mem, o, o + |s|, o + |s| + |x|);
  }

  lemma HoldsLast(mem: seq<byte>, ps: seq<Push>, p: Push)
    requires Holds(mem, ps + [p])
    ensures Holds(mem, ps)
    ensures p.Data? ==> End(ps) + |p.bytes| <= |mem| && mem[End(ps)..End(ps) + |p.bytes|] == p.bytes
  {
    hide End;
    var qs := ps + [p];
    assert qs[..|qs| - 1] == ps && qs[|qs| - 1] == p;
  }

  lemma Adjacent(mem: seq<byte>, a: nat, b: nat, c: nat)
    requires a <= b <= c <= |mem|
    ensures mem[a..c] == mem[a..b] + mem[b..c]
  {
  }

  /** Aligning the end of `k` bytes that start at a word. */
  lemma AlignEnd(n: nat, k: nat)
    requires n % WORD == 0
    ensures After(n + k, Align) == n + Words(k) * WORD
  {
  }

  // ---------------------------------------------------------------- the reader

  function Read32(mem: seq<byte>, o: nat): nat
    requires o + WORD <= |mem|
  {
    var a: nat, b: nat, c: nat, d: nat := mem[o], mem[o + 1], mem[o + 2], mem[o + 3];
    a + 0x100 * b + 0x1_0000 * c + 0x100_0000 * d
  }

  /** Where the server's command loop goes after an upload at `o`: over as many words as the upload announces. */
  function SkipUpload(mem: seq<byte>, o: nat): nat
    requires o + 2 * WORD <= |mem|
  {
    o + 2 * WORD + Read32(mem, o + WORD) * WORD
  }

  lemma ReadWord(mem: seq<byte>, o: nat, c: nat)
    requires o + WORD <= |mem| && mem[o..o + WORD] == Word32(c) && c < 0x1_0000_0000
    ensures Read32(mem, o) == c
  {
    var w := mem[o..o + WORD];
    assert mem[o] == w[0] && mem[o + 1] == w[1] && mem[o + 2] == w[2] && mem[o + 3] == w[3];
    WordParts(c);
  }

  lemma WordParts(c: nat)
    requires c < 0x1_0000_0000
    ensures c == c % 256 + 0x100 * (c / 0x100 % 256) + 0x1_0000 * (c / 0x1_0000 % 256) + 0x100_0000 * (c / 0x100_0000 % 256)
  {
    assert c / 0x1_0000 == c / 0x100 / 256 && c / 0x100_0000 == c / 0x1_0000 / 256;
  }

  /** The header of an upload, as the server reads it. */
  lemma HeaderRead(mem: seq<byte>, ps: seq<Push>, count: nat)
    requires Holds(mem, ps + [PushWord(VP_UPLOAD), PushWord(count)]) && count < 0x1_0000_0000
    ensures End(ps) + 2 * WORD <= |mem| && Read32(mem, End(ps)) == VP_UPLOAD && Read32(mem, End(ps) + WORD) == count
    ensures SkipUpload(mem, End(ps)) == End(ps) + 2 * WORD + count * WORD
  {
    hide Holds, End, Word32, Read32;
    assert ps + [PushWord(VP_UPLOAD), PushWord(count)] == ps + [PushWord(VP_UPLOAD)] + [PushWord(count)];
    HoldsLast(mem, ps + [PushWord(VP_UPLOAD)], PushWord(count));
    HoldsLast(mem, ps, PushWord(VP_UPLOAD));
    EndSnoc(ps, PushWord(VP_UPLOAD));
    ReadWord(mem, End(ps), VP_UPLOAD);
    ReadWord(mem, End(ps) + WORD, count);
  }

  /** An upload takes exactly the words its header announces: skipping them, the server finds the next command, and the
      data are where it looks for them. */
  lemma UploadFramed(mem: seq<byte>, ps: seq<Push>, data: seq<byte>)
    requires Holds(mem, ps + [PushWord(VP_UPLOAD), PushWord(Words(|data|)), Data(data, true)]) && Words(|data|) < 0x1_0000_0000
    ensures End(ps) + 2 * WORD + |data| <= |mem| && Read32(mem, End(ps)) == VP_UPLOAD
    ensures SkipUpload(mem, End(ps)) == End(ps + [PushWord(VP_UPLOAD), PushWord(Words(|data|)), Data(data, true)])
    ensures mem[End(ps) + 2 * WORD..End(ps) + 2 * WORD + |data|] == data
  {
    hide Holds, End, Word32, Read32, Words, SkipUpload;
    var qs := ps + [PushWord(VP_UPLOAD), PushWord(Words(|data|))];
    assert qs + [Data(data, true)] == ps + [PushWord(VP_UPLOAD), PushWord(Words(|data|)), Data(data, true)];
    HoldsLast(mem, qs, Data(data, true));
    HeaderRead(mem, ps, Words(|data|));
    HeaderEnd(ps, Words(|data|));
    EndSnoc(qs, Data(data, true));
  }

  /** Elements and an alignment behind them. */
  lemma GatheredFramed(mem: seq<byte>, qs: seq<Push>, data: seq<byte>, first: nat, count: nat, elemSize: nat, stride: nat)
    requires Readable(data, first, count, elemSize, stride) && End(qs) % WORD == 0
    requires Holds(mem, qs + Elements(data, first, count, elemSize, stride) + [Align])
    ensures End(qs + Elements(data, first, count, elemSize, stride) + [Align]) == End(qs) + Words(elemSize * count) * WORD
    ensures End(qs) + elemSize * count <= |mem| || count == 0
    ensures count > 0 ==> mem[End(qs)..End(qs) + elemSize * count] == Gathered(data, first, count, elemSize, stride)
  {
    hide Readable, Holds, End, Elements, Gathered, Words, After;
    var es := Elements(data, first, count, elemSize, stride);
    EndSnoc(qs + es, Align);
    HoldsLast(mem, qs + es, Align);
    ElementsHeld(mem, qs, data, first, count, elemSize, stride);
    AlignEnd(End(qs), elemSize * count);
  }

  lemma {:induction false} HoldsFront(mem: seq<byte>, ps: seq<Push>, qs: seq<Push>)
    requires Holds(mem, ps + qs)
    ensures Holds(mem, ps)
    decreases |qs|
  {
    if qs == [] {
      assert ps + qs == ps;
    } else {
      var n := |qs| - 1;
      assert ps + qs == ps + qs[..n] + [qs[n]];
      HoldsLast(mem, ps + qs[..n], qs[n]);
      HoldsFront(mem, ps, qs[..n]);
    }
  }

  /** So does an upload of separate elements, if it starts at a word; the server finds them packed together. */
  lemma StridedFramed(mem: seq<byte>, ps: seq<Push>, data: seq<byte>, first: nat, count: nat, elemSize: nat, stride: nat)
    requires Readable(data, first, count, elemSize, stride) && End(ps) % WORD == 0 && Words(elemSize * count) < 0x1_0000_0000
    requires Holds(mem, ps + [PushWord(VP_UPLOAD), PushWord(Words(elemSize * count))] + (Elements(data, first, count, elemSize, stride) + [Align]))
    ensures End(ps) + 2 * WORD <= |mem| && Read32(mem, End(ps)) == VP_UPLOAD
    ensures SkipUpload(mem, End(ps))
      == End(ps + [PushWord(VP_UPLOAD), PushWord(Words(elemSize * count))] + (Elements(data, first, count, elemSize, stride) + [Align]))
    ensures count > 0 ==>
      var o := End(ps) + 2 * WORD;
      o + elemSize * count <= |mem| && mem[o..o + elemSize * count] == Gathered(data, first, count, elemSize, stride)
  {
    hide Readable, Holds, End, Elements, Gathered, Words, After, PushWord, SkipUpload, Read32;
    var n, es := elemSize * count, Elements(data, first, count, elemSize, stride);
    var qs := ps + [PushWord(VP_UPLOAD), PushWord(Words(n))];
    HeaderEnd(ps, Words(n));
    assert qs + (es + [Align]) == qs + es + [Align];
    HoldsFront(mem, qs, es + [Align]);
    HeaderRead(mem, ps, Words(n));
    GatheredFramed(mem, qs, data, first, count, elemSize, stride);
  }
}
