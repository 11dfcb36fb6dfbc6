/** How a packet becomes commands: whole if it fits, cut into fragments if it does not. */
module EnetSplit {
  import opened Bits
  import opened EnetSequence
  import opened EnetReceive
  import opened EnetOrder
  import opened EnetDeliver
  import opened EnetSend
  import opened EnetWindow
  import opened EnetLink

  /** sizeof( ENetProtocolHeader ), ... SendReliable ), ... SendFragment ), sizeof( __enet_uint32 ) */
  const HEADER: nat := 4
  const RELIABLE_HEADER: nat := 6
  const FRAGMENT_HEADER: nat := 24
  const CHECKSUM: nat := 4

  /** The bytes of a datagram that holds one command: protocol header, checksum, command, data. */
  function DatagramSize(w: Wire, checksum: bool): nat {
    HEADER + (if checksum then CHECKSUM else 0) + (if w.Reliable? then RELIABLE_HEADER else FRAGMENT_HEADER) + |w.data|
  }

  /** A fragment is as long as the room for data exactly if its datagram is as long as the mtu. */
  lemma FragmentFills(w: Wire, mtu: nat, checksum: bool)
    requires w.Fragment? && mtu >= MIN_MTU
    ensures |w.data| == FragmentLength(mtu, checksum) <==> DatagramSize(w, checksum) == mtu
    ensures |w.data| <= FragmentLength(mtu, checksum) <==> DatagramSize(w, checksum) <= mtu
  {
  }

  function FragmentLength(mtu: nat, checksum: bool): (n: nat)
    requires mtu >= MIN_MTU
    ensures n > 0
  {
    mtu - HEADER - FRAGMENT_HEADER - if checksum then CHECKSUM else 0
  }

  /** `n / d`, rounded up */
  function CeilDiv(n: nat, d: nat): nat
    requires d > 0
  {
    (n + d - 1) / d
  }

  lemma CeilStep(n: nat, d: nat, k: nat)
    requires d > 0
    ensures k * d < n ==> k < CeilDiv(n, d)
    ensures k * d >= n ==> CeilDiv(n, d) <= k
  {
    var q := CeilDiv(n, d);
    assert q * d <= n + d - 1 < q * d + d;
    if q <= k {
      MulMonotone(q, k, d);
    } else {
      MulMonotone(k + 1, q, d);
    }
  }

  lemma SnocPacket(p: Packet, x: seq<byte>)
    ensures Concat(p + [x]) == Concat(p) + x
    ensures Offset(p + [x], |p| + 1) == Offset(p, |p|) + |x|
    ensures forall k :: 0 <= k <= |p| ==> Offset(p + [x], k) == Offset(p, k)
  {
    assert (p + [x])[..|p|] == p;
    forall k | 0 <= k <= |p| ensures Offset(p + [x], k) == Offset(p, k) {
      OffsetPrefix(p, p + [x], k);
    }
  }

  lemma {:induction false} OffsetPrefix(p: Packet, q: Packet, k: nat)
    requires k <= |p| && p <= q
    ensures Offset(q, k) == Offset(p, k)
  {
    if k > 0 {
      OffsetPrefix(p, q, k - 1);
    }
  }

  lemma {:induction false} OffsetIsLength(p: Packet)
    ensures Offset(p, |p|) == |Concat(p)|
  {
    if p != [] {
      var q := p[..|p| - 1];
      OffsetIsLength(q);
      OffsetPrefix(q, p, |q|);
    }
  }

  /** The command for piece `k`. */
  function FragmentAt(p: Packet, k: nat, outSeq: seq16, count: nat, total: nat): Wire
    requires k < |p|
  {
    Fragment(Seq16(outSeq + 1 + k), Seq16(outSeq + 1), k, count, Offset(p, k), total, p[k])
  }

  ghost predicate FragmentsOf(wires: seq<Wire>, p: Packet, outSeq: seq16, count: nat, total: nat) {
    |wires| == |p| && forall k :: 0 <= k < |p| ==> wires[k] == FragmentAt(p, k, outSeq, count, total)
  }

  /** Every piece but the last is full. */
  predicate Pieces(p: Packet, length: nat) {
    forall k :: 0 <= k < |p| ==> 0 < |p[k]| <= length && (k < |p| - 1 ==> |p[k]| == length)
  }

  lemma FragmentSame(p: Packet, x: seq<byte>, k: nat, outSeq: seq16, count: nat, total: nat)
    requires k < |p|
    ensures FragmentAt(p + [x], k, outSeq, count, total) == FragmentAt(p, k, outSeq, count, total)
  {
    OffsetPrefix(p, p + [x], k);
  }

  lemma FragmentsSnoc(wires: seq<Wire>, w: Wire, p: Packet, x: seq<byte>, outSeq: seq16, count: nat, total: nat)
    requires FragmentsOf(wires, p, outSeq, count, total)
    requires w == FragmentAt(p + [x], |p|, outSeq, count, total)
    ensures FragmentsOf(wires + [w], p + [x], outSeq, count, total)
  {
    hide FragmentAt;
    forall k | 0 <= k < |p| ensures (wires + [w])[k] == FragmentAt(p + [x], k, outSeq, count, total) {
      FragmentSame(p, x, k, outSeq, count, total);
    }
  }

  /** The end of piece `k`, if pieces are cut at `length`. */
  function Cutoff(k: nat, length: nat, total: nat): nat {
    if k * length < total then k * length else total
  }

  lemma CutoffNext(k: nat, length: nat, total: nat)
    requires 0 < length && Cutoff(k, length, total) < total
    ensures
      var o := Cutoff(k, length, total);
      Cutoff(k + 1, length, total) == o + if total - o < length then total - o else length
    ensures k * length < total
  {
    MulMonotone(k, k, length);
  }

  /** The data the commands carry. */
  function Carried(wires: seq<Wire>): (p: Packet)
    ensures |p| == |wires|
  {
    seq(|wires|, k requires 0 <= k < |wires| => wires[k].data)
  }

  lemma CarriedIs(wires: seq<Wire>, p: Packet, outSeq: seq16, count: nat, total: nat)
    requires FragmentsOf(wires, p, outSeq, count, total)
    ensures Carried(wires) == p
  {
    hide Offset;
  }

  /** The loop that cuts the packet: full pieces, and what remains. */
  method Cut(data: seq<byte>, fragmentLength: nat, outSeq: seq16) returns (wires: seq<Wire>)
    requires 0 < fragmentLength < |data|
    ensures FragmentsOf(wires, Carried(wires), outSeq, CeilDiv(|data|, fragmentLength), |data|)
    ensures |wires| == CeilDiv(|data|, fragmentLength)
    ensures Concat(Carried(wires)) == data && Pieces(Carried(wires), fragmentLength)
  {
    hide Concat, Offset, CeilDiv, FragmentsOf, Cutoff, Seq16;
    var count := CeilDiv(|data|, fragmentLength);
    var length := fragmentLength;
    var number: nat, offset: nat, seqNumber: nat := 0, 0, outSeq;
    wires := [];
    ghost var p: Packet := [];
    Begin(data, fragmentLength, outSeq, count);
    while offset < |data|
      invariant number == |p| && offset == Offset(p, |p|) == Cutoff(number, fragmentLength, |data|) <= |data|
      invariant 0 < length <= fragmentLength && (offset < |data| ==> length == fragmentLength)
      invariant number > 0 ==> (number - 1) * fragmentLength < |data|
      invariant seqNumber == Seq16(outSeq + number)
      invariant Concat(p) == data[..offset]
      invariant Pieces(p, fragmentLength) && (offset < |data| && p != [] ==> |p[|p| - 1]| == fragmentLength)
      invariant FragmentsOf(wires, p, outSeq, count, |data|)
      decreases |data| - offset
    {
      if |data| - offset < length {
        length := |data| - offset;
      }
      var piece := data[offset..offset + length];
      SnocPacket(p, piece);
      SeqAdd(outSeq + number, 1);
      CutoffNext(number, fragmentLength, |data|);
      seqNumber := Seq16(seqNumber + 1);
      var w := Fragment(seqNumber, Seq16(outSeq + 1), number, count, offset, |data|, piece);
      FragmentsSnoc(wires, w, p, piece, outSeq, count, |data|);
      wires := wires + [w];
      p := p + [piece];
      Rejoin(data, offset, offset + length);
      number, offset := number + 1, offset + length;
    }
    CutoffEnd(number, fragmentLength, |data|);
    assert data[..offset] == data;
    CarriedIs(wires, p, outSeq, count, |data|);
  }

  lemma Begin(data: seq<byte>, length: nat, outSeq: seq16, count: nat)
    requires 0 < length < |data|
    ensures FragmentsOf([], [], outSeq, count, |data|) && Concat([]) == data[..0] && Offset([], 0) == Cutoff(0, length, |data|) == 0
    ensures Seq16(outSeq + 0) == outSeq
  {
  }

  lemma Rejoin(data: seq<byte>, a: nat, b: nat)
    requires a <= b <= |data|
    ensures data[..a] + data[a..b] == data[..b]
  {
  }

  lemma CutoffEnd(k: nat, length: nat, total: nat)
    requires 0 < length < total && Cutoff(k, length, total) == total && (k > 0 ==> (k - 1) * length < total)
    ensures k == CeilDiv(total, length)
  {
    CeilStep(total, length, k);
    if k > 0 {
      CeilStep(total, length, k - 1);
    }
  }

  /** `__enet_peer_send` for a reliable packet on a connected peer: the datagrams of one more packet of the channel. */
  method PeerSend(data: seq<byte>, mtu: nat, checksum: bool, maximumPacketSize: nat, outSeq: seq16, ghost ps: seq<Packet>)
      returns (wires: seq<Wire>, ok: bool, ghost p: Packet)
    requires mtu >= MIN_MTU && outSeq == Seq16(Base(ps, |ps|))
    ensures ok <==> |data| <= maximumPacketSize && CeilDiv(|data|, FragmentLength(mtu, checksum)) <= MAX_FRAGMENTS
    ensures ok ==> PacketOk(p, maximumPacketSize) && Concat(p) == data
    ensures ok ==> |p| == if data == [] then 1 else CeilDiv(|data|, FragmentLength(mtu, checksum))
    ensures ok ==> forall k :: 0 <= k < |p| ==> |p[k]| <= FragmentLength(mtu, checksum)
    ensures ok ==> |wires| == |p| && forall k :: 0 <= k < |p| ==> wires[k] == WireOf(ps + [p], |ps|, k)
    ensures forall k :: 0 <= k < |wires| ==> DatagramSize(wires[k], checksum) <= mtu
    ensures forall k :: 0 <= k < |wires| - 1 ==> DatagramSize(wires[k], checksum) == mtu
    ensures ok ==> (|wires| == 1 && wires[0].Reliable? <==>
                    DatagramSize(Fragment(0, 0, 0, 1, 0, |data|, data), checksum) <= mtu)
    ensures !ok ==> wires == []
  {
    hide CeilDiv, Base, Offset, Seq16, FragmentsOf, Pieces, Concat, DatagramSize, FragmentLength, WireOf, PacketOk;
    wires, p, ok := [], [], false;
    var length := FragmentLength(mtu, checksum);
    FewPieces(|data|, length);
    FitsWhole(data, mtu, checksum);
    if |data| > maximumPacketSize {
      return;
    }
    if |data| > length {
      if CeilDiv(|data|, length) > MAX_FRAGMENTS {
        return;
      }
      wires := Cut(data, length, outSeq);
      p := Carried(wires);
      OffsetIsLength(p);
      PiecesOk(p, length, maximumPacketSize);
      FragmentWires(wires, p, outSeq, ps);
      FullDatagrams(wires, p, outSeq, mtu, checksum);
      assert wires[0].Fragment? by {
        FirstIsFragment(wires, p, outSeq);
      }
    } else {
      p := [data];
      WholeWire(data, mtu, checksum, maximumPacketSize, outSeq, ps);
      wires := [Reliable(Seq16(outSeq + 1), data)];
    }
    ok := true;
  }

  lemma FitsWhole(data: seq<byte>, mtu: nat, checksum: bool)
    requires mtu >= MIN_MTU
    ensures DatagramSize(Fragment(0, 0, 0, 1, 0, |data|, data), checksum) <= mtu <==> |data| <= FragmentLength(mtu, checksum)
  {
  }

  lemma PiecesOk(p: Packet, length: nat, maximumPacketSize: nat)
    requires Pieces(p, length) && 1 < |p| <= MAX_FRAGMENTS && Offset(p, |p|) <= maximumPacketSize
    ensures PacketOk(p, maximumPacketSize) && forall k :: 0 <= k < |p| ==> |p[k]| <= length
  {
    hide Offset;
  }

  lemma FirstIsFragment(wires: seq<Wire>, p: Packet, outSeq: seq16)
    requires |p| > 0 && FragmentsOf(wires, p, outSeq, |p|, Offset(p, |p|))
    ensures wires[0].Fragment?
  {
  }

  /** A packet that is not cut is one command. */
  lemma WholeWire(data: seq<byte>, mtu: nat, checksum: bool, maximumPacketSize: nat, outSeq: seq16, ps: seq<Packet>)
    requires mtu >= MIN_MTU && outSeq == Seq16(Base(ps, |ps|)) && |data| <= FragmentLength(mtu, checksum) && |data| <= maximumPacketSize
    ensures PacketOk([data], maximumPacketSize) && Concat([data]) == data
    ensures Reliable(Seq16(outSeq + 1), data) == WireOf(ps + [[data]], |ps|, 0)
    ensures DatagramSize(Reliable(Seq16(outSeq + 1), data), checksum) <= mtu
  {
    hide Seq16, Base;
    var p: Packet := [data];
    OffsetIsLength(p);
    SnocPacket([], data);
    assert [] + [data] == p;
    assert PacketOk(p, maximumPacketSize) && Concat(p) == data;
    OnlyWire(data, outSeq, ps);
  }

  lemma OnlyWire(data: seq<byte>, outSeq: seq16, ps: seq<Packet>)
    requires outSeq == Seq16(Base(ps, |ps|))
    ensures Reliable(Seq16(outSeq + 1), data) == WireOf(ps + [[data]], |ps|, 0)
  {
    hide Seq16, Base;
    BasePrefix(ps, ps + [[data]], |ps|);
    SeqAdd(Base(ps, |ps|), 1);
  }

  /** Pieces cut to the room for data fill their datagrams. */
  lemma FullDatagrams(wires: seq<Wire>, p: Packet, outSeq: seq16, mtu: nat, checksum: bool)
    requires mtu >= MIN_MTU && Pieces(p, FragmentLength(mtu, checksum)) && FragmentsOf(wires, p, outSeq, |p|, Offset(p, |p|))
    ensures forall k :: 0 <= k < |wires| ==> DatagramSize(wires[k], checksum) <= mtu
    ensures forall k :: 0 <= k < |wires| - 1 ==> DatagramSize(wires[k], checksum) == mtu
  {
    hide FragmentLength, Offset, DatagramSize;
    forall k | 0 <= k < |wires|
      ensures DatagramSize(wires[k], checksum) <= mtu && (k < |wires| - 1 ==> DatagramSize(wires[k], checksum) == mtu)
    {
      FragmentFills(wires[k], mtu, checksum);
    }
  }

  lemma FewPieces(n: nat, d: nat)
    requires d > 0
    ensures n <= d ==> CeilDiv(n, d) <= 1
    ensures 0 < n <= d ==> CeilDiv(n, d) == 1
    ensures n > d ==> CeilDiv(n, d) > 1
  {
    CeilStep(n, d, 1);
    CeilStep(n, d, 0);
  }

  lemma FragmentWires(wires: seq<Wire>, p: Packet, outSeq: seq16, ps: seq<Packet>)
    requires FragmentsOf(wires, p, outSeq, |p|, Offset(p, |p|)) && |p| > 1 && outSeq == Seq16(Base(ps, |ps|))
    ensures forall k :: 0 <= k < |p| ==> wires[k] == WireOf(ps + [p], |ps|, k)
  {
    hide Seq16, Offset, Base;
    BasePrefix(ps, ps + [p], |ps|);
    var b := Base(ps, |ps|);
    forall k | 0 <= k < |p| ensures wires[k] == WireOf(ps + [p], |ps|, k) {
      SeqAdd(b, 1 + k);
      SeqAdd(b, 1);
    }
  }

  /** Whatever the network does, the data dispatched is a prefix of the data given to send, packet by packet. */
  lemma DataInOrder(steps: seq<Step>, size: nat, l: Link, sent: seq<seq<byte>>)
    requires Run(EMPTY, steps, size, l)
    requires |sent| == |l.ps| && forall i :: 0 <= i < |sent| ==> Concat(l.ps[i]) == sent[i]
    ensures l.receiver.dispatched <= sent
    ensures l.sender.outgoing == [] && l.sender.sent == [] ==> l.receiver.dispatched == sent
  {
    hide Run, Concat;
    DispatchedInOrder(steps, size, l);
    if l.sender.outgoing == [] && l.sender.sent == [] {
      AllDelivered(steps, size, l);
    }
  }
}
