/** What the receiver has, in terms of the packets that were sent: the packets dispatched are the first ones,
    and every queued command is a whole packet or part of one that comes later. */
module EnetOrder {
  import opened Bits
  import opened EnetSequence
  import opened EnetReceive

  /** A packet as it is sent: one command, or one for each fragment. */
  type Packet = seq<seq<byte>>

  function Concat(p: Packet): seq<byte> {
    if p == [] then [] else Concat(p[..|p| - 1]) + p[|p| - 1]
  }

  /** Where piece `k` starts. */
  function Offset(p: Packet, k: nat): nat
    requires k <= |p|
  {
    if k == 0 then 0 else Offset(p, k - 1) + |p[k - 1]|
  }

  /** Packets that the receiver's limits allow; a fragment is never empty. */
  predicate PacketOk(p: Packet, maximumPacketSize: nat) {
    && 1 <= |p| <= MAX_FRAGMENTS && Offset(p, |p|) <= maximumPacketSize
    && (|p| > 1 ==> forall k :: 0 <= k < |p| ==> p[k] != [])
  }

  /** The number of sequence numbers that the first `i` packets use up. */
  function Base(ps: seq<Packet>, i: nat): nat
    requires i <= |ps|
  {
    if i == 0 then 0 else Base(ps, i - 1) + |ps[i - 1]|
  }

  predicate PacketsOk(ps: seq<Packet>, maximumPacketSize: nat) {
    forall i :: 0 <= i < |ps| ==> PacketOk(ps[i], maximumPacketSize)
  }

  lemma {:induction false} BaseMonotone(ps: seq<Packet>, i: nat, j: nat)
    requires i <= j <= |ps|
    ensures Base(ps, i) <= Base(ps, j)
    ensures i < j ==> Base(ps, i) + |ps[i]| <= Base(ps, j)
  {
    if i < j {
      BaseMonotone(ps, i, j - 1);
    }
  }

  lemma {:induction false} BasePrefix(ps: seq<Packet>, qs: seq<Packet>, i: nat)
    requires i <= |ps| && ps <= qs
    ensures Base(qs, i) == Base(ps, i)
  {
    if i > 0 {
      BasePrefix(ps, qs, i - 1);
    }
  }

  // ---------------------------------------------------------------- queued commands

  /** The unbounded number that a queued command's number stands for, when `n` is the last one dispatched. */
  function Start(n: nat, e: Incoming): nat {
    n + Ahead(e.sn, Seq16(n))
  }

  lemma StartStable(n: nat, n': nat, e: Incoming)
    requires n <= n' <= Start(n, e)
    ensures Start(n', e) == Start(n, e)
  {
    StartSeq(n, e);
    AheadUnwrapped(Start(n, e), n');
  }

  lemma StartSeq(n: nat, e: Incoming)
    ensures Seq16(Start(n, e)) == e.sn && n <= Start(n, e) < n + SEQ_MOD
  {
  }

  /** The fragments that have arrived are in their places. */
  predicate Collected(p: Packet, e: Incoming) {
    && |e.data| == Offset(p, |p|)
    && (forall k :: k in e.got ==> 0 <= k < |p|)
    && e.remaining == |p| - |e.got|
    && forall k :: k in e.got ==> Offset(p, k) + |p[k]| <= |e.data| && e.data[Offset(p, k)..Offset(p, k) + |p[k]|] == p[k]
  }

  /** `e` is what has arrived of packet `p`. */
  predicate Holds(p: Packet, e: Incoming) {
    if |p| == 1 then e.count == 0 && e.remaining == 0 && e.data == p[0]
    else e.count == |p| && Collected(p, e)
  }

  predicate Matches(ps: seq<Packet>, n: nat, e: Incoming, i: nat) {
    i < |ps| && Base(ps, i) + 1 == Start(n, e) && Holds(ps[i], e)
  }

  ghost predicate Known(ps: seq<Packet>, n: nat, e: Incoming) {
    && Win(Start(n, e)) <= Win(n) + 6
    && exists i: nat :: Matches(ps, n, e, i)
  }

  predicate Sorted(p: seq<Incoming>, n: nat) {
    forall a, b :: 0 <= a < b < |p| ==> Start(n, p[a]) < Start(n, p[b])
  }

  /** The queue belongs to the packets after the first `m`. */
  ghost predicate QueueOk(ps: seq<Packet>, m: nat, p: seq<Incoming>)
    requires m <= |ps|
  {
    var n := Base(ps, m);
    && Sorted(p, n)
    && (forall j :: 0 <= j < |p| ==> Start(n, p[j]) > n && Known(ps, n, p[j]))
  }

  /** The first `m` packets have been dispatched, in order and complete. */
  ghost predicate Delivered(ps: seq<Packet>, m: nat, r: Receiver) {
    && m <= |ps| && r.inSeq == Seq16(Base(ps, m))
    && |r.dispatched| == m && (forall j :: 0 <= j < m ==> r.dispatched[j] == Concat(ps[j]))
    && QueueOk(ps, m, r.pending)
  }

  /** Nothing that could be dispatched is waiting. */
  predicate Settled(r: Receiver) {
    r.pending == [] || !Ready(r.pending[0], r.inSeq)
  }

  // ---------------------------------------------------------------- what has been received

  /** `u` is one of the numbers whose command is held in `e`. */
  predicate InGroup(n: nat, e: Incoming, u: nat) {
    var s := Start(n, e);
    if e.count == 0 then u == s else u >= s && u - s in e.got
  }

  /** The command with number `u` has been dispatched or is held. */
  ghost predicate Received(n: nat, p: seq<Incoming>, u: nat) {
    u <= n || exists j :: 0 <= j < |p| && InGroup(n, p[j], u)
  }

  lemma Piece(p: Packet, e: Incoming, k: nat)
    requires Collected(p, e) && k < |p| && k in e.got
    ensures Offset(p, k + 1) <= |e.data| && e.data[Offset(p, k)..Offset(p, k + 1)] == p[k]
  {
  }

  lemma JoinPiece(data: seq<byte>, o: nat, o': nat)
    requires o <= o' <= |data|
    ensures data[..o'] == data[..o] + data[o..o']
  {
  }

  /** A complete group is the packet. */
  lemma {:induction false} CollectedPrefix(p: Packet, e: Incoming, k: nat)
    requires Collected(p, e) && k <= |p| && forall i :: 0 <= i < k ==> i in e.got
    ensures Offset(p, k) <= |e.data| && e.data[..Offset(p, k)] == Concat(p[..k])
  {
    hide Collected;
    if k > 0 {
      CollectedPrefix(p, e, k - 1);
      Piece(p, e, k - 1);
      JoinPiece(e.data, Offset(p, k - 1), Offset(p, k));
      assert p[..k][..k - 1] == p[..k - 1];
    }
  }

  lemma {:induction false} FullSet(s: set<nat>, n: nat)
    requires forall k :: k in s ==> k < n
    ensures |s| <= n
    ensures |s| == n ==> forall k :: 0 <= k < n ==> k in s
  {
    if n > 0 {
      if n - 1 in s {
        FullSet(s - {n - 1}, n - 1);
      } else {
        FullSet(s, n - 1);
      }
    } else {
      assert forall k :: k !in s;
      assert s == {};
    }
  }

  lemma ConcatOne(p: Packet)
    requires |p| == 1
    ensures Concat(p) == p[0]
  {
    assert p[..0] == [];
  }

  /** A group is complete exactly when its last missing fragment has arrived, and then it is the packet. */
  lemma Complete(p: Packet, e: Incoming)
    requires p != [] && Holds(p, e)
    ensures e.remaining == 0 <==> (e.count == 0 || forall k :: 0 <= k < |p| ==> k in e.got)
    ensures e.remaining == 0 ==> e.data == Concat(p)
    ensures if |p| == 1 then e.count == 0 else e.count == |p| && forall k: nat :: k in e.got ==> k < |p|
  {
    hide Offset, Concat;
    if |p| == 1 {
      ConcatOne(p);
    } else {
      FullSet(e.got, |p|);
      if e.remaining == 0 {
        CollectedPrefix(p, e, |p|);
        assert p[..|p|] == p;
      }
      if forall k :: 0 <= k < |p| ==> k in e.got {
        SetOfAll(e.got, |p|);
      }
    }
  }

  lemma {:induction false} SetOfAll(s: set<nat>, n: nat)
    requires forall k :: 0 <= k < n ==> k in s
    ensures |s| >= n
  {
    if n > 0 {
      SetOfAll(s - {n - 1}, n - 1);
    }
  }

  // ---------------------------------------------------------------- dispatching

  lemma BaseInjective(ps: seq<Packet>, i: nat, j: nat, size: nat)
    requires PacketsOk(ps, size) && i < |ps| && j < |ps| && Base(ps, i) == Base(ps, j)
    ensures i == j
  {
    assert PacketOk(ps[i], size) && PacketOk(ps[j], size);
    if i < j {
      BaseMonotone(ps, i, j);
    } else if j < i {
      BaseMonotone(ps, j, i);
    }
  }

  lemma StartOfNext(n: nat, e: Incoming)
    requires e.sn == Seq16(Seq16(n) + 1)
    ensures Start(n, e) == n + 1
  {
    hide Ahead, Seq16;
    SeqAdd(n, 1);
    AheadUnwrapped(n + 1, n);
  }

  /** The command that is ready is the next packet, whole. */
  lemma HeadIsNext(ps: seq<Packet>, m: nat, r: Receiver, size: nat)
    requires PacketsOk(ps, size) && Delivered(ps, m, r) && r.pending != [] && Ready(r.pending[0], r.inSeq)
    ensures m < |ps| && Matches(ps, Base(ps, m), r.pending[0], m)
  {
    hide Holds, Start, Win, Base, Seq16;
    var n, e := Base(ps, m), r.pending[0];
    StartOfNext(n, e);
    assert Known(ps, n, e);
    var i: nat :| Matches(ps, n, e, i);
    assert PacketOk(ps[i], size);
    if m == |ps| {
      BaseMonotone(ps, i, m);
    }
    BaseInjective(ps, i, m, size);
  }

  lemma WholeGroup(n: nat, e: Incoming, c: nat)
    requires Start(n, e) == n + 1 && c >= 1
    requires if c == 1 then e.count == 0 else e.count == c && forall k: nat :: k in e.got ==> k < c
    requires e.count == 0 || forall k :: 0 <= k < c ==> k in e.got
    ensures SeqAfter(e) == Seq16(n + c)
    ensures forall u: nat :: InGroup(n, e, u) <==> n < u <= n + c
  {
    StartSeq(n, e);
    SeqAdd(n + 1, c - 1);
    hide Start;
  }

  lemma NextIsWhole(ps: seq<Packet>, m: nat, e: Incoming, size: nat)
    requires PacketsOk(ps, size) && m < |ps| && Matches(ps, Base(ps, m), e, m) && e.remaining == 0
    ensures e.data == Concat(ps[m])
    ensures SeqAfter(e) == Seq16(Base(ps, m + 1))
    ensures forall u: nat :: InGroup(Base(ps, m), e, u) <==> Base(ps, m) < u <= Base(ps, m + 1)
  {
    hide Concat, InGroup, SeqAfter, Seq16, Holds, Offset, Ahead;
    assert PacketOk(ps[m], size);
    Complete(ps[m], e);
    WholeGroup(Base(ps, m), e, |ps[m]|);
  }

  /** Later commands stand for the same numbers when the next packet has been dispatched. */
  lemma TailLater(ps: seq<Packet>, m: nat, r: Receiver, j: nat, size: nat)
    requires PacketsOk(ps, size) && Delivered(ps, m, r) && m < |ps| && 0 < j < |r.pending|
    requires Start(Base(ps, m), r.pending[0]) == Base(ps, m) + 1
    ensures Start(Base(ps, m + 1), r.pending[j]) == Start(Base(ps, m), r.pending[j]) > Base(ps, m + 1)
    ensures Known(ps, Base(ps, m + 1), r.pending[j])
  {
    var n, n', e := Base(ps, m), Base(ps, m + 1), r.pending[j];
    assert Known(ps, n, e);
    var i: nat :| Matches(ps, n, e, i);
    assert Start(n, r.pending[0]) < Start(n, e);
    assert PacketOk(ps[i], size);
    if i <= m {
      BaseMonotone(ps, i, m);
    }
    BaseMonotone(ps, m + 1, i);
    StartStable(n, n', e);
    assert Matches(ps, n', e, i);
  }

  lemma DrainOne(ps: seq<Packet>, m: nat, r: Receiver, size: nat)
    requires PacketsOk(ps, size) && Delivered(ps, m, r) && r.pending != [] && Ready(r.pending[0], r.inSeq)
    ensures m < |ps|
    ensures Delivered(ps, m + 1, Receiver(SeqAfter(r.pending[0]), r.pending[1..], r.dispatched + [r.pending[0].data]))
    ensures forall u: nat :: Received(Base(ps, m), r.pending, u) <==> Received(Base(ps, m + 1), r.pending[1..], u)
  {
    HeadIsNext(ps, m, r, size);
    NextIsWhole(ps, m, r.pending[0], size);
    var n, n', p, q := Base(ps, m), Base(ps, m + 1), r.pending, r.pending[1..];
    forall j | 0 < j < |p|
      ensures Start(n', p[j]) == Start(n, p[j]) > n' && Known(ps, n', p[j])
    {
      TailLater(ps, m, r, j, size);
    }
    TailQueue(ps, m, p);
    TailReceived(n, n', p);
  }

  lemma TailQueue(ps: seq<Packet>, m: nat, p: seq<Incoming>)
    requires m < |ps| && p != [] && Sorted(p, Base(ps, m))
    requires forall j :: 0 < j < |p| ==> Start(Base(ps, m + 1), p[j]) == Start(Base(ps, m), p[j]) > Base(ps, m + 1)
                                         && Known(ps, Base(ps, m + 1), p[j])
    ensures QueueOk(ps, m + 1, p[1..])
  {
    hide Start, Known;
    var q := p[1..];
    assert forall j :: 0 <= j < |q| ==> q[j] == p[j + 1];
  }

  lemma TailReceived(n: nat, n': nat, p: seq<Incoming>)
    requires n <= n' && p != []
    requires forall u: nat :: InGroup(n, p[0], u) <==> n < u <= n'
    requires forall j :: 0 < j < |p| ==> Start(n', p[j]) == Start(n, p[j]) > n'
    ensures forall u: nat :: Received(n, p, u) <==> Received(n', p[1..], u)
  {
    var q := p[1..];
    forall u: nat ensures Received(n, p, u) <==> Received(n', q, u) {
      if Received(n, p, u) && u > n' {
        var j :| 0 <= j < |p| && InGroup(n, p[j], u);
        assert q[j - 1] == p[j];
        assert InGroup(n', q[j - 1], u);
      }
      if Received(n', q, u) && u > n' {
        var j :| 0 <= j < |q| && InGroup(n', q[j], u);
        assert p[j + 1] == q[j];
        assert InGroup(n, p[j + 1], u);
      }
      if n < u <= n' {
        assert InGroup(n, p[0], u);
      }
    }
  }

  /** Dispatching delivers some more packets, leaves nothing that could be dispatched, and loses nothing. */
  lemma {:induction false} DrainDelivers(ps: seq<Packet>, m: nat, r: Receiver, size: nat) returns (m': nat)
    requires PacketsOk(ps, size) && Delivered(ps, m, r)
    ensures m <= m' <= |ps| && Delivered(ps, m', Drain(r)) && Settled(Drain(r))
    ensures forall u: nat :: Received(Base(ps, m), r.pending, u) <==> Received(Base(ps, m'), Drain(r).pending, u)
    decreases |r.pending|
  {
    m' := m;
    if r.pending != [] && Ready(r.pending[0], r.inSeq) {
      DrainOne(ps, m, r, size);
      m' := DrainDelivers(ps, m + 1, Receiver(SeqAfter(r.pending[0]), r.pending[1..], r.dispatched + [r.pending[0].data]), size);
    }
  }
}
