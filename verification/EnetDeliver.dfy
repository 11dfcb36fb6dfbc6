/** One datagram of a known packet arrives: the receiver's state stays right, nothing received is lost,
    and what is acknowledged has been received. */
module EnetDeliver {
  import opened Bits
  import opened EnetSequence
  import opened EnetReceive
  import opened EnetOrder

  /** The datagram for piece `k` of packet `i`, as `__enet_peer_send` makes it. */
  function WireOf(ps: seq<Packet>, i: nat, k: nat): Wire
    requires i < |ps| && k < |ps[i]|
  {
    var p, b := ps[i], Base(ps, i) + 1;
    if |p| == 1 then Reliable(Seq16(b), p[0])
    else Fragment(Seq16(b + k), Seq16(b), k, |p|, Offset(p, k), Offset(p, |p|), p[k])
  }

  // ---------------------------------------------------------------- the queue

  /** In a sorted queue the walk from the end finds the right place. */
  lemma {:induction false} ScanSorted(p: seq<Incoming>, s: seq16, n: nat)
    requires Sorted(p, n)
    ensures
      var (k, found) := Scan(p, s, Seq16(n));
      var u := n + Ahead(s, Seq16(n));
      && (forall j :: 0 <= j < k ==> Start(n, p[j]) < u)
      && (forall j :: k <= j < |p| ==> Start(n, p[j]) >= u)
      && (found <==> k < |p| && Start(n, p[k]) == u)
    decreases |p|
  {
    if p != [] {
      var l := |p| - 1;
      var q := p[..l];
      assert Sorted(q, n) by {
        assert forall j :: 0 <= j < |q| ==> q[j] == p[j];
      }
      BeforeIsAhead(p[l].sn, s, Seq16(n));
      if p[l].sn != s && !Before(p[l].sn, s, Seq16(n)) {
        ScanSorted(q, s, n);
        assert forall j :: 0 <= j < |q| ==> q[j] == p[j];
      }
    }
  }

  lemma InsertQueue(ps: seq<Packet>, m: nat, p: seq<Incoming>, k: nat, e: Incoming)
    requires m <= |ps| && QueueOk(ps, m, p) && k <= |p|
    requires Start(Base(ps, m), e) > Base(ps, m) && Known(ps, Base(ps, m), e)
    requires forall j :: 0 <= j < k ==> Start(Base(ps, m), p[j]) < Start(Base(ps, m), e)
    requires forall j :: k <= j < |p| ==> Start(Base(ps, m), p[j]) > Start(Base(ps, m), e)
    ensures QueueOk(ps, m, Insert(p, k, e))
  {
    hide Start, Known;
    var n, q := Base(ps, m), Insert(p, k, e);
    InsertAt(p, k, e, q);
    InsertSorted(n, p, k, e, q);
    forall j | 0 <= j < |q| ensures Start(n, q[j]) > n && Known(ps, n, q[j]) {
      if j < k {
        assert q[j] == p[j];
      } else if j > k {
        assert q[j] == p[j - 1];
      }
    }
  }

  lemma InsertSorted(n: nat, p: seq<Incoming>, k: nat, e: Incoming, q: seq<Incoming>)
    requires k <= |p| && |q| == |p| + 1 && Sorted(p, n)
    requires (forall a :: 0 <= a < k ==> q[a] == p[a]) && q[k] == e
    requires forall a :: k < a < |q| ==> q[a] == p[a - 1]
    requires forall j :: 0 <= j < k ==> Start(n, p[j]) < Start(n, e)
    requires forall j :: k <= j < |p| ==> Start(n, p[j]) > Start(n, e)
    ensures Sorted(q, n)
  {
    hide Start;
    forall a, b | 0 <= a < b < |q| ensures Start(n, q[a]) < Start(n, q[b]) {
      if b < k {
        assert q[a] == p[a] && q[b] == p[b];
      } else if k < a {
        assert q[a] == p[a - 1] && q[b] == p[b - 1];
      } else if a < k < b {
        assert q[a] == p[a] && q[b] == p[b - 1];
      }
    }
  }

  lemma InsertAt(p: seq<Incoming>, k: nat, e: Incoming, q: seq<Incoming>)
    requires k <= |p| && q == Insert(p, k, e)
    ensures |q| == |p| + 1 && (forall a :: 0 <= a < k ==> q[a] == p[a]) && q[k] == e
    ensures forall a :: k < a < |q| ==> q[a] == p[a - 1]
  {
  }

  lemma InsertReceived(n: nat, p: seq<Incoming>, k: nat, e: Incoming)
    requires k <= |p|
    ensures forall v: nat :: Received(n, Insert(p, k, e), v) <==> Received(n, p, v) || InGroup(n, e, v)
  {
    hide InGroup;
    var q := Insert(p, k, e);
    forall v: nat ensures Received(n, q, v) <==> Received(n, p, v) || InGroup(n, e, v) {
      if j :| 0 <= j < |p| && InGroup(n, p[j], v) {
        assert q[if j < k then j else j + 1] == p[j];
      }
      if j :| 0 <= j < |q| && InGroup(n, q[j], v) {
        assert q[j] == if j < k then p[j] else if j == k then e else p[j - 1];
      }
      assert q[k] == e;
    }
  }

  lemma UpdateQueue(ps: seq<Packet>, m: nat, p: seq<Incoming>, k: nat, e: Incoming)
    requires m <= |ps| && QueueOk(ps, m, p) && k < |p| && e.sn == p[k].sn
    requires Known(ps, Base(ps, m), e)
    ensures QueueOk(ps, m, p[k := e])
  {
    assert Start(Base(ps, m), e) == Start(Base(ps, m), p[k]);
    hide Start, Known;
  }

  lemma UpdateReceived(n: nat, p: seq<Incoming>, k: nat, e: Incoming, u: nat)
    requires k < |p|
    requires forall v: nat :: InGroup(n, e, v) <==> InGroup(n, p[k], v) || v == u
    ensures forall v: nat :: Received(n, p[k := e], v) <==> Received(n, p, v) || (v == u)
  {
    hide InGroup;
    var q := p[k := e];
    forall v: nat ensures Received(n, q, v) <==> Received(n, p, v) || v == u {
      if j :| 0 <= j < |p| && InGroup(n, p[j], v) {
        assert InGroup(n, q[j], v);
      }
      if j :| 0 <= j < |q| && InGroup(n, q[j], v) {
        assert j != k ==> InGroup(n, p[j], v);
      }
      assert InGroup(n, q[k], u);
    }
  }

  // ---------------------------------------------------------------- packets and numbers

  /** A number belongs to one packet. */
  lemma OnePacket(ps: seq<Packet>, i: nat, j: nat, u: nat)
    requires i < |ps| && j < |ps|
    requires Base(ps, i) < u <= Base(ps, i) + |ps[i]| && Base(ps, j) < u <= Base(ps, j) + |ps[j]|
    ensures i == j
  {
    if i < j {
      BaseMonotone(ps, i, j);
    } else if j < i {
      BaseMonotone(ps, j, i);
    }
  }

  /** The numbers held in a command are numbers of its packet. */
  lemma GroupRange(ps: seq<Packet>, n: nat, e: Incoming, i: nat, u: nat)
    requires Matches(ps, n, e, i) && InGroup(n, e, u) && ps[i] != []
    ensures Base(ps, i) < u <= Base(ps, i) + |ps[i]|
  {
  }

  lemma PacketNonempty(ps: seq<Packet>, i: nat, size: nat)
    requires PacketsOk(ps, size) && i < |ps|
    ensures ps[i] != []
  {
    assert PacketOk(ps[i], size);
  }

  lemma KnownPacket(ps: seq<Packet>, n: nat, e: Incoming, i: nat, u: nat, size: nat)
    requires PacketsOk(ps, size) && Known(ps, n, e) && InGroup(n, e, u)
    requires i < |ps| && Base(ps, i) < u <= Base(ps, i) + |ps[i]|
    ensures Matches(ps, n, e, i) && Win(Base(ps, i) + 1) <= Win(n) + 6
  {
    hide Holds, InGroup, Start, Base, Win, PacketsOk;
    var i': nat :| Matches(ps, n, e, i');
    PacketNonempty(ps, i', size);
    GroupRange(ps, n, e, i', u);
    OnePacket(ps, i, i', u);
  }

  // ---------------------------------------------------------------- arrivals

  ghost predicate RecvOk(ps: seq<Packet>, m: nat, r: Receiver) {
    Delivered(ps, m, r) && Settled(r)
  }

  /** From `r` to `r'` nothing received is lost, and at most `u` is new. */
  ghost predicate Grows(n: nat, r: Receiver, n': nat, r': Receiver, u: nat) {
    forall v: nat ::
      && (Received(n, r.pending, v) ==> Received(n', r'.pending, v))
      && (Received(n', r'.pending, v) ==> Received(n, r.pending, v) || v == u)
  }

  /** A datagram that is not staler than nine windows and not younger than the sender's window allows. */
  predicate Timely(n: nat, start: nat, u: nat) {
    Win(n) <= Win(start) + 9 && (u > n ==> Win(u) <= Win(n) + 8)
  }

  lemma NearEnough(n: nat, u: nat)
    requires Win(u) <= Win(n) + 9
    ensures u < n + SEQ_MOD
  {
  }

  /** What the receiver's window checks say about a timely number. */
  lemma TimelyWindow(n: nat, u: nat)
    requires Timely(n, u, u)
    ensures u < n ==> !InWindow(Seq16(u), Seq16(n))
    ensures u > n ==> Ahead(Seq16(u), Seq16(n)) == u - n && Seq16(u) != Seq16(n)
    ensures u > n ==> (InWindow(Seq16(u), Seq16(n)) <==> Win(u) <= Win(n) + 6)
    ensures u > n && !InWindow(Seq16(u), Seq16(n)) ==> !MayAck(Seq16(u), Seq16(n))
  {
    if u < n {
      NearEnough(u, n);
      StaleRejected(u, n);
    } else if u > n {
      NearEnough(n, u);
      AheadUnwrapped(u, n);
      AheadWindows(u, n);
    }
  }

  /** A whole packet arrives in the window: it is a duplicate, or it is queued. */
  lemma QueueWhole(ps: seq<Packet>, m: nat, r: Receiver, i: nat, size: nat, k: nat, found: bool)
    requires PacketsOk(ps, size) && RecvOk(ps, m, r) && i < |ps| && |ps[i]| == 1
    requires
      var n, u := Base(ps, m), Base(ps, i) + 1;
      u > n && Win(u) <= Win(n) + 6 && Ahead(Seq16(u), Seq16(n)) == u - n
      && (k, found) == Scan(r.pending, Seq16(u), Seq16(n))
    ensures found ==> Received(Base(ps, m), r.pending, Base(ps, i) + 1)
    ensures !found ==>
      var p' := Insert(r.pending, k, Incoming(Seq16(Base(ps, i) + 1), 0, 0, {}, ps[i][0]));
      && Delivered(ps, m, r.(pending := p'))
      && forall v: nat :: Received(Base(ps, m), p', v) <==> Received(Base(ps, m), r.pending, v) || v == Base(ps, i) + 1
  {
    hide Win, Base, Scan, Insert;
    var n, u := Base(ps, m), Base(ps, i) + 1;
    ScanSorted(r.pending, Seq16(u), n);
    if found {
      var e := r.pending[k];
      assert Known(ps, n, e);
      StartIsPacket(ps, n, e, i, size);
    } else {
      var e := Incoming(Seq16(u), 0, 0, {}, ps[i][0]);
      assert Start(n, e) == u;
      assert Matches(ps, n, e, i);
      InsertQueue(ps, m, r.pending, k, e);
      InsertReceived(n, r.pending, k, e);
    }
  }

  /** The queued command with a packet's first number is that packet's. */
  lemma StartIsPacket(ps: seq<Packet>, n: nat, e: Incoming, i: nat, size: nat)
    requires PacketsOk(ps, size) && Known(ps, n, e) && i < |ps| && Start(n, e) == Base(ps, i) + 1
    ensures Matches(ps, n, e, i)
    ensures |ps[i]| == 1 ==> e.count == 0 && InGroup(n, e, Base(ps, i) + 1)
  {
    hide Win, Base, Start, Collected;
    var i': nat :| Matches(ps, n, e, i');
    BaseInjective(ps, i, i', size);
  }

  lemma ReliableArrives(ps: seq<Packet>, m: nat, r: Receiver, i: nat, size: nat, refuse: bool) returns (m': nat)
    requires PacketsOk(ps, size) && RecvOk(ps, m, r) && i < |ps| && |ps[i]| == 1
    requires Timely(Base(ps, m), Base(ps, i) + 1, Base(ps, i) + 1)
    ensures m <= m' <= |ps|
    ensures
      var u := Base(ps, i) + 1;
      var (r', ok) := ReceiveReliable(r, Seq16(u), ps[i][0], refuse);
      && RecvOk(ps, m', r') && Grows(Base(ps, m), r, Base(ps, m'), r', u)
      && (ok && MayAck(Seq16(u), r'.inSeq) ==> Received(Base(ps, m'), r'.pending, u))
  {
    hide Win, Scan, Insert, Known, Ahead, InWindow, MayAck, Drain;
    var n, u := Base(ps, m), Base(ps, i) + 1;
    m' := m;
    TimelyWindow(n, u);
    if u > n && InWindow(Seq16(u), r.inSeq) {
      var (k, found) := Scan(r.pending, Seq16(u), r.inSeq);
      QueueWhole(ps, m, r, i, size, k, found);
      if !found && !refuse {
        var e := Incoming(Seq16(u), 0, 0, {}, ps[i][0]);
        m' := DrainDelivers(ps, m, r.(pending := Insert(r.pending, k, e)), size);
      }
    }
  }

  // ---------------------------------------------------------------- fragments

  lemma {:induction false} OffsetMonotone(p: Packet, j: nat, k: nat)
    requires j <= k <= |p|
    ensures Offset(p, j) <= Offset(p, k)
    ensures j < k ==> Offset(p, j) + |p[j]| <= Offset(p, k)
  {
    if j < k {
      OffsetMonotone(p, j, k - 1);
    }
  }

  lemma {:induction false} OffsetAtLeast(p: Packet, k: nat)
    requires k <= |p| && forall j :: 0 <= j < |p| ==> p[j] != []
    ensures Offset(p, k) >= k
  {
    if k > 0 {
      OffsetAtLeast(p, k - 1);
    }
  }

  /** Every fragment the sender makes passes the receiver's checks. */
  lemma FragmentPasses(ps: seq<Packet>, i: nat, k: nat, size: nat)
    requires PacketsOk(ps, size) && i < |ps| && k < |ps[i]| && |ps[i]| > 1
    ensures
      var f := WireOf(ps, i, k);
      f.data != [] && |f.data| <= size && FragmentOk(f, size)
  {
    var p := ps[i];
    assert PacketOk(p, size);
    OffsetMonotone(p, k, |p|);
    OffsetAtLeast(p, |p|);
  }

  /** Storing a piece leaves the others in place. */
  lemma StoreKeepsPiece(p: Packet, e: Incoming, k: nat, j: nat)
    requires Collected(p, e) && k < |p| && k !in e.got && (j in e.got || j == k)
    requires Offset(p, k) + |p[k]| <= |e.data|
    ensures j < |p| && Offset(p, j) + |p[j]| <= |e.data|
    ensures Store(e, k, Offset(p, k), p[k]).data[Offset(p, j)..Offset(p, j) + |p[j]|] == p[j]
  {
    if j < k {
      OffsetMonotone(p, j, k);
    } else if j > k {
      OffsetMonotone(p, k, j);
    }
    hide Offset;
    if j != k {
      StoreElsewhere(e.data, Offset(p, k), p[k], Offset(p, j), Offset(p, j) + |p[j]|);
    }
  }

  lemma StoreCollects(p: Packet, e: Incoming, k: nat)
    requires Collected(p, e) && k < |p| && k !in e.got && |p| <= MAX_FRAGMENTS
    ensures Offset(p, k) + |p[k]| <= |e.data|
    ensures Collected(p, Store(e, k, Offset(p, k), p[k]))
    ensures Store(e, k, Offset(p, k), p[k]).remaining == e.remaining - 1
  {
    hide Offset;
    OffsetMonotone(p, k, |p|);
    RoomLeft(e.got, |p|, k);
    var e' := Store(e, k, Offset(p, k), p[k]);
    assert e'.got == e.got + {k} && |e'.data| == |e.data|;
    forall j | j in e'.got
      ensures 0 <= j < |p| && Offset(p, j) + |p[j]| <= |e'.data|
      ensures e'.data[Offset(p, j)..Offset(p, j) + |p[j]|] == p[j]
    {
      StoreKeepsPiece(p, e, k, j);
    }
  }

  lemma StoreElsewhere(data: seq<byte>, o: nat, piece: seq<byte>, a: nat, b: nat)
    requires o + |piece| <= |data| && a <= b <= |data| && (b <= o || o + |piece| <= a)
    ensures (data[..o] + piece + data[o + |piece|..])[a..b] == data[a..b]
  {
  }

  lemma RoomLeft(s: set<nat>, n: nat, k: nat)
    requires k < n && k !in s && forall j :: j in s ==> 0 <= j < n
    ensures |s| < n
  {
    FullSet(s, n);
  }

  /** A fragment is stored in the group of its packet. */
  lemma StoreArrives(ps: seq<Packet>, m: nat, r: Receiver, i: nat, k: nat, at: nat, size: nat) returns (m': nat)
    requires PacketsOk(ps, size) && RecvOk(ps, m, r) && i < |ps| && k < |ps[i]| && |ps[i]| > 1
    requires at < |r.pending| && Matches(ps, Base(ps, m), r.pending[at], i)
    requires WireOf(ps, i, k).offset + |WireOf(ps, i, k).data| <= |r.pending[at].data|
    ensures m <= m' <= |ps|
    ensures
      var u := Base(ps, i) + 1 + k;
      var r' := StoreAt(r, at, WireOf(ps, i, k));
      && RecvOk(ps, m', r') && Grows(Base(ps, m), r, Base(ps, m'), r', u)
      && Received(Base(ps, m'), r'.pending, u)
  {
    hide Win, Drain, Collected, Base, Ahead;
    var n, e, p := Base(ps, m), r.pending[at], ps[i];
    var u := Base(ps, i) + 1 + k;
    var e' := Store(e, k, Offset(p, k), p[k]);
    m' := m;
    if k in e.got {
      assert r.pending[at := e] == r.pending;
      assert InGroup(n, e, u);
    } else {
      assert PacketOk(p, size);
      StoreCollects(p, e, k);
      assert Matches(ps, n, e', i);
      assert Known(ps, n, r.pending[at]);
      UpdateQueue(ps, m, r.pending, at, e');
      UpdateReceived(n, r.pending, at, e', u);
      var r1 := r.(pending := r.pending[at := e']);
      if e'.remaining == 0 {
        m' := DrainDelivers(ps, m, r1, size);
      }
    }
  }

  /** The window checks on a group's first number decide for all its fragments. */
  lemma StartTimely(ps: seq<Packet>, m: nat, i: nat, k: nat, size: nat)
    requires PacketsOk(ps, size) && m <= |ps| && i < |ps| && k < |ps[i]| && |ps[i]| > 1
    requires Timely(Base(ps, m), Base(ps, i) + 1, Base(ps, i) + 1 + k)
    ensures
      var n, b := Base(ps, m), Base(ps, i) + 1;
      && (b <= n ==> b + k <= n && !InWindow(Seq16(b), Seq16(n)))
      && (b > n ==> Ahead(Seq16(b), Seq16(n)) == b - n && Seq16(b) != Seq16(n))
      && (b > n ==> (InWindow(Seq16(b), Seq16(n)) <==> Win(b) <= Win(n) + 6))
      && (b > n && !InWindow(Seq16(b), Seq16(n)) ==> !MayAck(Seq16(b + k), Seq16(n)))
  {
    hide Base, Seq16, Win, InWindow, MayAck, Ahead, Timely;
    var n, b := Base(ps, m), Base(ps, i) + 1;
    TimelyStart(n, b, b + k);
    TimelyWindow(n, b);
    if b <= n {
      if i >= m {
        BaseMonotone(ps, m, i);
      }
      BaseMonotone(ps, i, m);
    } else {
      AheadRefused(n, b, b + k);
    }
  }

  lemma TimelyStart(n: nat, b: nat, u: nat)
    requires Timely(n, b, u) && b <= u
    ensures Timely(n, b, b)
    ensures u > n ==> Win(u) <= Win(n) + 8
  {
  }

  /** A fragment whose group starts beyond the accepted windows is not acknowledged. */
  lemma AheadRefused(n: nat, b: nat, u: nat)
    requires n < b <= u && Win(u) <= Win(n) + 8
    ensures Win(b) > Win(n) + 6 ==> !MayAck(Seq16(u), Seq16(n))
  {
    NearEnough(n, u);
    AheadWindows(u, n);
    hide MayAck, Seq16;
  }

  lemma FoundGroup(ps: seq<Packet>, m: nat, r: Receiver, i: nat, at: nat, size: nat)
    requires PacketsOk(ps, size) && RecvOk(ps, m, r) && i < |ps| && |ps[i]| > 1
    requires
      var n, b := Base(ps, m), Base(ps, i) + 1;
      b > n && Ahead(Seq16(b), Seq16(n)) == b - n && (at, true) == Scan(r.pending, Seq16(b), Seq16(n))
    ensures at < |r.pending| && Matches(ps, Base(ps, m), r.pending[at], i)
    ensures r.pending[at].count == |ps[i]| && |r.pending[at].data| == Offset(ps[i], |ps[i]|)
  {
    hide Win, Base, Scan, Settled;
    var n, b := Base(ps, m), Base(ps, i) + 1;
    ScanSorted(r.pending, Seq16(b), n);
    assert Known(ps, n, r.pending[at]);
    StartIsPacket(ps, n, r.pending[at], i, size);
  }

  /** The first fragment to arrive opens its group; nothing becomes ready by that. */
  lemma NewGroup(ps: seq<Packet>, m: nat, r: Receiver, i: nat, at: nat, size: nat) returns (r0: Receiver)
    requires PacketsOk(ps, size) && RecvOk(ps, m, r) && i < |ps| && |ps[i]| > 1
    requires
      var n, b := Base(ps, m), Base(ps, i) + 1;
      && b > n && Win(b) <= Win(n) + 6 && Ahead(Seq16(b), Seq16(n)) == b - n
      && (at, false) == Scan(r.pending, Seq16(b), Seq16(n))
    ensures at <= |r.pending|
    ensures
      var p := ps[i];
      var e := Incoming(Seq16(Base(ps, i) + 1), |p|, |p|, {}, seq(Offset(p, |p|), _ => 0));
      r0 == r.(pending := Insert(r.pending, at, e)) && |r0.pending| == |r.pending| + 1 && r0.pending[at] == e
    ensures Drain(r0) == r0 && RecvOk(ps, m, r0) && Matches(ps, Base(ps, m), r0.pending[at], i)
    ensures forall v: nat :: Received(Base(ps, m), r0.pending, v) <==> Received(Base(ps, m), r.pending, v)
  {
    hide Win, Base, Scan, Offset, Insert;
    var n, b, p := Base(ps, m), Base(ps, i) + 1, ps[i];
    var e := Incoming(Seq16(b), |p|, |p|, {}, seq(Offset(p, |p|), _ => 0));
    ScanSorted(r.pending, Seq16(b), n);
    assert Start(n, e) == b;
    assert Matches(ps, n, e, i);
    InsertQueue(ps, m, r.pending, at, e);
    InsertReceived(n, r.pending, at, e);
    InsertAt(r.pending, at, e, Insert(r.pending, at, e));
    r0 := r.(pending := Insert(r.pending, at, e));
  }

  lemma FragmentArrives(ps: seq<Packet>, m: nat, r: Receiver, i: nat, k: nat, size: nat, refuse: bool) returns (m': nat)
    requires PacketsOk(ps, size) && RecvOk(ps, m, r) && i < |ps| && k < |ps[i]| && |ps[i]| > 1
    requires Timely(Base(ps, m), Base(ps, i) + 1, Base(ps, i) + 1 + k)
    ensures m <= m' <= |ps|
    ensures
      var u := Base(ps, i) + 1 + k;
      var (r', ok) := ReceiveFragment(r, WireOf(ps, i, k), size, refuse);
      && RecvOk(ps, m', r') && Grows(Base(ps, m), r, Base(ps, m'), r', u)
      && (ok && MayAck(Seq16(u), r'.inSeq) ==> Received(Base(ps, m'), r'.pending, u))
  {
    hide Win, Scan, Insert, Known, Ahead, InWindow, MayAck, Drain, StoreAt, FragmentOk, Holds, Offset;
    var n, b := Base(ps, m), Base(ps, i) + 1;
    var f := WireOf(ps, i, k);
    m' := m;
    FragmentPasses(ps, i, k, size);
    StartTimely(ps, m, i, k, size);
    if b > n && InWindow(Seq16(b), r.inSeq) {
      var (at, found) := Scan(r.pending, Seq16(b), r.inSeq);
      if found {
        FoundGroup(ps, m, r, i, at, size);
        m' := StoreArrives(ps, m, r, i, k, at, size);
      } else if !refuse {
        var r0 := NewGroup(ps, m, r, i, at, size);
        m' := StoreArrives(ps, m, r0, i, k, at, size);
      }
    }
  }
}
