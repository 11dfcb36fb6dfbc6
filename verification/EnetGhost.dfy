/** What becomes of a channel when a fragment that is too old arrives once: it is taken for a new one, and when the numbers
    have come round, a packet is acknowledged, never dispatched, and nothing after it either. */
module EnetGhost {
  import opened Bits
  import opened EnetSequence
  import opened Masks
  import opened EnetReceive
  import opened EnetOrder
  import opened EnetDeliver
  import opened EnetSend
  import opened EnetWindow
  import opened EnetLink
  import opened EnetRecover
  import opened EnetRounds
  import opened EnetStale

  /** The number that has the same 16 bits as the first one of the long packet, one turn later. */
  const GHOST: nat := SEQ_MOD + FIRST + 1

  // ---------------------------------------------------------------- the ghost

  /** A group of fragments that belongs to no packet. */
  predicate IsGhost(e: Incoming) {
    e.sn == Seq16(GHOST) && e.count > 0 && e.remaining > 0 && 0 !in e.got
  }

  /** The last fragment of the long packet, delivered when everything has been dispatched, starts a group and is acknowledged. */
  lemma TakenForNew(f: nat, size: nat, r: Receiver)
    requires f >= 1 && size >= LONG * f && r.pending == [] && r.inSeq == Seq16(TOTAL)
    ensures |Four(f)[1]| == LONG
    ensures
      var (r', acked) := Receive(r, WireOf(Four(f), 1, LONG - 1), size, false);
      acked && r'.inSeq == r.inSeq && r'.dispatched == r.dispatched && |r'.pending| == 1 && IsGhost(r'.pending[0])
  {
    hide Base, Offset;
    FourBase(f);
    UniformLength(LONG, f);
    UniformOffset(LONG, f, LONG - 1);
    UniformOffset(LONG, f, LONG);
  }

  // ---------------------------------------------------------------- the numbers come round

  /** The channel is idle, but for the ghost. */
  ghost predicate Haunted(l: Link, n: nat) {
    && SenderOk(l.sender, n, n) && l.sender.sent == [] && l.sender.outgoing == [] && Base(l.ps, |l.ps|) == n
    && l.receiver.inSeq == Seq16(n) && |l.receiver.dispatched| == |l.ps|
    && |l.receiver.pending| == 1 && IsGhost(l.receiver.pending[0])
    && (forall u :: u in l.net ==> 1 <= u <= n) && (forall a :: a in l.acks ==> 1 <= a <= n)
  }

  /** A packet of one byte. */
  const TINY: Packet := [[0]]

  lemma TinyOk(size: nat)
    requires size >= 1
    ensures PacketOk(TINY, size)
  {
    assert Offset(TINY, 1) == Offset(TINY, 0) + 1;
  }

  /** It is queued and sent ... */
  lemma TinyOut(l: Link, n: nat, flow: Flow, size: nat) returns (steps: seq<Step>, l': Link)
    requires Haunted(l, n) && FlowOk(flow) && size >= 1
    ensures Run(l, steps, size, l') && Uses(steps, flow) && l' == l.(ps := l.ps + [TINY], sender := l'.sender, net := l.net + {n + 1})
    ensures SenderOk(l'.sender, n + 1, n + 1) && l'.sender.outgoing == [] && l'.sender.sent == [OutCmd(n + 1, 1, 1)]
  {
    hide SenderOk, Base, LimitOf, FlowOk, Gated, PacketOk, Run, IsGhost;
    TinyOk(size);
    QueueStep(l.sender, n, n, 1);
    var l1 := Apply(l, Send(TINY), size);
    assert l1.sender == Queue(l.sender, n + 1, 1) by {
      QueueTiny(l.sender, n);
    }
    RunOne(l, Send(TINY), size);
    RoomForTwo(flow);
    LimitRange(flow);
    SentParts(l1.sender, n);
    NeverStuck(l1.sender, n + 1, n, LimitOf(flow));
    SendNewOk(l1.sender, n + 1, n, LimitOf(flow));
    l' := Apply(l1, Transmit(flow), size);
    RunOne(l1, Transmit(flow), size);
    steps := [Send(TINY)] + [Transmit(flow)];
    RunJoin(l, [Send(TINY)], l1, [Transmit(flow)], size, l');
  }

  lemma QueueTiny(s: Sender, n: nat)
    ensures QueueAll(s, n, TINY, |TINY|) == Queue(s, n + 1, 1)
  {
    assert QueueAll(s, n, TINY, 1) == Queue(QueueAll(s, n, TINY, 0), n + 1, |TINY[0]|);
  }

  lemma SentParts(s: Sender, n: nat)
    requires SenderOk(s, n + 1, n)
    ensures |s.windows| == WINDOWS
  {
  }

  /** ... and its acknowledgement ends it. */
  lemma TinyAcked(l: Link, n: nat, size: nat) returns (l': Link)
    requires SenderOk(l.sender, n, n) && l.sender.outgoing == [] && l.sender.sent == [OutCmd(n, 1, 1)]
    requires Base(l.ps, |l.ps|) == n && n >= 1 && n in l.acks
    ensures Run(l, [Ack(n)], size, l') && l' == l.(sender := l'.sender)
    ensures SenderOk(l'.sender, n, n) && l'.sender.outgoing == [] && l'.sender.sent == []
  {
    hide SenderOk, Base, Acknowledge, Win;
    WindowsOf(l.sender, n);
    NewestIs(l, n);
    AckOk(l.sender, n, n, n);
    OnlyAcked(l.sender, n);
    l' := Apply(l, Ack(n), size);
    RunOne(l, Ack(n), size);
  }

  lemma WindowsOf(s: Sender, n: nat)
    requires SenderOk(s, n, n)
    ensures |s.windows| == WINDOWS
  {
  }

  lemma OnlyAcked(s: Sender, n: nat)
    requires |s.windows| == WINDOWS && s.sent == [OutCmd(n, 1, 1)]
    ensures Acknowledge(s, Seq16(n)).sent == [] && Acknowledge(s, Seq16(n)).outgoing == s.outgoing
  {
    hide ClearBit;
    assert IndexOf(s.sent, Seq16(n)) == 0;
  }

  /** A packet whose number is not the ghost's is dispatched in front of it. */
  lemma TinyTaken(r: Receiver, n: nat, size: nat)
    requires r.inSeq == Seq16(n) && |r.pending| == 1 && IsGhost(r.pending[0]) && TOTAL <= n < GHOST - 1 && size >= 1
    ensures
      var (r', acked) := Receive(r, Reliable(Seq16(n + 1), TINY[0]), size, false);
      acked && r' == Receiver(Seq16(n + 1), r.pending, r.dispatched + [TINY[0]])
  {
    hide Scan, Drain, Insert, InWindow, MayAck, Ahead;
    var s := Seq16(n + 1);
    NextInWindow(n);
    InFront(r.pending, n);
    var e := Incoming(s, 0, 0, {}, TINY[0]);
    assert Insert(r.pending, 0, e) == [e] + r.pending by {
      InsertFront(r.pending, e);
    }
    SeqAdd(n, 1);
    DrainOnly(r.(pending := [e] + r.pending));
  }

  lemma InsertFront(p: seq<Incoming>, e: Incoming)
    ensures Insert(p, 0, e) == [e] + p
  {
  }

  lemma InFront(p: seq<Incoming>, n: nat)
    requires |p| == 1 && IsGhost(p[0]) && TOTAL <= n < GHOST - 1
    ensures Scan(p, Seq16(n + 1), Seq16(n)) == (0, false)
  {
    hide Before, Ahead;
    BeforeIsAhead(p[0].sn, Seq16(n + 1), Seq16(n));
    AheadUnwrapped(GHOST, n);
    AheadUnwrapped(n + 1, n);
    assert p[..0] == [];
  }

  lemma DrainOnly(r: Receiver)
    requires |r.pending| == 2 && Ready(r.pending[0], r.inSeq) && r.pending[1].remaining > 0
    ensures Drain(r) == Receiver(SeqAfter(r.pending[0]), [r.pending[1]], r.dispatched + [r.pending[0].data])
  {
    assert r.pending[1..] == [r.pending[1]];
  }

  lemma NextInWindow(n: nat)
    ensures InWindow(Seq16(n + 1), Seq16(n)) && Seq16(n + 1) != Seq16(n) && MayAck(Seq16(n + 1), Seq16(n + 1))
  {
    AheadWindows(n + 1, n);
    AheadWindows(n + 1, n + 1);
  }

  /** The datagram of the packet just sent. */
  lemma TinyWire(ps: seq<Packet>, n: nat)
    requires Base(ps, |ps|) == n
    ensures Base(ps + [TINY], |ps|) == n && Base(ps + [TINY], |ps| + 1) == n + 1
    ensures WireOf(ps + [TINY], |ps|, 0) == Reliable(Seq16(n + 1), TINY[0])
  {
    BasePrefix(ps, ps + [TINY], |ps|);
    BaseStep(ps + [TINY], |ps|);
  }

  lemma TinyRound(l: Link, n: nat, flow: Flow, size: nat) returns (steps: seq<Step>, l': Link)
    requires Haunted(l, n) && TOTAL <= n < GHOST - 1 && FlowOk(flow) && size >= 1
    ensures Run(l, steps, size, l') && Uses(steps, flow) && Haunted(l', n + 1)
  {
    hide SenderOk, Base, LimitOf, FlowOk, Run, IsGhost, Receive, WireOf;
    var s1, l1 := TinyOut(l, n, flow, size);
    TinyWire(l.ps, n);
    TinyTaken(l.receiver, n, size);
    var st := Data(|l.ps|, 0, false);
    FreshStart(n);
    var l2 := Apply(l1, st, size);
    RunOne(l1, st, size);
    RunJoin(l, s1, l1, [st], size, l2);
    var l3 := TinyAcked(l2, n + 1, size);
    RunJoin(l, s1 + [st], l2, [Ack(n + 1)], size, l3);
    steps, l' := s1 + [st] + [Ack(n + 1)], l3;
  }

  lemma FreshStart(n: nat)
    ensures Win(n) <= Win(n + 1) + 9
  {
  }

  lemma {:induction false} TinyRounds(l: Link, n: nat, flow: Flow, size: nat) returns (steps: seq<Step>, l': Link)
    requires Haunted(l, n) && TOTAL <= n <= GHOST - 1 && FlowOk(flow) && size >= 1
    ensures Run(l, steps, size, l') && Uses(steps, flow) && Haunted(l', GHOST - 1)
    decreases GHOST - n
  {
    hide Haunted, FlowOk;
    steps, l' := [], l;
    if n < GHOST - 1 {
      var s1, l1 := TinyRound(l, n, flow, size);
      var s2;
      s2, l' := TinyRounds(l1, n + 1, flow, size);
      RunJoin(l, s1, l1, s2, size, l');
      steps := s1 + s2;
    }
  }

  // ---------------------------------------------------------------- the packet that is lost

  /** A packet with the ghost's number is acknowledged and thrown away. */
  lemma TinyLost(r: Receiver, size: nat)
    requires r.inSeq == Seq16(GHOST - 1) && |r.pending| == 1 && IsGhost(r.pending[0]) && size >= 1
    ensures Receive(r, Reliable(Seq16(GHOST), TINY[0]), size, false) == (r, true)
  {
  }

  /** Every packet but the last has been dispatched, and the last has been acknowledged; it is not held. */
  ghost predicate Lost(l: Link) {
    && SenderOk(l.sender, GHOST, GHOST) && l.sender.sent == [] && l.sender.outgoing == [] && Base(l.ps, |l.ps|) == GHOST
    && |l.ps| >= 1 && |l.receiver.dispatched| == |l.ps| - 1 && |l.ps[|l.ps| - 1]| == 1
    && l.receiver.inSeq == Seq16(GHOST - 1) && |l.receiver.pending| == 1 && IsGhost(l.receiver.pending[0])
    && (forall u :: u in l.net ==> 1 <= u <= GHOST) && (forall a :: a in l.acks ==> 1 <= a <= GHOST) && GHOST in l.acks
  }

  lemma LastRound(l: Link, flow: Flow, size: nat) returns (steps: seq<Step>, l': Link)
    requires Haunted(l, GHOST - 1) && FlowOk(flow) && size >= 1
    ensures Run(l, steps, size, l') && Uses(steps, flow) && Lost(l')
  {
    hide SenderOk, Base, LimitOf, FlowOk, Run, IsGhost, Receive, WireOf;
    var s1, l1 := TinyOut(l, GHOST - 1, flow, size);
    TinyWire(l.ps, GHOST - 1);
    TinyLost(l.receiver, size);
    var st := Data(|l.ps|, 0, false);
    FreshStart(GHOST - 1);
    var l2 := Apply(l1, st, size);
    RunOne(l1, st, size);
    RunJoin(l, s1, l1, [st], size, l2);
    l' := TinyAcked(l2, GHOST, size);
    RunJoin(l, s1 + [st], l2, [Ack(GHOST)], size, l');
    steps := s1 + [st] + [Ack(GHOST)];
  }

  // ---------------------------------------------------------------- forever

  /** The ghost heads the queue, and it is next in line. */
  predicate Jammed(r: Receiver) {
    && r.inSeq == Seq16(GHOST - 1) && r.pending != [] && IsGhost(r.pending[0])
    && forall j :: 0 <= j < |r.pending| ==> r.pending[j].sn != r.inSeq
  }

  lemma JamStays(r: Receiver)
    requires Jammed(r)
    ensures Drain(r) == r
  {
  }

  /** Whatever else arrives has its place behind the ghost. */
  lemma {:induction false} ScanBehind(p: seq<Incoming>, s: seq16, inSeq: seq16)
    requires p != [] && inSeq == Seq16(GHOST - 1) && p[0].sn == Seq16(GHOST) && s != inSeq
    requires forall j :: 0 <= j < |p| ==> p[j].sn != inSeq
    ensures if s == p[0].sn then Scan(p, s, inSeq).1 else Scan(p, s, inSeq).0 >= 1
    decreases |p|
  {
    var n := |p| - 1;
    AheadOne(p[n].sn, s, inSeq);
    if n > 0 && p[n].sn != s && !Before(p[n].sn, s, inSeq) {
      ScanBehind(p[..n], s, inSeq);
    }
  }

  lemma AheadOne(e: seq16, s: seq16, inSeq: seq16)
    requires inSeq == Seq16(GHOST - 1) && s != inSeq && e != inSeq
    ensures s == Seq16(GHOST) ==> !Before(e, s, inSeq)
    ensures e == Seq16(GHOST) && e != s ==> Before(e, s, inSeq)
  {
  }

  /** The queue stays jammed when a command is put behind the ghost, or a group behind it changes. */
  lemma JamInsert(r: Receiver, k: nat, e: Incoming)
    requires Jammed(r) && 1 <= k <= |r.pending| && e.sn != r.inSeq
    ensures Jammed(r.(pending := Insert(r.pending, k, e)))
  {
    var q := Insert(r.pending, k, e);
    forall j | 0 <= j < |q| ensures q[j].sn != r.inSeq {
      assert q[j] == if j < k then r.pending[j] else if j == k then e else r.pending[j - 1];
    }
  }

  lemma JamStore(r: Receiver, k: nat, f: Wire)
    requires Jammed(r) && f.Fragment? && 1 <= k < |r.pending| && f.offset + |f.data| <= |r.pending[k].data|
    ensures
      var r' := StoreAt(r, k, f);
      Jammed(r') && r'.dispatched == r.dispatched
  {
    var e := Store(r.pending[k], f.number, f.offset, f.data);
    JamStays(r.(pending := r.pending[k := e]));
  }

  lemma JamReliable(r: Receiver, s: seq16, data: seq<byte>, refuse: bool)
    requires Jammed(r)
    ensures
      var r' := ReceiveReliable(r, s, data, refuse).0;
      Jammed(r') && r'.dispatched == r.dispatched
  {
    hide Scan, Insert, Drain, InWindow, Jammed;
    if s != r.inSeq {
      JamScan(r, s);
      var (k, found) := Scan(r.pending, s, r.inSeq);
      if !found && k >= 1 {
        var e := Incoming(s, 0, 0, {}, data);
        JamInsert(r, k, e);
        JamStays(r.(pending := Insert(r.pending, k, e)));
      }
    }
  }

  lemma JamScan(r: Receiver, s: seq16)
    requires Jammed(r) && s != r.inSeq
    ensures r.pending != [] && IsGhost(r.pending[0])
    ensures if s == Seq16(GHOST) then Scan(r.pending, s, r.inSeq).1 else Scan(r.pending, s, r.inSeq).0 >= 1
  {
    ScanBehind(r.pending, s, r.inSeq);
  }

  lemma JamFragment(r: Receiver, f: Wire, size: nat, refuse: bool)
    requires Jammed(r) && f.Fragment? && f.start != Seq16(GHOST)
    ensures
      var r' := ReceiveFragment(r, f, size, refuse).0;
      Jammed(r') && r'.dispatched == r.dispatched
  {
    hide Scan, Insert, Drain, InWindow, Jammed, StoreAt;
    if InWindow(f.start, r.inSeq) && FragmentOk(f, size) {
      var (k, found) := Scan(r.pending, f.start, r.inSeq);
      if f.start != r.inSeq {
        JamScan(r, f.start);
      }
      if found {
        JamFound(r, f, k);
        if r.pending[k].count != 0 && f.total == |r.pending[k].data| && f.count == r.pending[k].count {
          JamStore(r, k, f);
        }
      } else if f.start != r.inSeq && !refuse {
        JamNew(r, f, k);
      }
    }
  }

  lemma JamFound(r: Receiver, f: Wire, k: nat)
    requires Jammed(r) && f.Fragment? && f.start != Seq16(GHOST) && k < |r.pending| && r.pending[k].sn == f.start
    ensures f.start != r.inSeq && k >= 1
  {
  }

  lemma JamNew(r: Receiver, f: Wire, k: nat)
    requires Jammed(r) && f.Fragment? && f.start != r.inSeq && 1 <= k <= |r.pending| && f.offset + |f.data| <= f.total
    ensures
      var e := Incoming(f.start, f.count, f.count, {}, seq(f.total, _ => 0));
      var r0 := r.(pending := Insert(r.pending, k, e));
      Drain(r0) == r0 && k < |r0.pending| && r0.pending[k] == e
      && var r' := StoreAt(r0, k, f);
         Jammed(r') && r'.dispatched == r.dispatched
  {
    hide Drain, StoreAt, Jammed;
    var e := Incoming(f.start, f.count, f.count, {}, seq(f.total, _ => 0));
    var r0 := r.(pending := Insert(r.pending, k, e));
    JamInsert(r, k, e);
    JamStays(r0);
    JamStore(r0, k, f);
  }

  lemma SeqOfJam(r: Receiver)
    requires Jammed(r)
    ensures r.inSeq == Seq16(GHOST - 1)
  {
  }

  /** Nothing but a fragment of a group numbered like the ghost could change that. */
  lemma JamKeeps(r: Receiver, w: Wire, size: nat, refuse: bool)
    requires Jammed(r) && (w.Fragment? ==> w.start != Seq16(GHOST))
    ensures
      var (r', acked) := Receive(r, w, size, refuse);
      Jammed(r') && r'.dispatched == r.dispatched && (acked ==> MayAck(w.sn, Seq16(GHOST - 1)))
  {
    hide Jammed, ReceiveReliable, ReceiveFragment, MayAck;
    SeqOfJam(r);
    if w.Reliable? {
      JamReliable(r, w.sn, w.data, refuse);
      SeqOfJam(ReceiveReliable(r, w.sn, w.data, refuse).0);
    } else {
      JamFragment(r, w, size, refuse);
      SeqOfJam(ReceiveFragment(r, w, size, refuse).0);
    }
  }

  /** The receiver is jammed, and the sender cannot get more than seven windows beyond it. */
  ghost predicate Doomed(l: Link, next: nat) {
    && SenderOk(l.sender, Base(l.ps, |l.ps|), next)
    && Jammed(l.receiver) && |l.receiver.dispatched| < |l.ps| && Last(l) == GHOST - 1 && |l.ps[|l.receiver.dispatched|]| == 1
    && Win(next) <= Win(GHOST - 1) + 7
    && (forall u :: u in l.net ==> 1 <= u <= next)
    && (forall a :: a in l.acks ==> 1 <= a <= next && Win(a) <= Win(GHOST - 1) + 6)
    && (forall u: nat :: u <= next && Win(u) > Win(GHOST - 1) + 6 ==> Open(l.sender, ById(u)) > 0)
  }

  lemma LostIsDoomed(l: Link)
    requires Lost(l)
    ensures Doomed(l, GHOST)
  {
    hide Base, SenderOk, Open;
    BaseStep(l.ps, |l.ps| - 1);
    forall u: nat | u <= GHOST ensures Win(u) <= Win(GHOST) == Win(GHOST - 1) {
      WinMonotone(u, GHOST);
    }
  }

  lemma DoomedSend(l: Link, next: nat, p: Packet, size: nat)
    requires Doomed(l, next) && Allowed(l, Send(p), size)
    ensures Doomed(Apply(l, Send(p), size), next)
  {
    hide SenderOk, Open, Base, Win, PacketOk, Jammed, QueueAll;
    var qs, m := l.ps + [p], |l.receiver.dispatched|;
    QueueAllOk(l.sender, Base(l.ps, |l.ps|), next, p, |p|);
    BasePrefix(l.ps, qs, |l.ps|);
    BasePrefix(l.ps, qs, m);
    BaseStep(qs, |l.ps|);
  }

  lemma DoomedExpire(l: Link, next: nat, due: seq<bool>, size: nat)
    requires Doomed(l, next) && Allowed(l, Expire(due), size)
    ensures Doomed(Apply(l, Expire(due), size), next)
  {
    hide SenderOk, Open, Base, Win, Jammed, TimeOut;
    TimeOutOk(l.sender, Base(l.ps, |l.ps|), next, due);
  }

  lemma DoomedAck(l: Link, next: nat, a: nat, size: nat)
    requires Doomed(l, next) && Allowed(l, Ack(a), size)
    ensures Doomed(Apply(l, Ack(a), size), next)
  {
    hide SenderOk, Open, Base, Win, Jammed, Acknowledge, Newest;
    NewestIs(l, next);
    AckOk(l.sender, Base(l.ps, |l.ps|), next, a);
  }

  /** A new window begins only after an acknowledgement from the one before, and of that window there are none. */
  lemma DoomedGate(l: Link, next: nat)
    requires Doomed(l, next) && l.sender.outgoing != [] && Resends(l.sender.outgoing) == 0
    requires |l.sender.windows| == WINDOWS && !Gated(l.sender, l.sender.outgoing[0])
    ensures Win(next + 1) <= Win(GHOST - 1) + 7
  {
    hide SenderOk, Open, Base, Jammed, Gated, Resends;
    var total := Base(l.ps, |l.ps|);
    WaitingOf(l.sender, total, next);
    WaitingTail(l.sender.outgoing, total, next);
    if Win(next + 1) > Win(next) {
      FirstOfWindow(next);
      if Win(next) >= 1 {
        var v := OpeningAcked(l.sender, total, next);
      }
    }
  }

  lemma WaitingOf(s: Sender, total: nat, next: nat)
    requires SenderOk(s, total, next)
    ensures Waiting(s.outgoing, total, next)
  {
  }

  lemma DoomedTransmit(l: Link, next: nat, flow: Flow, size: nat) returns (next': nat)
    requires Doomed(l, next) && Allowed(l, Transmit(flow), size)
    ensures Doomed(Apply(l, Transmit(flow), size), next')
  {
    hide SenderOk, Open, Base, Win, Jammed, Gated, LimitOf, FlowOk, Resends, SendFirst;
    var total := Base(l.ps, |l.ps|);
    LimitRange(flow);
    if Resends(l.sender.outgoing) > 0 {
      next' := next;
      ResendOk(l.sender, total, next, LimitOf(flow));
      ResendKnown(l.sender, total, next);
    } else {
      next' := next + 1;
      DoomedGate(l, next);
      SendNewOk(l.sender, total, next, LimitOf(flow));
    }
  }

  /** A fragment of a group numbered like the ghost is one of the first long packet, and that is too old. */
  lemma NoSuchStart(b: nat, next: nat)
    requires 1 <= b <= next && Win(next) <= Win(GHOST - 1) + 7 && Win(GHOST - 1) <= Win(b) + 9 && Seq16(b) == Seq16(GHOST)
    ensures b == GHOST
  {
  }

  lemma OnlyOneHas(l: Link, next: nat, i: nat)
    requires Doomed(l, next) && i < |l.ps| && Base(l.ps, i) + 1 == GHOST && l.ps[i] != []
    ensures |l.ps[i]| == 1
  {
    hide SenderOk, Open, Win, Jammed, Base;
    var m := |l.receiver.dispatched|;
    if i < m {
      BaseMonotone(l.ps, i, m);
    } else if m < i {
      BaseMonotone(l.ps, m, i);
    }
  }

  lemma DoomedData(l: Link, next: nat, i: nat, k: nat, refuse: bool, size: nat)
    requires Doomed(l, next) && Allowed(l, Data(i, k, refuse), size)
    ensures Doomed(Apply(l, Data(i, k, refuse), size), next)
    ensures Apply(l, Data(i, k, refuse), size).receiver.dispatched == l.receiver.dispatched
  {
    hide SenderOk, Open, Base, Jammed, Receive, Win, MayAck;
    var u, w := Base(l.ps, i) + 1 + k, WireOf(l.ps, i, k);
    if w.Fragment? && w.start == Seq16(GHOST) {
      NoSuchStartAt(l, next, i, k, u);
    }
    JamKeeps(l.receiver, w, size, refuse);
    if Receive(l.receiver, w, size, refuse).1 {
      WinMonotone(u, next);
      AckedNear(u, next);
    }
  }

  lemma NoSuchStartAt(l: Link, next: nat, i: nat, k: nat, u: nat)
    requires Doomed(l, next) && i < |l.ps| && k < |l.ps[i]| && u == Base(l.ps, i) + 1 + k <= next && |l.ps[i]| > 1
    requires Win(GHOST - 1) <= Win(Base(l.ps, i) + 1) + 9
    ensures Seq16(Base(l.ps, i) + 1) != Seq16(GHOST)
  {
    hide SenderOk, Open, Base, Jammed, Win;
    if Seq16(Base(l.ps, i) + 1) == Seq16(GHOST) {
      NoSuchStart(Base(l.ps, i) + 1, next);
      OnlyOneHas(l, next, i);
      assert false;
    }
  }

  lemma AckedNear(u: nat, next: nat)
    requires u <= next && Win(next) <= Win(GHOST - 1) + 7 && MayAck(Seq16(u), Seq16(GHOST - 1)) && Win(u) <= Win(next)
    ensures Win(u) <= Win(GHOST - 1) + 6
  {
    AckedClose(u, GHOST - 1);
  }

  lemma DoomedStep(l: Link, next: nat, st: Step, size: nat) returns (next': nat)
    requires Doomed(l, next) && Allowed(l, st, size)
    ensures Doomed(Apply(l, st, size), next') && Apply(l, st, size).receiver.dispatched == l.receiver.dispatched
  {
    hide Doomed, QueueAll, SendFirst, TimeOut, Acknowledge, Receive, Base, CanSend, LimitOf, FlowOk;
    next' := next;
    match st
    case Send(p) => DoomedSend(l, next, p, size);
    case Transmit(flow) => next' := DoomedTransmit(l, next, flow, size);
    case Expire(due) => DoomedExpire(l, next, due, size);
    case Data(i, k, refuse) => DoomedData(l, next, i, k, refuse, size);
    case Ack(a) => DoomedAck(l, next, a, size);
  }

  /** Nothing is dispatched any more, whatever is sent. */
  lemma {:induction false} NothingMore(l: Link, next: nat, steps: seq<Step>, size: nat, l': Link)
    requires Doomed(l, next) && Run(l, steps, size, l')
    ensures l'.receiver.dispatched == l.receiver.dispatched
    decreases |steps|
  {
    hide Doomed, Apply, Allowed;
    if steps != [] {
      var next' := DoomedStep(l, next, steps[0], size);
      NothingMore(Apply(l, steps[0], size), next', steps[1..], size, l');
    }
  }

  // ---------------------------------------------------------------- one datagram too old

  /** The stale fragment has been delivered, and its acknowledgement. */
  lemma Haunt(l: Link, f: nat, size: nat) returns (l': Link)
    requires Reached(l, TOTAL, f, size) && f >= 1 && size >= LONG * f
    ensures l.ps == Four(f) && |l.ps[1]| == LONG
    ensures Run(Arrive(l, 1, LONG - 1, false, size), [Ack(LOST)], size, l') && Haunted(l', TOTAL)
  {
    hide RecvOk, PacketsOk, Base, Open, Win, Receive, IsGhost, Four, Lens;
    EndState(l, f, size);
    FourBase(f);
    TakenForNew(f, size, l.receiver);
    var l1 := Arrive(l, 1, LONG - 1, false, size);
    HauntedAck(l, l1, f, size);
    l' := Apply(l1, Ack(LOST), size);
    RunOne(l1, Ack(LOST), size);
  }

  lemma HauntedAck(l: Link, l1: Link, f: nat, size: nat)
    requires Reached(l, TOTAL, f, size) && l1 == l.(receiver := l1.receiver, acks := l.acks + {LOST})
    requires Base(l.ps, |l.ps|) == TOTAL
    ensures Allowed(l1, Ack(LOST), size)
    ensures
      var s' := Apply(l1, Ack(LOST), size).sender;
      SenderOk(s', TOTAL, TOTAL) && s'.sent == [] && s'.outgoing == []
    ensures (forall u :: u in l.net ==> 1 <= u <= TOTAL) && (forall a :: a in l.acks ==> 1 <= a <= TOTAL)
  {
    hide RecvOk, PacketsOk, Base, SenderOk, Acknowledge, Received, Four, Lens;
    WindowsOf(l.sender, TOTAL);
    NewestIs(l1, TOTAL);
    AckOk(l.sender, TOTAL, TOTAL, LOST);
    LostAcked(l.sender, f);
    NoneWaiting(l.sender, TOTAL, f);
  }

  lemma LostAcked(s: Sender, f: nat)
    requires |s.windows| == WINDOWS && s.sent == [OutCmd(LOST, f, 1)]
    ensures Acknowledge(s, Seq16(LOST)).sent == [] && Acknowledge(s, Seq16(LOST)).outgoing == s.outgoing
  {
    hide ClearBit;
    assert IndexOf(s.sent, Seq16(LOST)) == 0;
  }

  lemma NoneWaiting(s: Sender, n: nat, f: nat)
    requires SenderOk(s, n, n) && Lens(s.outgoing, Same(f))
    ensures s.outgoing == []
  {
    hide Open, HasBit, SumLen;
    ResendsNone(s.outgoing);
  }

  /** Without the rule that nothing arrives that is too old, what the runs promise is lost.  After an ordinary run, the last
      fragment of a packet of 12290 is unacknowledged and on the wire once more.  If that datagram arrives, then after an
      ordinary run again the sender is idle, and yet one packet has not been dispatched, has been acknowledged and is not
      held; and no run that follows ever dispatches anything. */
  lemma OneTooOld(f: nat, flow: Flow, size: nat) returns (steps: seq<Step>, l: Link, more: seq<Step>, l': Link)
    requires f >= 1 && size >= LONG * f && FlowOk(flow) && 2 * f <= LimitOf(flow)
    ensures Run(EMPTY, steps, size, l) && |l.ps| == 4 && |l.ps[1]| == LONG && Unacknowledged(l, 1, LONG - 1) && LOST in l.net
    ensures Run(Arrive(l, 1, LONG - 1, false, size), more, size, l')
    ensures l'.sender.outgoing == [] && l'.sender.sent == [] && |l'.receiver.dispatched| == |l'.ps| - 1
    ensures Base(l'.ps, |l'.ps|) == GHOST && GHOST in l'.acks && !Received(Last(l'), l'.receiver.pending, GHOST)
    ensures forall rest: seq<Step>, l2: Link :: Run(l', rest, size, l2) ==> l2.receiver.dispatched == l'.receiver.dispatched
  {
    hide Run, Haunted, LimitOf, FlowOk, Base, Doomed, Received, LinkOk, Lens, Open;
    steps, l := StaleRun(f, flow, size);
    EndState(l, f, size);
    StaleAt(l, f, size);
    var l1 := Arrive(l, 1, LONG - 1, false, size);
    var l2 := Haunt(l, f, size);
    var s3, l3 := TinyRounds(l2, TOTAL, flow, size);
    RunJoin(l1, [Ack(LOST)], l2, s3, size, l3);
    var s4;
    s4, l' := LastRound(l3, flow, size);
    RunJoin(l1, [Ack(LOST)] + s3, l3, s4, size, l');
    more := [Ack(LOST)] + s3 + s4;
    LostIsDoomed(l');
    NotHeld(l');
    forall rest: seq<Step>, l2: Link | Run(l', rest, size, l2) ensures l2.receiver.dispatched == l'.receiver.dispatched {
      NothingMore(l', GHOST, rest, size, l2);
    }
  }

  lemma NotHeld(l: Link)
    requires Lost(l)
    ensures Last(l) == GHOST - 1 && !Received(Last(l), l.receiver.pending, GHOST)
  {
    hide SenderOk, Base;
    BaseStep(l.ps, |l.ps| - 1);
    StartOfNext(GHOST - 1, l.receiver.pending[0]);
  }
}
