/** A reliable channel end to end: a sender, a receiver, and a network that loses, repeats and reorders. */
module EnetLink {
  import opened Bits
  import opened EnetSequence
  import opened Masks
  import opened EnetReceive
  import opened EnetOrder
  import opened EnetDeliver
  import opened EnetSend
  import opened EnetWindow

  /** `net` are the numbers of the commands that have been on the wire, `acks` those of the acknowledgements.
      The network may deliver any of them, in any order, any number of times, or never. */
  datatype Link = Link(ps: seq<Packet>, sender: Sender, net: set<nat>, receiver: Receiver, acks: set<nat>)

  datatype Step =
    | Send(p: Packet)
    | Transmit(flow: Flow)
    | Expire(due: seq<bool>)
    | Data(i: nat, k: nat, refuse: bool)
    | Ack(a: nat)

  const EMPTY: Link :=
    Link([], Sender(0, [], [], [0, 0, 0, 0, 0, 0, 0, 0, 0, 0, 0, 0, 0, 0, 0, 0], 0, 0), {}, Receiver(0, [], []), {})

  /** The number of the last command dispatched. */
  function Last(l: Link): nat
    requires |l.receiver.dispatched| <= |l.ps|
  {
    Base(l.ps, |l.receiver.dispatched|)
  }

  /** How many commands have been sent at least once: the number of the newest one. */
  function Newest(l: Link): nat {
    var total, waiting := Base(l.ps, |l.ps|), |l.sender.outgoing| - Resends(l.sender.outgoing);
    if waiting <= total then total - waiting else 0
  }

  /** The first `k` pieces of a packet are queued as commands. */
  function QueueAll(s: Sender, total: nat, p: Packet, k: nat): Sender
    requires k <= |p|
  {
    if k == 0 then s else Queue(QueueAll(s, total, p, k - 1), total + k, |p[k - 1]|)
  }

  /** What may happen.  No datagram that arrives is staler than nine windows, and no acknowledgement than fifteen; flow control
      computes its limit from any window, throttle and mtu that a peer can have. */
  predicate Allowed(l: Link, st: Step, size: nat) {
    match st
    case Send(p) => PacketOk(p, size)
    case Transmit(flow) => FlowOk(flow) && |l.sender.windows| == WINDOWS && CanSend(l.sender, LimitOf(flow))
    case Expire(due) => |due| == |l.sender.sent|
    case Data(i, k, _) =>
      && i < |l.ps| && k < |l.ps[i]| && Base(l.ps, i) + 1 + k in l.net
      && |l.receiver.dispatched| <= |l.ps| && Win(Last(l)) <= Win(Base(l.ps, i) + 1) + 9
    case Ack(a) => a in l.acks && |l.sender.windows| == WINDOWS && Win(Newest(l)) <= Win(a) + 15
  }

  /** The datagram for piece `k` of packet `i` arrives. */
  function Arrive(l: Link, i: nat, k: nat, refuse: bool, size: nat): Link
    requires i < |l.ps| && k < |l.ps[i]|
  {
    var (r', acked) := Receive(l.receiver, WireOf(l.ps, i, k), size, refuse);
    l.(receiver := r', acks := if acked then l.acks + {Base(l.ps, i) + 1 + k} else l.acks)
  }

  function Apply(l: Link, st: Step, size: nat): Link
    requires Allowed(l, st, size)
  {
    match st
    case Send(p) => l.(ps := l.ps + [p], sender := QueueAll(l.sender, Base(l.ps, |l.ps|), p, |p|))
    case Transmit(_) => l.(sender := SendFirst(l.sender), net := l.net + {l.sender.outgoing[0].id})
    case Expire(due) => l.(sender := TimeOut(l.sender, due))
    case Data(i, k, refuse) => Arrive(l, i, k, refuse, size)
    case Ack(a) => l.(sender := Acknowledge(l.sender, Seq16(a)))
  }

  ghost predicate Run(l: Link, steps: seq<Step>, size: nat, l': Link)
    decreases |steps|
  {
    if steps == [] then l' == l
    else Allowed(l, steps[0], size) && Run(Apply(l, steps[0], size), steps[1..], size, l')
  }

  // ---------------------------------------------------------------- the invariant

  /** The command has reached the receiver, in a window where it acknowledges. */
  ghost predicate Held(n: nat, pending: seq<Incoming>, u: nat) {
    Received(n, pending, u) && Win(u) <= Win(n) + 6
  }

  /** Both ends agree on what has arrived, and the sender is at most seven windows ahead. */
  ghost predicate Agreed(s: Sender, n: nat, pending: seq<Incoming>, next: nat, acks: set<nat>) {
    && (forall u: nat :: Received(n, pending, u) ==> u <= next)
    && Win(next) <= Win(n) + 7
    && (forall a :: a in acks ==> 1 <= a <= next && Held(n, pending, a))
    && (forall u: nat :: 1 <= u <= next && Open(s, ById(u)) == 0 ==> Held(n, pending, u))
  }

  ghost predicate LinkOk(l: Link, next: nat, size: nat) {
    && PacketsOk(l.ps, size)
    && SenderOk(l.sender, Base(l.ps, |l.ps|), next)
    && RecvOk(l.ps, |l.receiver.dispatched|, l.receiver)
    && (forall u :: u in l.net ==> 1 <= u <= next)
    && Agreed(l.sender, Last(l), l.receiver.pending, next, l.acks)
  }

  lemma EmptyOk(size: nat)
    ensures LinkOk(EMPTY, 0, size)
  {
    hide SenderOk, Open;
    InitOk();
    assert EMPTY.sender == Sender(0, [], [], seq(WINDOWS, _ => 0), 0, 0);
  }

  // ---------------------------------------------------------------- steps of the sender

  /** What the receiver has is not affected by another packet. */
  lemma RecvExtend(ps: seq<Packet>, p: Packet, m: nat, r: Receiver)
    requires RecvOk(ps, m, r)
    ensures RecvOk(ps + [p], m, r) && Base(ps + [p], m) == Base(ps, m)
  {
    hide Holds, Start, Win;
    var qs, n := ps + [p], Base(ps, m);
    BasePrefix(ps, qs, m);
    forall j | 0 <= j < |r.pending| ensures Known(qs, n, r.pending[j]) {
      assert Known(ps, n, r.pending[j]);
      var i: nat :| Matches(ps, n, r.pending[j], i);
      BasePrefix(ps, qs, i);
      assert Matches(qs, n, r.pending[j], i);
    }
  }

  lemma {:induction false} QueueAllOk(s: Sender, total: nat, next: nat, p: Packet, k: nat)
    requires SenderOk(s, total, next) && k <= |p|
    ensures SenderOk(QueueAll(s, total, p, k), total + k, next)
    ensures forall u: nat :: Open(QueueAll(s, total, p, k), ById(u)) == Open(s, ById(u))
    decreases k
  {
    hide SenderOk, Open, Queue;
    if k > 0 {
      QueueAllOk(s, total, next, p, k - 1);
      var s1 := QueueAll(s, total, p, k - 1);
      QueueStep(s1, total + k - 1, next, |p[k - 1]|);
      forall u: nat ensures Open(QueueAll(s, total, p, k), ById(u)) == Open(s1, ById(u)) {
        QueueOpen(s1, total + k, |p[k - 1]|, ById(u));
      }
    }
  }

  lemma SendStep(l: Link, next: nat, p: Packet, size: nat)
    requires LinkOk(l, next, size) && PacketOk(p, size)
    ensures LinkOk(Apply(l, Send(p), size), next, size)
    ensures forall u: nat :: Open(Apply(l, Send(p), size).sender, ById(u)) == Open(l.sender, ById(u))
  {
    hide SenderOk, RecvOk, PacketOk, Open, Held, Received, Win;
    var total := Base(l.ps, |l.ps|);
    QueueAllOk(l.sender, total, next, p, |p|);
    DispatchedBound(l.ps, |l.receiver.dispatched|, l.receiver);
    RecvExtend(l.ps, p, |l.receiver.dispatched|, l.receiver);
    BasePrefix(l.ps, l.ps + [p], |l.ps|);
  }

  lemma DispatchedBound(ps: seq<Packet>, m: nat, r: Receiver)
    requires RecvOk(ps, m, r)
    ensures m <= |ps| && |r.dispatched| == m && r.inSeq == Seq16(Base(ps, m))
  {
  }

  // ---------------------------------------------------------------- the gate and the receiver

  function ByRange(lo: nat, hi: nat): OutCmd -> bool {
    (c: OutCmd) => lo <= c.id < hi
  }

  lemma {:induction false} CountMore(cs: seq<OutCmd>, p: OutCmd -> bool, q: OutCmd -> bool)
    requires forall c :: p(c) ==> q(c)
    ensures Count(cs, p) <= Count(cs, q)
  {
    if cs != [] {
      CountMore(cs[..|cs| - 1], p, q);
    }
  }

  lemma {:induction false} CountRangeStep(cs: seq<OutCmd>, lo: nat, hi: nat)
    requires lo <= hi
    ensures Count(cs, ByRange(lo, hi + 1)) == Count(cs, ByRange(lo, hi)) + Count(cs, ById(hi))
  {
    if cs != [] {
      CountRangeStep(cs[..|cs| - 1], lo, hi);
    }
  }

  /** If every number of a range is unacknowledged, so many commands are. */
  lemma {:induction false} OpenRange(s: Sender, lo: nat, hi: nat)
    requires lo <= hi && forall u: nat :: lo <= u < hi ==> Open(s, ById(u)) > 0
    ensures Open(s, ByRange(lo, hi)) >= hi - lo
    decreases hi - lo
  {
    hide Count, Resends;
    if lo < hi {
      OpenRange(s, lo, hi - 1);
      CountRangeStep(s.sent, lo, hi - 1);
      CountRangeStep(s.outgoing[..Resends(s.outgoing)], lo, hi - 1);
      assert Open(s, ById(hi - 1)) > 0;
    }
  }

  /** A window that is not full has a command that is acknowledged, once all its numbers have been sent. */
  lemma AckedInWindow(s: Sender, w: nat) returns (v: nat)
    requires Open(s, ByWindow(w % WINDOWS)) < WINDOW_SIZE
    ensures Win(v) == w && Open(s, ById(v)) == 0
  {
    var lo, hi := w * WINDOW_SIZE, (w + 1) * WINDOW_SIZE;
    if forall u: nat :: lo <= u < hi ==> Open(s, ById(u)) > 0 {
      OpenRange(s, lo, hi);
      forall c | ByRange(lo, hi)(c) ensures ByWindow(w % WINDOWS)(c) {
        InWindowRange(c.id, w);
      }
      CountMore(s.sent, ByRange(lo, hi), ByWindow(w % WINDOWS));
      CountMore(s.outgoing[..Resends(s.outgoing)], ByRange(lo, hi), ByWindow(w % WINDOWS));
      assert false;
    } else {
      v :| lo <= v < hi && Open(s, ById(v)) == 0;
    }
  }

  lemma InWindowRange(u: nat, w: nat)
    requires w * WINDOW_SIZE <= u < (w + 1) * WINDOW_SIZE
    ensures Win(u) == w && Window16(Seq16(u)) == w % WINDOWS
  {
    Window16Win(u);
  }

  /** The gate lets a window begin only if a command of the one before has been acknowledged. */
  lemma OpeningAcked(s: Sender, total: nat, next: nat) returns (v: nat)
    requires SenderOk(s, total, next) && Win(next + 1) == Win(next) + 1 && Win(next) >= 1
    requires s.outgoing != [] && s.outgoing[0] == OutCmd(next + 1, s.outgoing[0].len, 0) && !Gated(s, s.outgoing[0])
    ensures 1 <= v <= next && Win(v) == Win(next) && Open(s, ById(v)) == 0
  {
    hide Open, Resends, HasBit, Waiting, SumLen, Pow2, BitAnd, ByWindow, ById, Win;
    var w := Win(next + 1);
    Window16Win(next + 1);
    FirstOfWindow(next);
    PreviousWindow(w);
    v := AckedInWindow(s, w - 1);
  }

  lemma PreviousWindow(w: nat)
    requires w >= 1
    ensures (w % WINDOWS + WINDOWS - 1) % WINDOWS == (w - 1) % WINDOWS
  {
  }

  /** So the receiver is close behind a sender that opens a window. */
  lemma NewWindowClose(s: Sender, total: nat, next: nat, n: nat, pending: seq<Incoming>, acks: set<nat>)
    requires SenderOk(s, total, next) && Agreed(s, n, pending, next, acks)
    requires s.outgoing != [] && Resends(s.outgoing) == 0 && !Gated(s, s.outgoing[0])
    ensures Win(next + 1) <= Win(n) + 7
  {
    hide Received, Open, Resends, HasBit, Gated, SumLen, Pow2, Waiting;
    WaitingTail(s.outgoing, total, next);
    if Win(next + 1) > Win(next) {
      FirstOfWindow(next);
      if Win(next) >= 1 {
        var v := OpeningAcked(s, total, next);
      }
    }
  }

  lemma FirstOfWindow(next: nat)
    requires Win(next + 1) > Win(next)
    ensures (next + 1) % WINDOW_SIZE == 0 && Win(next + 1) == Win(next) + 1
    ensures forall v: nat :: Win(v) == Win(next) ==> v <= next
    ensures forall v: nat :: Win(v) >= 1 ==> v >= 1
  {
  }

  lemma TransmitStep(l: Link, next: nat, flow: Flow, size: nat) returns (next': nat)
    requires LinkOk(l, next, size) && Allowed(l, Transmit(flow), size)
    ensures next' == (if Resends(l.sender.outgoing) > 0 then next else next + 1)
    ensures LinkOk(Apply(l, Transmit(flow), size), next', size)
    ensures Resends(l.sender.outgoing) == 0 ==> l.sender.outgoing[0].id == next + 1
    ensures
      var s, s' := l.sender, Apply(l, Transmit(flow), size).sender;
      forall u: nat :: Open(s', ById(u)) == Open(s, ById(u)) + if Resends(s.outgoing) == 0 && u == next + 1 then 1 else 0
  {
    hide RecvOk, PacketsOk, Win, SenderOk, Open, Held, Received, Resends, Base, Gated, FlowOk, LimitOf;
    var s, total, limit := l.sender, Base(l.ps, |l.ps|), LimitOf(flow);
    LimitRange(flow);
    DispatchedBound(l.ps, |l.receiver.dispatched|, l.receiver);
    if Resends(s.outgoing) > 0 {
      next' := next;
      ResendOk(s, total, next, limit);
      ResendKnown(s, total, next);
    } else {
      next' := next + 1;
      SendNewOk(s, total, next, limit);
      NewWindowClose(s, total, next, Last(l), l.receiver.pending, l.acks);
    }
  }

  /** A command that is sent again has been on the wire before. */
  lemma ResendKnown(s: Sender, total: nat, next: nat)
    requires SenderOk(s, total, next) && s.outgoing != [] && Resends(s.outgoing) > 0
    ensures 1 <= s.outgoing[0].id <= next
  {
    var r := s.outgoing[..Resends(s.outgoing)];
    CountAt(r, 0, ById(s.outgoing[0].id));
    assert Open(s, ById(s.outgoing[0].id)) > 0;
  }

  lemma ExpireStep(l: Link, next: nat, due: seq<bool>, size: nat)
    requires LinkOk(l, next, size) && |due| == |l.sender.sent|
    ensures LinkOk(Apply(l, Expire(due), size), next, size)
    ensures forall u: nat :: Open(Apply(l, Expire(due), size).sender, ById(u)) == Open(l.sender, ById(u))
  {
    hide SenderOk, RecvOk, PacketsOk, Received, Open, Win, TimeOut;
    TimeOutOk(l.sender, Base(l.ps, |l.ps|), next, due);
  }

  lemma NewestIs(l: Link, next: nat)
    requires SenderOk(l.sender, Base(l.ps, |l.ps|), next)
    ensures Newest(l) == next
  {
    hide Base, Open, HasBit, SumLen;
  }

  lemma AckStep(l: Link, next: nat, a: nat, size: nat)
    requires LinkOk(l, next, size) && Allowed(l, Ack(a), size)
    ensures LinkOk(Apply(l, Ack(a), size), next, size)
    ensures forall u: nat :: Open(Apply(l, Ack(a), size).sender, ById(u)) == if u == a then 0 else Open(l.sender, ById(u))
  {
    hide RecvOk, PacketsOk, Received, Open, Win, Acknowledge, SenderOk, Held, Newest, Base;
    NewestIs(l, next);
    AckOk(l.sender, Base(l.ps, |l.ps|), next, a);
  }

  // ---------------------------------------------------------------- a datagram arrives

  /** Any datagram of the channel, whole packet or fragment. */
  lemma Arrives(ps: seq<Packet>, m: nat, r: Receiver, i: nat, k: nat, size: nat, refuse: bool) returns (m': nat)
    requires PacketsOk(ps, size) && RecvOk(ps, m, r) && i < |ps| && k < |ps[i]|
    requires Timely(Base(ps, m), Base(ps, i) + 1, Base(ps, i) + 1 + k)
    ensures m <= m' <= |ps|
    ensures
      var u := Base(ps, i) + 1 + k;
      var (r', acked) := Receive(r, WireOf(ps, i, k), size, refuse);
      && RecvOk(ps, m', r') && Grows(Base(ps, m), r, Base(ps, m'), r', u)
      && (acked ==> Received(Base(ps, m'), r'.pending, u) && MayAck(Seq16(u), Seq16(Base(ps, m'))))
  {
    hide Timely, Win, Received, MayAck, ReceiveReliable, ReceiveFragment;
    assert PacketOk(ps[i], size);
    if |ps[i]| == 1 {
      m' := ReliableArrives(ps, m, r, i, size, refuse);
      var (r', ok) := ReceiveReliable(r, Seq16(Base(ps, i) + 1), ps[i][0], refuse);
      DispatchedBound(ps, m', r');
      assert Offset(ps[i], 1) == |ps[i][0]|;
    } else {
      m' := FragmentArrives(ps, m, r, i, k, size, refuse);
      var (r', ok) := ReceiveFragment(r, WireOf(ps, i, k), size, refuse);
      DispatchedBound(ps, m', r');
    }
  }

  /** An acknowledged command lies in the accepted windows. */
  lemma AckedClose(u: nat, n: nat)
    requires MayAck(Seq16(u), Seq16(n)) && Win(u) <= Win(n) + 8
    ensures Win(u) <= Win(n) + 6
  {
    if u > n {
      NearEnough(n, u);
      AheadWindows(u, n);
    }
  }

  lemma WinMonotone(a: nat, b: nat)
    requires a <= b
    ensures Win(a) <= Win(b)
  {
  }

  lemma DataStep(l: Link, next: nat, i: nat, k: nat, refuse: bool, size: nat)
    requires LinkOk(l, next, size) && Allowed(l, Data(i, k, refuse), size)
    ensures LinkOk(Apply(l, Data(i, k, refuse), size), next, size)
    ensures l.receiver.dispatched <= Apply(l, Data(i, k, refuse), size).receiver.dispatched
  {
    hide SenderOk, PacketsOk, RecvOk, Win, Received, Open, Receive, WireOf, MayAck, Base;
    var ps, m, r, u := l.ps, |l.receiver.dispatched|, l.receiver, Base(l.ps, i) + 1 + k;
    var n := Base(ps, m);
    WinMonotone(u, next);
    var m' := Arrives(ps, m, r, i, k, size, refuse);
    var (r', acked) := Receive(r, WireOf(ps, i, k), size, refuse);
    var n' := Base(ps, m');
    DispatchedBound(ps, m, r);
    DispatchedBound(ps, m', r');
    DispatchedGrows(ps, m, r, m', r');
    BaseMonotone(ps, m, m');
    WinMonotone(n, n');
    if acked {
      AckedClose(u, n');
    }
    AgreedGrows(l.sender, n, r, n', r', next, l.acks, u, acked);
  }

  lemma AgreedGrows(s: Sender, n: nat, r: Receiver, n': nat, r': Receiver, next: nat, acks: set<nat>, u: nat, acked: bool)
    requires Agreed(s, n, r.pending, next, acks) && Grows(n, r, n', r', u) && Win(n) <= Win(n') && 1 <= u <= next
    requires acked ==> Held(n', r'.pending, u)
    ensures Agreed(s, n', r'.pending, next, if acked then acks + {u} else acks)
  {
    hide Received, Win, Open;
    forall v: nat ensures Held(n, r.pending, v) ==> Held(n', r'.pending, v) {
    }
  }

  lemma DispatchedGrows(ps: seq<Packet>, m: nat, r: Receiver, m': nat, r': Receiver)
    requires RecvOk(ps, m, r) && RecvOk(ps, m', r') && m <= m'
    ensures r.dispatched <= r'.dispatched
  {
    hide QueueOk, Concat;
    assert forall j :: 0 <= j < m ==> r.dispatched[j] == r'.dispatched[j];
  }

  // ---------------------------------------------------------------- all runs

  /** Every step keeps the invariant and takes back nothing that was dispatched. */
  lemma StepOk(l: Link, next: nat, st: Step, size: nat) returns (next': nat)
    requires LinkOk(l, next, size) && Allowed(l, st, size)
    ensures LinkOk(Apply(l, st, size), next', size)
    ensures l.receiver.dispatched <= Apply(l, st, size).receiver.dispatched
  {
    hide LinkOk;
    next' := next;
    match st
    case Send(p) => SendStep(l, next, p, size);
    case Transmit(flow) => next' := TransmitStep(l, next, flow, size);
    case Expire(due) => ExpireStep(l, next, due, size);
    case Data(i, k, refuse) => DataStep(l, next, i, k, refuse, size);
    case Ack(a) => AckStep(l, next, a, size);
  }

  lemma {:induction false} RunOk(l: Link, next: nat, steps: seq<Step>, size: nat, l': Link) returns (next': nat)
    requires LinkOk(l, next, size) && Run(l, steps, size, l')
    ensures LinkOk(l', next', size) && l.receiver.dispatched <= l'.receiver.dispatched
    decreases |steps|
  {
    hide LinkOk, Apply, Allowed;
    next' := next;
    if steps != [] {
      next' := StepOk(l, next, steps[0], size);
      next' := RunOk(Apply(l, steps[0], size), next', steps[1..], size, l');
    }
  }

  /** In every reachable state the packets dispatched are the first ones sent, each complete ... */
  lemma DispatchedInOrder(steps: seq<Step>, size: nat, l: Link)
    requires Run(EMPTY, steps, size, l)
    ensures |l.receiver.dispatched| <= |l.ps|
    ensures forall j :: 0 <= j < |l.receiver.dispatched| ==> l.receiver.dispatched[j] == Concat(l.ps[j])
  {
    hide Run, SenderOk, Concat, QueueOk;
    EmptyOk(size);
    var next := RunOk(EMPTY, 0, steps, size, l);
  }

  /** ... what has been acknowledged, or what the sender has forgotten, has been dispatched or is held ... */
  lemma AcknowledgedIsHeld(steps: seq<Step>, size: nat, l: Link)
    requires Run(EMPTY, steps, size, l)
    ensures |l.receiver.dispatched| <= |l.ps|
    ensures forall a :: a in l.acks ==> 1 <= a <= Newest(l) && Received(Last(l), l.receiver.pending, a)
    ensures forall u: nat :: 1 <= u <= Newest(l) && Open(l.sender, ById(u)) == 0 ==> Received(Last(l), l.receiver.pending, u)
  {
    hide Run, SenderOk, Received, QueueOk, Open, Newest;
    EmptyOk(size);
    var next := RunOk(EMPTY, 0, steps, size, l);
    NewestIs(l, next);
  }

  /** ... and the sender's counters and bits count what is unacknowledged, all in the seven newest windows,
      with never more than the largest window in transit. */
  lemma SenderWindow(steps: seq<Step>, size: nat, l: Link)
    requires Run(EMPTY, steps, size, l)
    ensures |l.sender.windows| == WINDOWS
    ensures forall w: nat :: w < WINDOWS ==> l.sender.windows[w] == Open(l.sender, ByWindow(w))
    ensures forall w: nat :: w < WINDOWS ==> (HasBit(l.sender.used, w) <==> l.sender.windows[w] > 0)
    ensures forall u: nat :: Open(l.sender, ById(u)) > 0 ==> 1 <= u <= Newest(l) && Win(Newest(l)) <= Win(u) + 6
    ensures forall u: nat :: Open(l.sender, ById(u)) <= 1
    ensures l.sender.inTransit == SumLen(l.sender.sent) <= MAX_WINDOW_SIZE
  {
    hide Run, RecvOk, Received, Open, Count, HasBit, SumLen, Win, Waiting, Newest;
    EmptyOk(size);
    var next := RunOk(EMPTY, 0, steps, size, l);
    NewestIs(l, next);
  }

  /** The next packet to dispatch lacks a number. */
  lemma NextIncomplete(ps: seq<Packet>, m: nat, r: Receiver, size: nat) returns (u: nat)
    requires PacketsOk(ps, size) && RecvOk(ps, m, r) && m < |ps|
    ensures Base(ps, m) < u <= Base(ps, m) + |ps[m]| && !Received(Base(ps, m), r.pending, u)
  {
    hide Win, Base, Collected, Start;
    var n, p := Base(ps, m), r.pending;
    PacketNonempty(ps, m, size);
    u := n + 1;
    if p != [] && Start(n, p[0]) == n + 1 {
      StartSeq(n, p[0]);
      assert Known(ps, n, p[0]);
      StartIsPacket(ps, n, p[0], m, size);
      Complete(ps[m], p[0]);
      SeqAdd(n, 1);
      var k: nat :| k < |ps[m]| && k !in p[0].got;
      u := n + 1 + k;
    }
    forall j | 0 <= j < |p| ensures !InGroup(n, p[j], u) {
      if InGroup(n, p[j], u) {
        assert Known(ps, n, p[j]) && Start(n, p[0]) > n;
        assert j > 0 ==> Start(n, p[0]) < Start(n, p[j]);
        KnownPacket(ps, n, p[j], m, u, size);
      }
    }
  }

  /** A sender with nothing to send and nothing unacknowledged knows that everything has arrived. */
  lemma IdleReceived(l: Link, next: nat, size: nat)
    requires LinkOk(l, next, size) && l.sender.outgoing == [] && l.sender.sent == []
    ensures |l.receiver.dispatched| <= |l.ps|
    ensures forall u: nat :: 1 <= u <= Base(l.ps, |l.ps|) ==> Received(Last(l), l.receiver.pending, u)
  {
    hide Received, Win, HasBit, Base;
    DispatchedBound(l.ps, |l.receiver.dispatched|, l.receiver);
    forall u: nat | 1 <= u <= Base(l.ps, |l.ps|) ensures Received(Last(l), l.receiver.pending, u) {
      assert Open(l.sender, ById(u)) == 0;
    }
  }

  lemma IdleDispatched(l: Link, next: nat, size: nat)
    requires LinkOk(l, next, size) && l.sender.outgoing == [] && l.sender.sent == []
    ensures |l.receiver.dispatched| == |l.ps|
    ensures forall j :: 0 <= j < |l.ps| ==> l.receiver.dispatched[j] == Concat(l.ps[j])
  {
    hide Concat, EnetOrder.QueueOk, Received, SenderOk, Agreed;
    IdleReceived(l, next, size);
    if |l.receiver.dispatched| < |l.ps| {
      BaseMonotone(l.ps, |l.receiver.dispatched| + 1, |l.ps|);
      var u := NextIncomplete(l.ps, |l.receiver.dispatched|, l.receiver, size);
    }
  }

  /** When the sender has nothing left to send and nothing unacknowledged, everything has been dispatched. */
  lemma AllDelivered(steps: seq<Step>, size: nat, l: Link)
    requires Run(EMPTY, steps, size, l) && l.sender.outgoing == [] && l.sender.sent == []
    ensures |l.receiver.dispatched| == |l.ps|
    ensures forall j :: 0 <= j < |l.ps| ==> l.receiver.dispatched[j] == Concat(l.ps[j])
  {
    hide Run, Concat, LinkOk;
    EmptyOk(size);
    var next := RunOk(EMPTY, 0, steps, size, l);
    IdleDispatched(l, next, size);
  }
}
