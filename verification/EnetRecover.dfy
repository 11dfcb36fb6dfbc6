/** The channel never gets stuck: from every state it can reach, everything sent can still be delivered. */
module EnetRecover {
  import opened Bits
  import opened EnetSequence
  import opened Masks
  import opened EnetReceive
  import opened EnetOrder
  import opened EnetDeliver
  import opened EnetSend
  import opened EnetWindow
  import opened EnetLink

  /** The longest packet whose first and last fragment are never more than three windows apart. */
  const SAFE_FRAGMENTS: nat := 3 * WINDOW_SIZE + 1

  predicate Moderate(ps: seq<Packet>) {
    forall i :: 0 <= i < |ps| ==> |ps[i]| <= SAFE_FRAGMENTS
  }

  // ---------------------------------------------------------------- sent again in time

  /** A fragment of a moderate packet is at most three windows behind its first one; of a longer one it may be four. */
  lemma ThreeWindows(c: nat)
    requires c > 0
    ensures c <= SAFE_FRAGMENTS <==> forall b: nat :: Win(b + (c - 1)) <= Win(b) + 3
  {
    if c > SAFE_FRAGMENTS {
      LongerPacket(c);
    } else {
      forall b: nat ensures Win(b + (c - 1)) <= Win(b) + 3 {
        WinMonotone(b + (c - 1), b + 3 * WINDOW_SIZE);
      }
    }
  }

  lemma LongerPacket(c: nat)
    requires c > SAFE_FRAGMENTS
    ensures Win(4095 + (c - 1)) > Win(4095) + 3
  {
    WinMonotone(4095 + SAFE_FRAGMENTS, 4095 + (c - 1));
  }

  /** While a command is unacknowledged, its datagram is never too stale for the receiver, if its packet is moderate. */
  lemma OpenIsFresh(l: Link, next: nat, size: nat, i: nat, k: nat, refuse: bool)
    requires LinkOk(l, next, size) && i < |l.ps| && k < |l.ps[i]| && |l.ps[i]| <= SAFE_FRAGMENTS
    requires Open(l.sender, ById(Base(l.ps, i) + 1 + k)) > 0
    ensures |l.receiver.dispatched| <= |l.ps| && Win(Last(l)) <= Win(Base(l.ps, i) + 1) + 9
    ensures Base(l.ps, i) + 1 + k in l.net ==> Allowed(l, Data(i, k, refuse), size)
    ensures Win(Last(l)) <= Win(Base(l.ps, i) + 1 + k) + 6
  {
    hide RecvOk, SenderOk, PacketsOk, Agreed, Open, Received, Base, Win;
    var u := Base(l.ps, i) + 1 + k;
    LastSent(l, next, size);
    OpenSent(l.sender, Base(l.ps, |l.ps|), next, u);
    WinMonotone(Last(l), next);
    WinMonotone(u, Base(l.ps, i) + 1 + 3 * WINDOW_SIZE);
    ThreeOn(Base(l.ps, i) + 1);
  }

  lemma ThreeOn(b: nat)
    ensures Win(b + 3 * WINDOW_SIZE) == Win(b) + 3
  {
  }

  lemma LastSent(l: Link, next: nat, size: nat)
    requires LinkOk(l, next, size)
    ensures |l.receiver.dispatched| <= |l.ps| && Last(l) <= next <= Base(l.ps, |l.ps|)
  {
    hide Base, Win, Open;
    DispatchedBound(l.ps, |l.receiver.dispatched|, l.receiver);
    assert Received(Last(l), l.receiver.pending, Last(l));
  }

  // ---------------------------------------------------------------- what is acknowledged

  lemma OkPacket(ps: seq<Packet>, i: nat, size: nat)
    requires PacketsOk(ps, size) && i < |ps|
    ensures ps[i] != [] && |ps[i][0]| == Offset(ps[i], 1) <= size
  {
    assert PacketOk(ps[i], size);
    OffsetMonotone(ps[i], 1, |ps[i]|);
  }

  /** The next packet's datagrams, and duplicates of older ones, are no errors. */
  lemma ReliableTaken(ps: seq<Packet>, m: nat, r: Receiver, i: nat, size: nat)
    requires PacketsOk(ps, size) && RecvOk(ps, m, r) && i < |ps| && |ps[i]| == 1
    ensures ReceiveReliable(r, Seq16(Base(ps, i) + 1), ps[i][0], false).1
  {
    hide Scan, Drain, Insert, InWindow, RecvOk;
  }

  lemma FragmentTaken(ps: seq<Packet>, m: nat, r: Receiver, i: nat, k: nat, size: nat)
    requires PacketsOk(ps, size) && RecvOk(ps, m, r) && i < |ps| && k < |ps[i]| && |ps[i]| > 1
    requires Timely(Base(ps, m), Base(ps, i) + 1, Base(ps, i) + 1 + k)
    ensures ReceiveFragment(r, WireOf(ps, i, k), size, false).1
  {
    hide Win, Scan, Insert, Known, Ahead, InWindow, MayAck, Drain, StoreAt, FragmentOk, Holds, Offset;
    var n, b := Base(ps, m), Base(ps, i) + 1;
    FragmentPasses(ps, i, k, size);
    StartTimely(ps, m, i, k, size);
    if b > n && InWindow(Seq16(b), r.inSeq) {
      var (at, found) := Scan(r.pending, Seq16(b), r.inSeq);
      if found {
        FoundGroup(ps, m, r, i, at, size);
      }
    }
  }

  /** A number not more than seven windows behind, or six ahead, may be acknowledged. */
  lemma MayAckNear(u: nat, n: nat)
    requires u <= n ==> Win(n) <= Win(u) + 7
    requires u > n ==> Win(u) <= Win(n) + 6
    ensures MayAck(Seq16(u), Seq16(n))
  {
    if u < n {
      NearEnough(u, n);
      StaleRejected(u, n);
    } else {
      NearEnough(n, u);
      AheadWindows(u, n);
    }
  }

  /** A timely datagram is acknowledged and its number received, if it is near the receiver before and after. */
  lemma Acknowledged(ps: seq<Packet>, m: nat, r: Receiver, i: nat, k: nat, size: nat, last: nat) returns (m': nat)
    requires PacketsOk(ps, size) && RecvOk(ps, m, r) && i < |ps| && k < |ps[i]| && m <= |ps|
    requires Timely(Base(ps, m), Base(ps, i) + 1, Base(ps, i) + 1 + k)
    requires
      var n, u := Base(ps, m), Base(ps, i) + 1 + k;
      && (u > n ==> Win(u) <= Win(n) + 6) && Win(last) <= Win(u) + 7 && u <= last
      && forall v: nat :: Received(n, r.pending, v) ==> v <= last
    ensures
      var u := Base(ps, i) + 1 + k;
      var (r', acked) := Receive(r, WireOf(ps, i, k), size, false);
      && m <= m' <= |ps| && RecvOk(ps, m', r') && Grows(Base(ps, m), r, Base(ps, m'), r', u)
      && acked && Received(Base(ps, m'), r'.pending, u)
  {
    hide Timely, Win, Received, MayAck, ReceiveReliable, ReceiveFragment, RecvOk, PacketsOk, Base, Offset;
    var n, u := Base(ps, m), Base(ps, i) + 1 + k;
    OkPacket(ps, i, size);
    m' := Arrives(ps, m, r, i, k, size, false);
    var (r', acked) := Receive(r, WireOf(ps, i, k), size, false);
    if |ps[i]| == 1 {
      ReliableTaken(ps, m, r, i, size);
    } else {
      FragmentTaken(ps, m, r, i, k, size);
    }
    DispatchedBound(ps, m', r');
    var n' := Base(ps, m');
    BaseMonotone(ps, m, m');
    LastReceived(n', r'.pending);
    WinMonotone(n, n');
    WinMonotone(n', last);
    MayAckNear(u, n');
  }

  lemma LastReceived(n: nat, p: seq<Incoming>)
    ensures Received(n, p, n)
  {
  }

  /** One datagram, and what it leaves behind. */
  lemma Deliver(l: Link, next: nat, size: nat, i: nat, k: nat) returns (l': Link)
    requires LinkOk(l, next, size) && Allowed(l, Data(i, k, false), size)
    requires
      var u := Base(l.ps, i) + 1 + k;
      && (u > Last(l) ==> Win(u) <= Win(Last(l)) + 6) && Win(next) <= Win(u) + 7
    ensures l' == Apply(l, Data(i, k, false), size) && LinkOk(l', next, size)
    ensures l'.ps == l.ps && l'.sender == l.sender && l'.net == l.net
    ensures
      var u := Base(l.ps, i) + 1 + k;
      u in l'.acks && Received(Last(l'), l'.receiver.pending, u)
    ensures forall v: nat :: Received(Last(l), l.receiver.pending, v) ==> Received(Last(l'), l'.receiver.pending, v)
    ensures forall v: nat :: Received(Last(l'), l'.receiver.pending, v) ==>
      Received(Last(l), l.receiver.pending, v) || v == Base(l.ps, i) + 1 + k
  {
    hide SenderOk, PacketsOk, RecvOk, Win, Received, Open, Receive, WireOf, Base;
    var ps, m, r, u := l.ps, |l.receiver.dispatched|, l.receiver, Base(l.ps, i) + 1 + k;
    DispatchedBound(ps, m, r);
    WinMonotone(u, next);
    var m' := Acknowledged(ps, m, r, i, k, size, next);
    l' := Apply(l, Data(i, k, false), size);
    DataStep(l, next, i, k, false, size);
    DispatchedBound(ps, m', l'.receiver);
  }

  lemma {:induction false} RunJoin(a: Link, s: seq<Step>, b: Link, t: seq<Step>, size: nat, c: Link)
    requires Run(a, s, size, b) && Run(b, t, size, c)
    ensures Run(a, s + t, size, c)
    decreases |s|
  {
    hide Allowed, Apply;
    if s == [] {
      assert s + t == t;
    } else {
      assert (s + t)[0] == s[0] && (s + t)[1..] == s[1..] + t;
      RunJoin(Apply(a, s[0], size), s[1..], b, t, size, c);
    }
  }

  lemma RunOne(a: Link, st: Step, size: nat)
    requires Allowed(a, st, size)
    ensures Run(a, [st], size, Apply(a, st, size))
  {
    hide Allowed, Apply;
    assert [st][1..] == [];
    assert Run(Apply(a, st, size), [], size, Apply(a, st, size));
  }

  /** A datagram that `__enet_protocol_check_outgoing_commands` fills with `n` commands is `n` steps of the channel. */
  lemma {:induction false} DatagramRun(l: Link, flow: Flow, n: nat, s': Sender, size: nat) returns (l': Link)
    requires FlowOk(flow) && SendRun(l.sender, LimitOf(flow), n, s')
    ensures Run(l, seq(n, _ => Transmit(flow)), size, l') && l'.sender == s' && l'.ps == l.ps && l'.receiver == l.receiver
    decreases n
  {
    hide LimitOf, FlowOk, SendFirst, Run, Gated;
    l' := l;
    if n == 0 {
      RunNone(l, seq(n, _ => Transmit(flow)), size);
    } else {
      var t: Sender :| SendRun(l.sender, LimitOf(flow), n - 1, t) && |t.windows| == WINDOWS && CanSend(t, LimitOf(flow)) && s' == SendFirst(t);
      var l1 := DatagramRun(l, flow, n - 1, t, size);
      RunOne(l1, Transmit(flow), size);
      l' := Apply(l1, Transmit(flow), size);
      RunJoin(l, seq(n - 1, _ => Transmit(flow)), l1, [Transmit(flow)], size, l');
      assert seq(n - 1, _ => Transmit(flow)) + [Transmit(flow)] == seq(n, _ => Transmit(flow));
    }
  }

  lemma RunNone(l: Link, steps: seq<Step>, size: nat)
    requires steps == []
    ensures Run(l, steps, size, l)
  {
  }

  // ---------------------------------------------------------------- everything on the wire arrives

  ghost function Missing(n: nat, p: seq<Incoming>, k: nat): nat {
    if k == 0 then 0 else Missing(n, p, k - 1) + if Received(n, p, k) then 0 else 1
  }

  lemma {:induction false} MissingLess(n: nat, p: seq<Incoming>, n': nat, p': seq<Incoming>, k: nat, u: nat)
    requires forall v: nat :: Received(n, p, v) ==> Received(n', p', v)
    ensures Missing(n', p', k) <= Missing(n, p, k)
    ensures 1 <= u <= k && !Received(n, p, u) && Received(n', p', u) ==> Missing(n', p', k) < Missing(n, p, k)
    decreases k
  {
    hide Received;
    if k > 0 {
      MissingLess(n, p, n', p', k - 1, u);
    }
  }

  /** Nothing is missing, or there is a first number that is. */
  lemma {:induction false} FirstMissing(n: nat, p: seq<Incoming>, k: nat) returns (u: nat)
    ensures u == 0 ==> forall v: nat :: 1 <= v <= k ==> Received(n, p, v)
    ensures u != 0 ==> u <= k && !Received(n, p, u) && forall v: nat :: 1 <= v < u ==> Received(n, p, v)
    decreases k
  {
    hide Received;
    u := 0;
    if k > 0 {
      u := FirstMissing(n, p, k - 1);
      if u == 0 && !Received(n, p, k) {
        u := k;
      }
    }
  }

  /** The first missing number belongs to the next packet. */
  lemma FirstIsNext(l: Link, next: nat, size: nat, u: nat)
    requires LinkOk(l, next, size) && 1 <= u <= next && !Received(Last(l), l.receiver.pending, u)
    requires forall v: nat :: 1 <= v < u ==> Received(Last(l), l.receiver.pending, v)
    ensures |l.receiver.dispatched| < |l.ps|
    ensures Last(l) < u <= Last(l) + |l.ps[|l.receiver.dispatched|]|
  {
    hide Received, Base, Win, Open, RecvOk;
    LastSent(l, next, size);
    LastReceivedAll(Last(l), l.receiver.pending);
    if |l.receiver.dispatched| < |l.ps| {
      var v := NextIncomplete(l.ps, |l.receiver.dispatched|, l.receiver, size);
    }
  }

  lemma LastReceivedAll(n: nat, p: seq<Incoming>)
    ensures forall v: nat :: v <= n ==> Received(n, p, v)
  {
  }

  /** The datagrams of the next packet are near and fresh. */
  lemma NextIsNear(n: nat, k: nat)
    requires k < 4 * WINDOW_SIZE
    ensures Win(n + 1 + k) <= Win(n) + 4 && Win(n) <= Win(n + 1) + 9
  {
    WinMonotone(n + 1 + k, n + 4 * WINDOW_SIZE);
    WinMonotone(n, n + 1);
  }

  /** Everything unacknowledged is on the wire. */
  ghost predicate OnWire(l: Link) {
    forall u: nat :: Open(l.sender, ById(u)) > 0 ==> u in l.net
  }

  /** What is missing is unacknowledged. */
  lemma MissingOpen(l: Link, next: nat, size: nat, u: nat)
    requires LinkOk(l, next, size) && 1 <= u <= next && |l.receiver.dispatched| <= |l.ps| && !Received(Last(l), l.receiver.pending, u)
    ensures Open(l.sender, ById(u)) > 0
  {
    hide Received, Open, RecvOk, SenderOk, PacketsOk, Base;
  }

  lemma {:induction false} CatchUp(l: Link, next: nat, size: nat) returns (steps: seq<Step>, l': Link)
    requires LinkOk(l, next, size) && Moderate(l.ps) && OnWire(l)
    ensures Run(l, steps, size, l') && LinkOk(l', next, size) && forall j :: 0 <= j < |steps| ==> !steps[j].Transmit?
    ensures l'.ps == l.ps && l'.sender == l.sender && l'.net == l.net
    ensures forall v: nat :: 1 <= v <= next ==> Received(Last(l'), l'.receiver.pending, v)
    decreases Missing(Last(l), l.receiver.pending, next)
  {
    hide Received, Base, Win, Open, RecvOk, SenderOk, PacketsOk, Apply, Receive;
    steps, l' := [], l;
    LastSent(l, next, size);
    var u := FirstMissing(Last(l), l.receiver.pending, next);
    if u != 0 {
      FirstIsNext(l, next, size, u);
      MissingOpen(l, next, size, u);
      var m, k := |l.receiver.dispatched|, u - Last(l) - 1;
      NextIsNear(Last(l), k);
      WinMonotone(Last(l), u);
      var l1 := Deliver(l, next, size, m, k);
      LastSent(l1, next, size);
      MissingLess(Last(l), l.receiver.pending, Last(l1), l1.receiver.pending, next, u);
      RunOne(l, Data(m, k, false), size);
      steps, l' := CatchUp(l1, next, size);
      RunJoin(l, [Data(m, k, false)], l1, steps, size, l');
      steps := [Data(m, k, false)] + steps;
    }
  }

  // ---------------------------------------------------------------- everything is acknowledged

  /** The number of unacknowledged commands up to `k`. */
  ghost function OpenUpTo(s: Sender, k: nat): nat {
    if k == 0 then 0 else OpenUpTo(s, k - 1) + Open(s, ById(k))
  }

  lemma {:induction false} OpenLess(s: Sender, s': Sender, k: nat, u: nat)
    requires forall v: nat :: Open(s', ById(v)) == if v == u then 0 else Open(s, ById(v))
    ensures OpenUpTo(s', k) <= OpenUpTo(s, k)
    ensures 1 <= u <= k && Open(s, ById(u)) > 0 ==> OpenUpTo(s', k) < OpenUpTo(s, k)
    decreases k
  {
    hide Open;
    if k > 0 {
      OpenLess(s, s', k - 1, u);
    }
  }

  predicate Small(cs: seq<OutCmd>, b: nat) {
    forall j :: 0 <= j < |cs| ==> cs[j].len <= b
  }

  /** No command is longer than `b`. */
  predicate Fits(s: Sender, b: nat) {
    Small(s.sent, b) && Small(s.outgoing, b)
  }

  lemma AckFits(s: Sender, q: seq16, b: nat)
    requires |s.windows| == WINDOWS && Fits(s, b)
    ensures Fits(Acknowledge(s, q), b)
  {
    hide ClearBit;
    var k, j := IndexOf(s.sent, q), IndexOf(s.outgoing, q);
    if k < |s.sent| {
      RemoveSmall(s.sent, k, b);
    } else if j < Resends(s.outgoing) {
      RemoveSmall(s.outgoing, j, b);
    }
  }

  lemma RemoveSmall(cs: seq<OutCmd>, k: nat, b: nat)
    requires k < |cs| && Small(cs, b)
    ensures Small(Remove(cs, k), b)
  {
    forall j | 0 <= j < |Remove(cs, k)| ensures Remove(cs, k)[j].len <= b {
      assert Remove(cs, k)[j] == cs[if j < k then j else j + 1];
    }
  }

  lemma {:induction false} PacketOf(ps: seq<Packet>, n: nat, u: nat) returns (i: nat, k: nat)
    requires n <= |ps| && 1 <= u <= Base(ps, n)
    ensures i < n && k < |ps[i]| && u == Base(ps, i) + 1 + k
    decreases n
  {
    if u > Base(ps, n - 1) {
      i, k := n - 1, u - Base(ps, n - 1) - 1;
    } else {
      i, k := PacketOf(ps, n - 1, u);
    }
  }

  /** With nothing missing, what is unacknowledged and not dispatched belongs to the next packet. */
  lemma OpenIsNext(l: Link, next: nat, size: nat, i: nat, k: nat)
    requires LinkOk(l, next, size) && Moderate(l.ps) && i < |l.ps| && k < |l.ps[i]|
    requires forall v: nat :: 1 <= v <= next ==> Received(Last(l), l.receiver.pending, v)
    requires Last(l) < Base(l.ps, i) + 1 + k <= next
    ensures Win(Base(l.ps, i) + 1 + k) <= Win(Last(l)) + 6
  {
    hide Received, Base, Win, Open, RecvOk;
    var m := |l.receiver.dispatched|;
    LastSent(l, next, size);
    if m < |l.ps| {
      var v := NextIncomplete(l.ps, m, l.receiver, size);
      NextIsNear(Last(l), |l.ps[m]| - 1);
      WinMonotone(Base(l.ps, i) + 1 + k, Last(l) + 1 + (|l.ps[m]| - 1));
    }
  }

  /** The datagram of an unacknowledged command is delivered again, and this time acknowledged. */
  lemma DeliverAgain(l: Link, next: nat, size: nat, u: nat) returns (st: Step, l': Link)
    requires LinkOk(l, next, size) && Moderate(l.ps) && Open(l.sender, ById(u)) > 0 && u in l.net
    requires forall v: nat :: 1 <= v <= next ==> Received(Last(l), l.receiver.pending, v)
    ensures Allowed(l, st, size) && l' == Apply(l, st, size) && LinkOk(l', next, size) && st.Data?
    ensures l'.ps == l.ps && l'.sender == l.sender && l'.net == l.net && u in l'.acks
    ensures forall v: nat :: 1 <= v <= next ==> Received(Last(l'), l'.receiver.pending, v)
  {
    hide Received, Base, Win, Open, RecvOk, PacketsOk, Receive, Apply;
    LastSent(l, next, size);
    OpenSent(l.sender, Base(l.ps, |l.ps|), next, u);
    var i, k := PacketOf(l.ps, |l.ps|, u);
    OpenIsFresh(l, next, size, i, k, false);
    if u > Last(l) {
      OpenIsNext(l, next, size, i, k);
    }
    st := Data(i, k, false);
    l' := Deliver(l, next, size, i, k);
    LastSent(l', next, size);
  }

  /** One unacknowledged command is delivered again and acknowledged. */
  lemma AckOne(l: Link, next: nat, size: nat, u: nat, b: nat) returns (steps: seq<Step>, l': Link)
    requires LinkOk(l, next, size) && Moderate(l.ps) && Fits(l.sender, b) && Open(l.sender, ById(u)) > 0 && u in l.net
    requires forall v: nat :: 1 <= v <= next ==> Received(Last(l), l.receiver.pending, v)
    ensures Run(l, steps, size, l') && LinkOk(l', next, size) && l'.ps == l.ps && l'.net == l.net && Fits(l'.sender, b)
    ensures forall j :: 0 <= j < |steps| ==> !steps[j].Transmit?
    ensures |l'.receiver.dispatched| <= |l'.ps|
    ensures forall v: nat :: 1 <= v <= next ==> Received(Last(l'), l'.receiver.pending, v)
    ensures forall v: nat :: Open(l'.sender, ById(v)) == if v == u then 0 else Open(l.sender, ById(v))
    ensures 1 <= u <= next
  {
    hide Received, Win, Open, Acknowledge, Fits, Run, LinkOk, Moderate, Last;
    var st, l1 := DeliverAgain(l, next, size, u);
    RunOne(l, st, size);
    FreshAck(l1, next, size, u);
    l' := Apply(l1, Ack(u), size);
    RunOne(l1, Ack(u), size);
    RunJoin(l, [st], l1, [Ack(u)], size, l');
    AckStep(l1, next, u, size);
    LinkParts(l1, next, size);
    AckOk(l1.sender, Base(l1.ps, |l1.ps|), next, u);
    AckFits(l1.sender, Seq16(u), b);
    SameLast(l1, l');
    LinkParts(l', next, size);
    OpenSent(l1.sender, Base(l1.ps, |l1.ps|), next, u);
    steps := [st] + [Ack(u)];
  }

  lemma LinkParts(l: Link, next: nat, size: nat)
    requires LinkOk(l, next, size)
    ensures SenderOk(l.sender, Base(l.ps, |l.ps|), next) && |l.sender.windows| == WINDOWS
    ensures |l.receiver.dispatched| <= |l.ps|
    ensures forall u :: u in l.acks ==> 1 <= u <= next
  {
    hide RecvOk, Received, PacketsOk, Open, HasBit, Waiting, Win;
    DispatchedBound(l.ps, |l.receiver.dispatched|, l.receiver);
  }

  lemma SameLast(l: Link, l': Link)
    requires l'.ps == l.ps && l'.receiver == l.receiver && |l.receiver.dispatched| <= |l.ps|
    ensures Last(l') == Last(l)
  {
  }

  lemma OpenSent(s: Sender, total: nat, next: nat, u: nat)
    requires SenderOk(s, total, next) && Open(s, ById(u)) > 0
    ensures 1 <= u <= next && Win(next) <= Win(u) + 6
  {
    hide Open, HasBit, Win, Waiting;
  }

  lemma FreshAck(l: Link, next: nat, size: nat, u: nat)
    requires LinkOk(l, next, size) && u in l.acks && Open(l.sender, ById(u)) > 0
    ensures Allowed(l, Ack(u), size)
  {
    hide Open, Win, Received, RecvOk, PacketsOk, Base, Newest;
    OpenSent(l.sender, Base(l.ps, |l.ps|), next, u);
    NewestIs(l, next);
  }

  /** Some command is unacknowledged, or nothing is in flight or waits to be sent again. */
  lemma SomeOpen(s: Sender) returns (u: nat)
    ensures Open(s, ById(u)) > 0 || (s.sent == [] && Resends(s.outgoing) == 0)
  {
    u := 0;
    if s.sent != [] {
      u := s.sent[0].id;
      CountAt(s.sent, 0, ById(u));
    } else if Resends(s.outgoing) > 0 {
      u := s.outgoing[0].id;
      CountAt(s.outgoing[..Resends(s.outgoing)], 0, ById(u));
    }
  }

  lemma {:induction false} AckAll(l: Link, next: nat, size: nat, b: nat) returns (steps: seq<Step>, l': Link)
    requires LinkOk(l, next, size) && Moderate(l.ps) && Fits(l.sender, b) && OnWire(l)
    requires forall v: nat :: 1 <= v <= next ==> Received(Last(l), l.receiver.pending, v)
    ensures Run(l, steps, size, l') && LinkOk(l', next, size) && l'.ps == l.ps && Fits(l'.sender, b) && OnWire(l')
    ensures forall j :: 0 <= j < |steps| ==> !steps[j].Transmit?
    ensures l'.sender.sent == [] && Resends(l'.sender.outgoing) == 0
    decreases OpenUpTo(l.sender, next)
  {
    hide Received, Base, Win, Open, LinkOk, Apply, Fits, Resends, Last;
    steps, l' := [], l;
    var u := SomeOpen(l.sender);
    if Open(l.sender, ById(u)) > 0 {
      var s1, l1 := AckOne(l, next, size, u, b);
      OpenLess(l.sender, l1.sender, next, u);
      steps, l' := AckAll(l1, next, size, b);
      RunJoin(l, s1, l1, steps, size, l');
      steps := s1 + steps;
    }
  }

  // ---------------------------------------------------------------- everything is sent

  /** Flow control computes its limit from the same values whenever something is sent. */
  predicate Uses(steps: seq<Step>, flow: Flow) {
    forall j :: 0 <= j < |steps| && steps[j].Transmit? ==> steps[j].flow == flow
  }

  /** From a state that keeps the invariant, everything queued can be delivered and acknowledged. */
  lemma {:induction false} FinishFrom(l: Link, next: nat, flow: Flow, size: nat) returns (steps: seq<Step>, l': Link)
    requires LinkOk(l, next, size) && Moderate(l.ps) && next <= Base(l.ps, |l.ps|) && OnWire(l)
    requires FlowOk(flow) && Fits(l.sender, LimitOf(flow))
    ensures Run(l, steps, size, l') && l'.ps == l.ps && l'.sender.outgoing == [] && l'.sender.sent == []
    ensures Uses(steps, flow) && exists n :: LinkOk(l', n, size)
    decreases Base(l.ps, |l.ps|) - next
  {
    hide Received, Base, Win, Open, LinkOk, Apply, Fits, Resends, Allowed, LimitOf, FlowOk;
    var s1, l1 := CatchUp(l, next, size);
    var s2, l2 := AckAll(l1, next, size, LimitOf(flow));
    RunJoin(l, s1, l1, s2, size, l2);
    steps, l' := s1 + s2, l2;
    if l2.sender.outgoing != [] {
      var l3 := SendOne(l2, next, flow, size);
      RunOne(l2, Transmit(flow), size);
      RunJoin(l, steps, l2, [Transmit(flow)], size, l3);
      var s4;
      s4, l' := FinishFrom(l3, next + 1, flow, size);
      RunJoin(l, steps + [Transmit(flow)], l3, s4, size, l');
      steps := steps + [Transmit(flow)] + s4;
    }
  }

  /** The next command goes out for the first time. */
  lemma SendOne(l: Link, next: nat, flow: Flow, size: nat) returns (l': Link)
    requires LinkOk(l, next, size) && FlowOk(flow) && Fits(l.sender, LimitOf(flow)) && OnWire(l)
    requires l.sender.sent == [] && Resends(l.sender.outgoing) == 0 && l.sender.outgoing != []
    ensures Allowed(l, Transmit(flow), size) && l' == Apply(l, Transmit(flow), size)
    ensures LinkOk(l', next + 1, size) && l'.ps == l.ps && Fits(l'.sender, LimitOf(flow)) && OnWire(l')
    ensures next + 1 <= Base(l.ps, |l.ps|)
  {
    hide Received, Base, Win, Open, RecvOk, PacketsOk, SenderOk, Agreed, Resends, HasBit, Gated, LimitOf, FlowOk;
    NeverStuck(l.sender, Base(l.ps, |l.ps|), next, LimitOf(flow));
    LinkParts(l, next, size);
    var next' := TransmitStep(l, next, flow, size);
    l' := Apply(l, Transmit(flow), size);
    SentAtMost(l', next', size);
  }

  lemma SentAtMost(l: Link, next: nat, size: nat)
    requires LinkOk(l, next, size)
    ensures next <= Base(l.ps, |l.ps|)
  {
    hide Open, Win, RecvOk, Base;
  }

  // ---------------------------------------------------------------- all runs

  /** No piece is longer than `b`. */
  predicate PiecesFit(ps: seq<Packet>, b: nat) {
    forall i, k :: 0 <= i < |ps| && 0 <= k < |ps[i]| ==> |ps[i][k]| <= b
  }

  lemma {:induction false} QueueAllFits(s: Sender, total: nat, p: Packet, k: nat, b: nat)
    requires Fits(s, b) && k <= |p| && forall j :: 0 <= j < |p| ==> |p[j]| <= b
    ensures Fits(QueueAll(s, total, p, k), b)
    decreases k
  {
    if k > 0 {
      QueueAllFits(s, total, p, k - 1, b);
    }
  }

  lemma {:induction false} PickSmall(cs: seq<OutCmd>, due: seq<bool>, want: bool, b: nat)
    requires |due| == |cs| && Small(cs, b)
    ensures Small(Pick(cs, due, want), b)
    decreases |cs|
  {
    if cs != [] {
      PickSmall(cs[..|cs| - 1], due[..|cs| - 1], want, b);
    }
  }

  lemma StepFits(l: Link, st: Step, size: nat, b: nat)
    requires Allowed(l, st, size) && Fits(l.sender, b)
    requires st.Send? ==> forall j :: 0 <= j < |st.p| ==> |st.p[j]| <= b
    ensures Fits(Apply(l, st, size).sender, b)
  {
    hide QueueAll, Pick, Acknowledge, SetBit, Gated;
    match st
    case Send(p) => QueueAllFits(l.sender, Base(l.ps, |l.ps|), p, |p|, b);
    case Transmit(_) =>
    case Expire(due) =>
      PickSmall(l.sender.sent, due, true, b);
      PickSmall(l.sender.sent, due, false, b);
    case Data(_, _, _) =>
    case Ack(a) => AckFits(l.sender, Seq16(a), b);
  }

  lemma PacketsGrow(l: Link, st: Step, size: nat)
    requires Allowed(l, st, size)
    ensures l.ps <= Apply(l, st, size).ps && (st.Send? ==> Apply(l, st, size).ps == l.ps + [st.p])
  {
  }

  lemma {:induction false} RunFits(l: Link, steps: seq<Step>, size: nat, l': Link, b: nat)
    requires Run(l, steps, size, l') && Fits(l.sender, b) && PiecesFit(l'.ps, b)
    ensures Fits(l'.sender, b) && l.ps <= l'.ps
    decreases |steps|
  {
    hide Apply, Allowed, Fits, PiecesFit;
    if steps != [] {
      var l1 := Apply(l, steps[0], size);
      RunGrows(l1, steps[1..], size, l');
      PacketsGrow(l, steps[0], size);
      if steps[0].Send? {
        LastPieces(l.ps, steps[0].p, l'.ps, b);
      }
      StepFits(l, steps[0], size, b);
      RunFits(l1, steps[1..], size, l', b);
    }
  }

  lemma LastPieces(ps: seq<Packet>, p: Packet, qs: seq<Packet>, b: nat)
    requires ps + [p] <= qs && PiecesFit(qs, b)
    ensures forall j :: 0 <= j < |p| ==> |p[j]| <= b
  {
    assert qs[|ps|] == p;
  }

  lemma {:induction false} RunGrows(l: Link, steps: seq<Step>, size: nat, l': Link)
    requires Run(l, steps, size, l')
    ensures l.ps <= l'.ps
    decreases |steps|
  {
    hide Apply, Allowed;
    if steps != [] {
      PacketsGrow(l, steps[0], size);
      RunGrows(Apply(l, steps[0], size), steps[1..], size, l');
    }
  }

  // ---------------------------------------------------------------- after a total loss

  /** The unacknowledged commands together carry at most `b` bytes, in flight or waiting to be sent again. */
  predicate Carried(s: Sender, b: nat) {
    SumLen(s.sent) + SumLen(s.outgoing[..Resends(s.outgoing)]) <= b
  }

  /** Flow control has never allowed more than `b`. */
  predicate LimitsAtMost(steps: seq<Step>, b: nat) {
    forall j :: 0 <= j < |steps| && steps[j].Transmit? ==> LimitOf(steps[j].flow) <= b
  }

  lemma {:induction false} QueueAllCarried(s: Sender, total: nat, p: Packet, k: nat, b: nat)
    requires Carried(s, b) && k <= |p|
    ensures Carried(QueueAll(s, total, p, k), b)
    decreases k
  {
    hide SumLen, Resends;
    if k > 0 {
      QueueAllCarried(s, total, p, k - 1, b);
      var t := QueueAll(s, total, p, k - 1);
      ResendsKeep(t.outgoing, OutCmd(total + k, |p[k - 1]|, 0));
      assert Queue(t, total + k, |p[k - 1]|).outgoing[..Resends(t.outgoing)] == t.outgoing[..Resends(t.outgoing)];
    }
  }

  lemma SendCarried(s: Sender, total: nat, next: nat, limit: nat, b: nat)
    requires SenderOk(s, total, next) && Carried(s, b) && CanSend(s, limit) && limit <= b
    ensures Carried(SendFirst(s), b)
  {
    hide SumLen, Open, HasBit, Gated, Win, Pow2;
    var cs, m := s.outgoing, Resends(s.outgoing);
    WaitingTail(cs, total, next);
    SumLenSend(s);
    if m > 0 {
      assert cs[..m] == [cs[0]] + cs[1..][..m - 1];
      SumLenConcat([cs[0]], cs[1..][..m - 1]);
      SumLenOne(cs[0]);
    } else {
      assert SumLen(cs[1..][..0]) == 0 by {
        NoLen(cs[1..][..0]);
      }
    }
  }

  lemma NoLen(cs: seq<OutCmd>)
    requires cs == []
    ensures SumLen(cs) == 0
  {
  }

  lemma TimeOutCarried(s: Sender, total: nat, next: nat, due: seq<bool>, b: nat)
    requires SenderOk(s, total, next) && Carried(s, b) && |due| == |s.sent|
    ensures Carried(TimeOut(s, due), b)
  {
    hide SumLen, Open, HasBit, Pick, Resends, Win, Pow2, Waiting;
    var moved, m := Pick(s.sent, due, true), Resends(s.outgoing);
    PickAttempts(s.sent, due, true);
    ResendsAppend(moved, s.outgoing);
    SumLenPick(s.sent, due);
    assert (moved + s.outgoing)[..|moved| + m] == moved + s.outgoing[..m];
    SumLenConcat(moved, s.outgoing[..m]);
  }

  lemma AckCarried(s: Sender, q: seq16, b: nat)
    requires |s.windows| == WINDOWS && Carried(s, b)
    ensures Carried(Acknowledge(s, q), b)
  {
    hide SumLen, ClearBit, Remove;
    var k, j, m := IndexOf(s.sent, q), IndexOf(s.outgoing, q), Resends(s.outgoing);
    if k < |s.sent| {
      SumLenRemove(s.sent, k);
    } else if j < m {
      ResendsRemove(s.outgoing, j);
      RemoveFront(s.outgoing, j, m);
      SumLenRemove(s.outgoing[..m], j);
    }
  }

  lemma StepCarried(l: Link, next: nat, st: Step, size: nat, b: nat)
    requires LinkOk(l, next, size) && Allowed(l, st, size) && Carried(l.sender, b) && (st.Transmit? ==> LimitOf(st.flow) <= b)
    ensures Carried(Apply(l, st, size).sender, b)
  {
    hide Carried, QueueAll, Pick, Acknowledge, SendFirst, CanSend, TimeOut, SenderOk, RecvOk, PacketsOk, Agreed, Receive, Base, LimitOf;
    var total := Base(l.ps, |l.ps|);
    match st
    case Send(p) => QueueAllCarried(l.sender, total, p, |p|, b);
    case Transmit(flow) => SendCarried(l.sender, total, next, LimitOf(flow), b);
    case Expire(due) => TimeOutCarried(l.sender, total, next, due, b);
    case Data(_, _, _) =>
    case Ack(a) => AckCarried(l.sender, Seq16(a), b);
  }

  lemma {:induction false} RunCarried(l: Link, next: nat, steps: seq<Step>, size: nat, l': Link, b: nat)
    requires LinkOk(l, next, size) && Run(l, steps, size, l') && Carried(l.sender, b) && LimitsAtMost(steps, b)
    ensures Carried(l'.sender, b)
    decreases |steps|
  {
    hide LinkOk, Apply, Allowed, Carried, LimitOf;
    if steps != [] {
      var next' := StepOk(l, next, steps[0], size);
      StepCarried(l, next, steps[0], size, b);
      RunCarried(Apply(l, steps[0], size), next', steps[1..], size, l', b);
    }
  }

  lemma EmptyFits(b: nat)
    ensures Fits(EMPTY.sender, b) && Carried(EMPTY.sender, b)
  {
  }

  lemma {:induction false} RunLimits(l: Link, steps: seq<Step>, size: nat, l': Link)
    requires Run(l, steps, size, l')
    ensures LimitsAtMost(steps, MAX_WINDOW_SIZE)
    decreases |steps|
  {
    hide Apply, LimitOf;
    if steps != [] {
      if steps[0].Transmit? {
        LimitRange(steps[0].flow);
      }
      RunLimits(Apply(l, steps[0], size), steps[1..], size, l');
    }
  }

  /** In every run: what is unacknowledged, in flight or waiting to be sent again, is never more than flow control has
      allowed at some time, and so never more than the largest window. */
  lemma UnackedFits(steps: seq<Step>, size: nat, l: Link, b: nat)
    requires Run(EMPTY, steps, size, l)
    ensures LimitsAtMost(steps, b) ==> SumLen(l.sender.sent) + SumLen(l.sender.outgoing[..Resends(l.sender.outgoing)]) <= b
    ensures SumLen(l.sender.sent) + SumLen(l.sender.outgoing[..Resends(l.sender.outgoing)]) <= MAX_WINDOW_SIZE
  {
    hide Run, SumLen, LimitsAtMost, LinkOk;
    EmptyOk(size);
    RunLimits(EMPTY, steps, size, l);
    EmptyFits(MAX_WINDOW_SIZE);
    RunCarried(EMPTY, 0, steps, size, l, MAX_WINDOW_SIZE);
    if LimitsAtMost(steps, b) {
      EmptyFits(b);
      RunCarried(EMPTY, 0, steps, size, l, b);
    }
  }

  /** All that is on its way is lost. */
  function Forget(l: Link): Link {
    l.(net := {}, acks := {})
  }

  lemma ForgetOk(l: Link, next: nat, size: nat)
    requires LinkOk(l, next, size)
    ensures LinkOk(Forget(l), next, size)
  {
    hide RecvOk, SenderOk, PacketsOk, Received, Open, Win, Base;
  }

  /** What may be sent again can be sent again, all of it, if the limit is not lower than what is unacknowledged. */
  lemma {:induction false} ResendAll(l: Link, next: nat, flow: Flow, size: nat) returns (steps: seq<Step>, l': Link)
    requires LinkOk(l, next, size) && FlowOk(flow) && Carried(l.sender, LimitOf(flow)) && Fits(l.sender, LimitOf(flow))
    requires forall j :: 0 <= j < |l.sender.sent| ==> l.sender.sent[j].id in l.net
    ensures Run(l, steps, size, l') && LinkOk(l', next, size) && Fits(l'.sender, LimitOf(flow)) && l'.ps == l.ps
    ensures Resends(l'.sender.outgoing) == 0 && Uses(steps, flow)
    ensures forall j :: 0 <= j < |l'.sender.sent| ==> l'.sender.sent[j].id in l'.net
    decreases Resends(l.sender.outgoing)
  {
    hide LinkOk, Carried, Fits, Apply, Allowed, Resends, LimitOf, FlowOk;
    steps, l' := [], l;
    if Resends(l.sender.outgoing) > 0 {
      var l1 := ResendOne(l, next, flow, size);
      RunOne(l, Transmit(flow), size);
      steps, l' := ResendAll(l1, next, flow, size);
      RunJoin(l, [Transmit(flow)], l1, steps, size, l');
      steps := [Transmit(flow)] + steps;
    }
  }

  lemma MayResend(s: Sender, total: nat, next: nat, b: nat)
    requires SenderOk(s, total, next) && Carried(s, b) && Resends(s.outgoing) > 0
    ensures CanSend(s, b)
    ensures Resends(s.outgoing[1..]) == Resends(s.outgoing) - 1
  {
    hide SumLen, Open, HasBit, Win, Pow2;
    var cs, m := s.outgoing, Resends(s.outgoing);
    assert cs[..m] == [cs[0]] + cs[1..][..m - 1];
    SumLenConcat([cs[0]], cs[1..][..m - 1]);
    SumLenOne(cs[0]);
  }

  lemma ResendOne(l: Link, next: nat, flow: Flow, size: nat) returns (l': Link)
    requires LinkOk(l, next, size) && FlowOk(flow) && Carried(l.sender, LimitOf(flow)) && Fits(l.sender, LimitOf(flow))
    requires Resends(l.sender.outgoing) > 0 && forall j :: 0 <= j < |l.sender.sent| ==> l.sender.sent[j].id in l.net
    ensures Allowed(l, Transmit(flow), size) && l' == Apply(l, Transmit(flow), size) && LinkOk(l', next, size) && l'.ps == l.ps
    ensures Carried(l'.sender, LimitOf(flow)) && Fits(l'.sender, LimitOf(flow))
    ensures Resends(l'.sender.outgoing) == Resends(l.sender.outgoing) - 1
    ensures forall j :: 0 <= j < |l'.sender.sent| ==> l'.sender.sent[j].id in l'.net
  {
    hide Carried, Fits, Resends, SenderOk, RecvOk, PacketsOk, Agreed, CanSend, Base, LimitOf, FlowOk;
    MayResend(l.sender, Base(l.ps, |l.ps|), next, LimitOf(flow));
    LinkParts(l, next, size);
    l' := Apply(l, Transmit(flow), size);
    var next' := TransmitStep(l, next, flow, size);
    StepCarried(l, next, Transmit(flow), size, LimitOf(flow));
    StepFits(l, Transmit(flow), size, LimitOf(flow));
  }

  lemma SentOnWire(l: Link)
    requires Resends(l.sender.outgoing) == 0 && forall j :: 0 <= j < |l.sender.sent| ==> l.sender.sent[j].id in l.net
    ensures OnWire(l)
  {
    forall u: nat | Open(l.sender, ById(u)) > 0 ensures u in l.net {
      CountNone(l.sender.outgoing[..0], ById(u));
      var k := CountFind(l.sender.sent, ById(u));
    }
  }

  /** After a total loss, time-outs put everything unacknowledged back on the wire. */
  lemma BackOnWire(l: Link, next: nat, flow: Flow, size: nat) returns (steps: seq<Step>, l': Link)
    requires LinkOk(l, next, size) && FlowOk(flow) && Carried(l.sender, LimitOf(flow)) && Fits(l.sender, LimitOf(flow))
    ensures Run(l, steps, size, l') && LinkOk(l', next, size) && Fits(l'.sender, LimitOf(flow)) && l'.ps == l.ps && OnWire(l')
    ensures Uses(steps, flow)
  {
    hide LinkOk, Carried, Fits, Allowed, Run, Resends, OnWire, LimitOf, FlowOk;
    var due := seq(|l.sender.sent|, _ => true);
    var st := Expire(due);
    AllowedExpire(l, due, size);
    ExpireStep(l, next, due, size);
    StepCarried(l, next, st, size, LimitOf(flow));
    StepFits(l, st, size, LimitOf(flow));
    PickAll(l.sender.sent, due);
    var l1 := Apply(l, st, size);
    RunOne(l, st, size);
    steps, l' := ResendAll(l1, next, flow, size);
    RunJoin(l, [st], l1, steps, size, l');
    steps := [st] + steps;
    SentOnWire(l');
  }

  lemma AllowedExpire(l: Link, due: seq<bool>, size: nat)
    requires |due| == |l.sender.sent|
    ensures Allowed(l, Expire(due), size)
  {
  }

  /** Nothing is left to send or to be acknowledged, and everything has been dispatched, whole and in order. */
  ghost predicate Finished(l: Link) {
    && l.sender.outgoing == [] && l.sender.sent == [] && |l.receiver.dispatched| == |l.ps|
    && forall j :: 0 <= j < |l.ps| ==> l.receiver.dispatched[j] == Concat(l.ps[j])
  }

  /** However the network has treated the channel so far, and even if everything on its way is lost now: if flow control
      allows as much as is unacknowledged, and any single piece, everything sent can still be delivered, whole and in order,
      and acknowledged. */
  lemma CanFinish(steps: seq<Step>, size: nat, l: Link, flow: Flow) returns (more: seq<Step>, l': Link)
    requires Run(EMPTY, steps, size, l) && Moderate(l.ps)
    requires FlowOk(flow) && PiecesFit(l.ps, LimitOf(flow)) && Carried(l.sender, LimitOf(flow))
    ensures Run(Forget(l), more, size, l') && Uses(more, flow) && l'.ps == l.ps && Finished(l')
  {
    hide Run, Concat, LinkOk, PiecesFit, Moderate, Base, Carried, Fits, OnWire, LimitOf, FlowOk;
    EmptyOk(size);
    var next := RunOk(EMPTY, 0, steps, size, l);
    EmptyFits(LimitOf(flow));
    RunFits(EMPTY, steps, size, l, LimitOf(flow));
    ForgetOk(l, next, size);
    var s1, l1 := BackOnWire(Forget(l), next, flow, size);
    SentAtMost(l1, next, size);
    var s2;
    s2, l' := FinishFrom(l1, next, flow, size);
    RunJoin(Forget(l), s1, l1, s2, size, l');
    more := s1 + s2;
    var n :| LinkOk(l', n, size);
    IdleDispatched(l', n, size);
  }
}
