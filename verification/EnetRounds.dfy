/** Runs of a kind: packets are queued, and their commands go out one by one while at most one of them, whose datagrams or
    acknowledgements get lost, stays unacknowledged. */
module EnetRounds {
  import opened Bits
  import opened EnetSequence
  import opened EnetGate
  import opened Masks
  import opened EnetReceive
  import opened EnetOrder
  import opened EnetDeliver
  import opened EnetSend
  import opened EnetWindow
  import opened EnetLink
  import opened EnetRecover

  // ---------------------------------------------------------------- queueing

  /** None of these commands has been sent, and `g` says how long each is. */
  predicate Lens(cs: seq<OutCmd>, g: nat -> nat) {
    forall j :: 0 <= j < |cs| ==> cs[j].attempts == 0 && cs[j].len == g(cs[j].id)
  }

  lemma {:induction false} QueueAllLens(s: Sender, total: nat, p: Packet, k: nat, g: nat -> nat)
    requires Lens(s.outgoing, g) && k <= |p| && forall j :: 0 <= j < k ==> |p[j]| == g(total + 1 + j)
    ensures Lens(QueueAll(s, total, p, k).outgoing, g) && QueueAll(s, total, p, k).sent == s.sent
    decreases k
  {
    if k > 0 {
      QueueAllLens(s, total, p, k - 1, g);
    }
  }

  /** The pieces of the packets have the lengths that `g` gives for their numbers. */
  predicate Measured(ps: seq<Packet>, g: nat -> nat) {
    forall i, j :: 0 <= i < |ps| && 0 <= j < |ps[i]| ==> |ps[i][j]| == g(Base(ps, i) + 1 + j)
  }

  /** Nothing has been sent. */
  ghost predicate Unsent(l: Link, g: nat -> nat, size: nat) {
    LinkOk(l, 0, size) && Lens(l.sender.outgoing, g) && l.sender.sent == [] && l.acks == {} && l.receiver == EMPTY.receiver
  }

  lemma SendMore(l: Link, p: Packet, g: nat -> nat, size: nat) returns (l': Link)
    requires Unsent(l, g, size) && PacketOk(p, size)
    requires forall j :: 0 <= j < |p| ==> |p[j]| == g(Base(l.ps, |l.ps|) + 1 + j)
    ensures Run(l, [Send(p)], size, l') && Unsent(l', g, size) && l'.ps == l.ps + [p]
  {
    hide LinkOk, PacketOk, QueueAll, Run, Base;
    SendStep(l, 0, p, size);
    QueueAllLens(l.sender, Base(l.ps, |l.ps|), p, |p|, g);
    l' := Apply(l, Send(p), size);
    RunOne(l, Send(p), size);
  }

  lemma {:induction false} SendAll(l: Link, ps: seq<Packet>, g: nat -> nat, size: nat) returns (steps: seq<Step>, l': Link)
    requires Unsent(l, g, size) && l.ps <= ps && PacketsOk(ps, size) && Measured(ps, g)
    ensures Run(l, steps, size, l') && Unsent(l', g, size) && l'.ps == ps
    ensures forall j :: 0 <= j < |steps| ==> !steps[j].Transmit?
    decreases |ps| - |l.ps|
  {
    hide Unsent, PacketOk, Run, Base;
    steps, l' := [], l;
    RunNone(l, steps, size);
    var k := |l.ps|;
    if k < |ps| {
      BasePrefix(l.ps, ps, k);
      var l1 := SendMore(l, ps[k], g, size);
      steps, l' := SendAll(l1, ps, g, size);
      RunJoin(l, [Send(ps[k])], l1, steps, size, l');
      steps := [Send(ps[k])] + steps;
    } else {
      assert l.ps == ps;
    }
  }

  lemma EmptyUnsent(g: nat -> nat, size: nat)
    ensures Unsent(EMPTY, g, size)
  {
    hide LinkOk;
    EmptyOk(size);
  }

  // ---------------------------------------------------------------- a command goes out

  /** Of the first `r` commands, all but the one numbered `lost` have been acknowledged. */
  function Unacked(r: nat, lost: nat, g: nat -> nat): seq<OutCmd> {
    if r < lost then [] else [OutCmd(lost, g(lost), 1)]
  }

  ghost predicate Sending(l: Link, r: nat, lost: nat, g: nat -> nat, size: nat) {
    && LinkOk(l, r, size) && Lens(l.sender.outgoing, g) && l.sender.sent == Unacked(r, lost, g)
    && |l.receiver.dispatched| <= |l.ps|
  }

  /** The gate is open up to six windows behind the unacknowledged command. */
  lemma GateOpen(s: Sender, total: nat, r: nat, lost: nat, g: nat -> nat)
    requires SenderOk(s, total, r) && s.sent == Unacked(r, lost, g) && Resends(s.outgoing) == 0
    requires s.outgoing != [] && s.outgoing[0] == OutCmd(r + 1, g(r + 1), 0) && (r >= lost ==> Win(r + 1) <= Win(lost) + 6)
    ensures !Gated(s, s.outgoing[0])
  {
    hide HasBit, BitAnd, GateMask, Pow2, Waiting, Resends, SumLen, Win;
    var w := Window16(Seq16(r + 1));
    forall v: nat | v < WINDOWS
      ensures s.windows[v] == if r >= lost && v == Window16(Seq16(lost)) then 1 else 0
    {
      CountNone(s.outgoing[..0], ByWindow(v));
      CountOne(OutCmd(lost, g(lost), 1), ByWindow(v));
      CountNone([], ByWindow(v));
    }
    GateTest(s.used, w);
    if r >= lost && (r + 1) % WINDOW_SIZE == 0 {
      Apart(lost, r + 1);
    }
    Window16Win(r + 1);
  }

  lemma Apart(a: nat, b: nat)
    requires a < b && b % WINDOW_SIZE == 0 && Win(b) <= Win(a) + 6
    ensures (Window16(Seq16(a)) + WINDOWS - Window16(Seq16(b))) % WINDOWS >= FREE_WINDOWS + 2
  {
    Window16Win(a);
    Window16Win(b);
    hide Window16, Seq16;
    var d := Win(b) - Win(a);
    assert 1 <= d <= 6;
    Around(Win(a), d);
  }

  lemma Around(a: nat, d: nat)
    requires 1 <= d <= 6
    ensures (a % WINDOWS + WINDOWS - (a + d) % WINDOWS) % WINDOWS == WINDOWS - d
  {
    var q, r := a / WINDOWS, a % WINDOWS;
    if r + d < WINDOWS {
      ModUnique(a + d, WINDOWS, q, r + d);
    } else {
      ModUnique(a + d, WINDOWS, q + 1, r + d - WINDOWS);
    }
  }

  /** So the next command may go out, if the limit allows it beside the unacknowledged one. */
  lemma MayGo(s: Sender, total: nat, r: nat, lost: nat, g: nat -> nat, limit: nat)
    requires SenderOk(s, total, r) && s.sent == Unacked(r, lost, g) && Lens(s.outgoing, g) && r < total
    requires (r >= lost ==> Win(r + 1) <= Win(lost) + 6) && g(lost) + g(r + 1) <= limit
    ensures CanSend(s, limit) && Resends(s.outgoing) == 0
    ensures s.outgoing[0] == OutCmd(r + 1, g(r + 1), 0) && Lens(s.outgoing[1..], g)
  {
    hide HasBit, Open, Win, Gated, Pow2, SumLen;
    ResendsNone(s.outgoing);
    assert s.outgoing != [];
    WaitingTail(s.outgoing, total, r);
    GateOpen(s, total, r, lost, g);
    UnackedLen(r, lost, g);
  }

  lemma UnackedLen(r: nat, lost: nat, g: nat -> nat)
    ensures SumLen(Unacked(r, lost, g)) <= g(lost)
  {
    SumLenOne(OutCmd(lost, g(lost), 1));
  }

  lemma GoOut(l: Link, r: nat, lost: nat, g: nat -> nat, flow: Flow, size: nat) returns (l': Link)
    requires Sending(l, r, lost, g, size) && r < Base(l.ps, |l.ps|)
    requires (r >= lost ==> Win(r + 1) <= Win(lost) + 6) && FlowOk(flow) && g(lost) + g(r + 1) <= LimitOf(flow)
    ensures Allowed(l, Transmit(flow), size) && l' == Apply(l, Transmit(flow), size)
    ensures LinkOk(l', r + 1, size) && l'.ps == l.ps && l'.receiver == l.receiver && l'.acks == l.acks && l'.net == l.net + {r + 1}
    ensures Lens(l'.sender.outgoing, g) && l'.sender.sent == Unacked(r, lost, g) + [OutCmd(r + 1, g(r + 1), 1)]
    ensures !Received(Last(l), l.receiver.pending, r + 1)
  {
    hide Received, Base, Win, Open, RecvOk, PacketsOk, SenderOk, Gated, Lens, Unacked, LimitOf, FlowOk;
    LinkParts(l, r, size);
    MayGo(l.sender, Base(l.ps, |l.ps|), r, lost, g, LimitOf(flow));
    var next' := TransmitStep(l, r, flow, size);
    l' := Apply(l, Transmit(flow), size);
  }

  lemma RoomForTwo(flow: Flow)
    requires FlowOk(flow)
    ensures LimitOf(flow) >= 2
  {
    LimitRange(flow);
  }

  /** Its acknowledgement arrives. */
  lemma AckIn(l: Link, r: nat, lost: nat, g: nat -> nat, size: nat) returns (l': Link)
    requires LinkOk(l, r + 1, size) && |l.receiver.dispatched| <= |l.ps| && Lens(l.sender.outgoing, g)
    requires l.sender.sent == Unacked(r, lost, g) + [OutCmd(r + 1, g(r + 1), 1)] && r + 1 in l.acks
    requires r + 1 != lost && r + 1 < lost + SEQ_MOD
    ensures Allowed(l, Ack(r + 1), size) && l' == Apply(l, Ack(r + 1), size) && Sending(l', r + 1, lost, g, size)
    ensures l' == l.(sender := l'.sender)
  {
    hide Received, Base, Win, Open, RecvOk, PacketsOk, SenderOk, Acknowledge, Newest, Unacked, Lens;
    LinkParts(l, r + 1, size);
    NewestIs(l, r + 1);
    AckStep(l, r + 1, r + 1, size);
    l' := Apply(l, Ack(r + 1), size);
    LastAcked(l.sender, r, lost, g);
  }

  lemma LastAcked(s: Sender, r: nat, lost: nat, g: nat -> nat)
    requires |s.windows| == WINDOWS && s.sent == Unacked(r, lost, g) + [OutCmd(r + 1, g(r + 1), 1)]
    requires r + 1 != lost && r + 1 < lost + SEQ_MOD
    ensures
      var s' := Acknowledge(s, Seq16(r + 1));
      s'.outgoing == s.outgoing && s'.sent == Unacked(r + 1, lost, g)
  {
    hide ClearBit;
    var k := IndexOf(s.sent, Seq16(r + 1));
    assert s.sent[|Unacked(r, lost, g)|].id == r + 1;
    if r >= lost {
      DifferentNumbers(lost, r + 1);
    }
    assert k == |Unacked(r, lost, g)|;
  }

  lemma DifferentNumbers(a: nat, b: nat)
    requires a < b < a + SEQ_MOD
    ensures Seq16(a) != Seq16(b)
  {
  }
}
