/** Flow control can block a channel: commands that the receiver cannot accept yet fill a limit that has sunk, in
    front of the one it is waiting for. */
module EnetBlocked {
  import opened Bits
  import opened EnetSequence
  import opened Masks
  import opened EnetReceive
  import opened EnetOrder
  import opened EnetDeliver
  import opened EnetSend
  import opened EnetWindow
  import opened EnetLink
  import opened EnetRecover
  import opened EnetRounds

  /** The command the receiver waits for, the first number it cannot accept before it has that one, and the last number. */
  const BEHIND: nat := 4096
  const SEVENTH: nat := 28672
  const LAST: nat := SEVENTH + WINDOW_SIZE - 1

  // ---------------------------------------------------------------- the packets

  function Least(a: nat, b: nat): nat {
    if a < b then a else b
  }

  /** The first `j` commands of the seventh window carry this much: pieces of `f` bytes, until `limit` is reached. */
  function Filled(f: nat, limit: nat, j: nat): (t: nat)
    ensures t <= limit
    decreases j
  {
    if j == 0 then 0
    else
      var t := Filled(f, limit, j - 1);
      t + Least(limit - t, f)
  }

  function Piece(f: nat, limit: nat, j: nat): (n: nat)
    ensures n <= f
  {
    Least(limit - Filled(f, limit, j), f)
  }

  lemma FilledMore(f: nat, limit: nat, j: nat)
    ensures Filled(f, limit, j + 1) == Filled(f, limit, j) + Piece(f, limit, j) <= limit
  {
  }

  /** Pieces of sixteen bytes or more fill any limit there is. */
  lemma {:induction false} FilledUp(f: nat, limit: nat, j: nat)
    requires f >= 16
    ensures Filled(f, limit, j) == limit || Filled(f, limit, j) >= 16 * j
    decreases j
  {
    hide Filled;
    if j > 0 {
      FilledUp(f, limit, j - 1);
      FilledMore(f, limit, j - 1);
    }
  }

  /** Before the seventh window, every packet is one byte. */
  function LenOf(f: nat, limit: nat, u: nat): (n: nat)
    ensures f >= 1 ==> n <= f
  {
    if u >= SEVENTH then Piece(f, limit, u - SEVENTH) else 1
  }

  function LenAt(f: nat, limit: nat): nat -> nat {
    (u: nat) => LenOf(f, limit, u)
  }

  function Single(n: nat): (p: Packet)
    ensures |p| == 1 && |p[0]| == n
  {
    [seq(n, _ => 0)]
  }

  function Singles(f: nat, limit: nat): (ps: seq<Packet>)
    ensures |ps| == LAST && forall i :: 0 <= i < LAST ==> |ps[i]| == 1
  {
    seq(LAST, i requires 0 <= i < LAST => Single(LenOf(f, limit, i + 1)))
  }

  lemma {:induction false} SinglesBase(ps: seq<Packet>, i: nat)
    requires i <= |ps| && forall j :: 0 <= j < i ==> |ps[j]| == 1
    ensures Base(ps, i) == i
    decreases i
  {
    if i > 0 {
      SinglesBase(ps, i - 1);
    }
  }

  lemma SingleOk(n: nat, size: nat)
    requires n <= size
    ensures PacketOk(Single(n), size)
  {
    assert Offset(Single(n), 1) == Offset(Single(n), 0) + n;
  }

  lemma SinglesOk(f: nat, limit: nat, size: nat)
    requires 1 <= f <= size
    ensures PacketsOk(Singles(f, limit), size) && Measured(Singles(f, limit), LenAt(f, limit)) && PiecesFit(Singles(f, limit), f)
  {
    hide PacketOk, Base, LenOf;
    var ps := Singles(f, limit);
    forall i | 0 <= i < |ps| ensures PacketOk(ps[i], size) && Base(ps, i) == i && |ps[i]| == 1 && |ps[i][0]| == LenAt(f, limit)(i + 1) <= f {
      SingleOk(LenOf(f, limit, i + 1), size);
      SinglesBase(ps, i);
    }
  }

  // ---------------------------------------------------------------- one command does not arrive

  /** Number 4096 has been lost; the others up to `r` have arrived and been acknowledged. */
  ghost predicate Gap(l: Link, r: nat, f: nat, limit: nat, size: nat) {
    && Sending(l, r, BEHIND, LenAt(f, limit), size) && l.ps == Singles(f, limit) && Last(l) < BEHIND
    && (r >= BEHIND ==> !Received(Last(l), l.receiver.pending, BEHIND))
  }

  lemma GapNear(l: Link, r: nat, size: nat)
    requires LinkOk(l, r + 1, size) && |l.receiver.dispatched| <= |l.ps| && Last(l) < BEHIND && r + 1 < SEVENTH
    ensures Win(Last(l)) <= Win(r + 1) + 9 && Win(r + 1) <= Win(Last(l)) + 6
  {
  }

  lemma NotReceived(n: nat, p: seq<Incoming>, u: nat)
    requires !Received(n, p, u)
    ensures n < u
  {
  }

  /** A command that is not lost arrives. */
  lemma GapData(l: Link, r: nat, f: nat, limit: nat, size: nat) returns (l': Link)
    requires LinkOk(l, r + 1, size) && l.ps == Singles(f, limit) && |l.receiver.dispatched| <= |l.ps| && Last(l) < BEHIND
    requires r + 1 < SEVENTH && r + 1 in l.net && r + 1 != BEHIND
    requires r + 1 > BEHIND ==> !Received(Last(l), l.receiver.pending, BEHIND)
    ensures Allowed(l, Data(r, 0, false), size) && l' == Apply(l, Data(r, 0, false), size) && LinkOk(l', r + 1, size)
    ensures l'.ps == l.ps && l'.sender == l.sender && r + 1 in l'.acks && |l'.receiver.dispatched| <= |l'.ps| && Last(l') < BEHIND
    ensures r + 1 > BEHIND ==> !Received(Last(l'), l'.receiver.pending, BEHIND)
  {
    hide Received, Base, Win, Open, RecvOk, SenderOk, PacketsOk, Apply, Receive, Singles, LenAt;
    SinglesBase(l.ps, r);
    GapNear(l, r, size);
    l' := Deliver(l, r + 1, size, r, 0);
    LastSent(l', r + 1, size);
    if r + 1 > BEHIND {
      NotReceived(Last(l'), l'.receiver.pending, BEHIND);
    }
  }

  lemma GapWindow(r: nat)
    requires r + 1 <= SEVENTH
    ensures Win(r + 1) <= Win(BEHIND) + 6
  {
  }

  lemma GapRound(l: Link, r: nat, f: nat, limit: nat, flow: Flow, size: nat) returns (steps: seq<Step>, l': Link)
    requires Gap(l, r, f, limit, size) && r + 1 < SEVENTH && FlowOk(flow)
    ensures Run(l, steps, size, l') && Gap(l', r + 1, f, limit, size) && Uses(steps, flow)
  {
    hide Received, Base, Win, Open, LinkOk, Apply, Allowed, Run, Singles, Lens, LimitOf, FlowOk, Piece;
    SinglesBase(l.ps, |l.ps|);
    GapWindow(r);
    RoomForTwo(flow);
    var l1 := GoOut(l, r, BEHIND, LenAt(f, limit), flow, size);
    RunOne(l, Transmit(flow), size);
    SameLast(l, l1);
    steps, l' := [Transmit(flow)], l1;
    if r + 1 != BEHIND {
      var l2 := GapData(l1, r, f, limit, size);
      RunOne(l1, Data(r, 0, false), size);
      RunJoin(l, steps, l1, [Data(r, 0, false)], size, l2);
      l' := AckIn(l2, r, BEHIND, LenAt(f, limit), size);
      RunOne(l2, Ack(r + 1), size);
      RunJoin(l, steps + [Data(r, 0, false)], l2, [Ack(r + 1)], size, l');
      steps := steps + [Data(r, 0, false)] + [Ack(r + 1)];
      SameLast(l2, l');
    }
  }

  lemma {:induction false} GapRounds(l: Link, r: nat, f: nat, limit: nat, flow: Flow, size: nat) returns (steps: seq<Step>, l': Link)
    requires Gap(l, r, f, limit, size) && r < SEVENTH && FlowOk(flow)
    ensures Run(l, steps, size, l') && Gap(l', SEVENTH - 1, f, limit, size) && Uses(steps, flow)
    decreases SEVENTH - r
  {
    hide Gap, FlowOk;
    steps, l' := [], l;
    if r + 1 < SEVENTH {
      var s1, l1 := GapRound(l, r, f, limit, flow, size);
      var s2;
      s2, l' := GapRounds(l1, r + 1, f, limit, flow, size);
      RunJoin(l, s1, l1, s2, size, l');
      steps := s1 + s2;
    }
  }

  // ---------------------------------------------------------------- the seventh window goes out

  /** The lost command and `j` commands of the seventh window are in flight. */
  ghost predicate Burst(l: Link, j: nat, f: nat, limit: nat, size: nat) {
    && LinkOk(l, SEVENTH - 1 + j, size) && l.ps == Singles(f, limit) && Lens(l.sender.outgoing, LenAt(f, limit))
    && |l.receiver.dispatched| <= |l.ps| && Last(l) < BEHIND
    && |l.sender.sent| == 1 + j && l.sender.sent[0] == OutCmd(BEHIND, 1, 1)
    && SumLen(l.sender.sent) == 1 + Filled(f, limit, j)
    && (forall k :: 1 <= k <= j ==> SEVENTH <= l.sender.sent[k].id <= LAST)
    && (j == 0 ==> l.sender.sent == Unacked(SEVENTH - 1, BEHIND, LenAt(f, limit)))
  }

  lemma BurstGo(s: Sender, j: nat, f: nat, limit: nat, b: nat)
    requires SenderOk(s, LAST, SEVENTH - 1 + j) && Lens(s.outgoing, LenAt(f, limit)) && j < WINDOW_SIZE && limit < b
    requires SumLen(s.sent) == 1 + Filled(f, limit, j)
    requires j == 0 ==> s.sent == Unacked(SEVENTH - 1, BEHIND, LenAt(f, limit))
    ensures CanSend(s, b) && Resends(s.outgoing) == 0
    ensures s.outgoing[0] == OutCmd(SEVENTH + j, Piece(f, limit, j), 0) && Lens(s.outgoing[1..], LenAt(f, limit))
  {
    hide HasBit, Open, Win, Gated, Pow2, SumLen, Filled, Piece;
    FilledMore(f, limit, j);
    ResendsNone(s.outgoing);
    assert s.outgoing != [];
    WaitingTail(s.outgoing, LAST, SEVENTH - 1 + j);
    if j == 0 {
      GapWindow(SEVENTH - 1);
      GateOpen(s, LAST, SEVENTH - 1, BEHIND, LenAt(f, limit));
    } else {
      InsideWindow(s, j);
    }
  }

  lemma InsideWindow(s: Sender, j: nat)
    requires |s.windows| == WINDOWS && 0 < j < WINDOW_SIZE && s.outgoing != [] && s.outgoing[0].id == SEVENTH + j
    ensures !Gated(s, s.outgoing[0])
  {
    Window16Win(SEVENTH + j);
    assert (SEVENTH + j) % WINDOW_SIZE == j;
  }

  lemma BurstStep(l: Link, j: nat, f: nat, limit: nat, flow: Flow, size: nat) returns (l': Link)
    requires Burst(l, j, f, limit, size) && j < WINDOW_SIZE && FlowOk(flow) && limit < LimitOf(flow)
    ensures Allowed(l, Transmit(flow), size) && l' == Apply(l, Transmit(flow), size) && Burst(l', j + 1, f, limit, size)
  {
    hide Received, Base, Win, Open, RecvOk, PacketsOk, SenderOk, Agreed, Gated, Lens, Unacked, LimitOf, FlowOk, SumLen, Singles, LenAt, Piece, Filled;
    FilledMore(f, limit, j);
    SinglesBase(l.ps, |l.ps|);
    LinkParts(l, SEVENTH - 1 + j, size);
    BurstGo(l.sender, j, f, limit, LimitOf(flow));
    var next' := TransmitStep(l, SEVENTH - 1 + j, flow, size);
    l' := Apply(l, Transmit(flow), size);
    SumLenSend(l.sender);
    SameLast(l, l');
  }

  lemma {:induction false} BurstSteps(l: Link, j: nat, f: nat, limit: nat, flow: Flow, size: nat) returns (steps: seq<Step>, l': Link)
    requires Burst(l, j, f, limit, size) && j <= WINDOW_SIZE && FlowOk(flow) && limit < LimitOf(flow)
    ensures Run(l, steps, size, l') && Burst(l', WINDOW_SIZE, f, limit, size) && Uses(steps, flow)
    decreases WINDOW_SIZE - j
  {
    hide Burst, LimitOf, FlowOk, Apply, Allowed;
    steps, l' := [], l;
    if j < WINDOW_SIZE {
      var l1 := BurstStep(l, j, f, limit, flow, size);
      RunOne(l, Transmit(flow), size);
      steps, l' := BurstSteps(l1, j + 1, f, limit, flow, size);
      RunJoin(l, [Transmit(flow)], l1, steps, size, l');
      steps := [Transmit(flow)] + steps;
    }
  }

  // ---------------------------------------------------------------- and now nothing helps

  predicate InSeventh(cs: seq<OutCmd>) {
    forall j :: 0 <= j < |cs| ==> SEVENTH <= cs[j].id <= LAST
  }

  /** Commands of the seventh window fill the limit; they are in flight or wait in front of position `k`. */
  predicate BlockedAt(s: Sender, k: nat, limit: nat) {
    && k < |s.outgoing| && s.outgoing[k].len > 0
    && InSeventh(s.sent) && InSeventh(s.outgoing[..k]) && SumLen(s.sent) + SumLen(s.outgoing[..k]) >= limit
  }

  ghost predicate Blocked(l: Link, next: nat, limit: nat, size: nat) {
    && LinkOk(l, next, size) && |l.receiver.dispatched| <= |l.ps| && Last(l) < BEHIND && l.acks == {}
    && (forall u :: u in l.net ==> SEVENTH <= u <= LAST)
    && |l.ps| >= LAST && (forall i :: 0 <= i < LAST ==> |l.ps[i]| == 1)
    && exists k: nat :: BlockedAt(l.sender, k, limit)
  }

  lemma {:induction false} QueueAllBlocked(s: Sender, total: nat, p: Packet, n: nat, k: nat, limit: nat)
    requires BlockedAt(s, k, limit) && n <= |p|
    ensures BlockedAt(QueueAll(s, total, p, n), k, limit)
    decreases n
  {
    hide SumLen;
    if n > 0 {
      QueueAllBlocked(s, total, p, n - 1, k, limit);
      var t := QueueAll(s, total, p, n - 1);
      assert Queue(t, total + n, |p[n - 1]|).outgoing[..k] == t.outgoing[..k];
    }
  }

  /** Only a command of the seventh window can go out. */
  lemma SendBlocked(s: Sender, k: nat, limit: nat, b: nat)
    requires |s.windows| == WINDOWS && s.inTransit == SumLen(s.sent) && BlockedAt(s, k, limit) && CanSend(s, b) && b <= limit
    ensures k > 0 && SEVENTH <= s.outgoing[0].id <= LAST && BlockedAt(SendFirst(s), k - 1, limit)
  {
    hide SumLen, Gated;
    var cs := s.outgoing;
    if k == 0 {
      SumLenNone(cs[..0]);
      assert false;
    }
    SumLenSend(s);
    assert cs[..k] == [cs[0]] + cs[1..][..k - 1];
    SumLenConcat([cs[0]], cs[1..][..k - 1]);
    SumLenOne(cs[0]);
    assert cs[..k][0] == cs[0];
    var rest := cs[1..][..k - 1];
    forall j | 0 <= j < |rest| ensures SEVENTH <= rest[j].id <= LAST {
      assert cs[..k][j + 1] == rest[j];
    }
  }

  lemma SumLenNone(cs: seq<OutCmd>)
    requires cs == []
    ensures SumLen(cs) == 0
  {
  }

  lemma {:induction false} PickSeventh(cs: seq<OutCmd>, due: seq<bool>, want: bool)
    requires |due| == |cs| && InSeventh(cs)
    ensures InSeventh(Pick(cs, due, want))
    decreases |cs|
  {
    if cs != [] {
      PickSeventh(cs[..|cs| - 1], due[..|cs| - 1], want);
    }
  }

  lemma TimeOutBlocked(s: Sender, due: seq<bool>, k: nat, limit: nat)
    requires |due| == |s.sent| && BlockedAt(s, k, limit)
    ensures BlockedAt(TimeOut(s, due), |Pick(s.sent, due, true)| + k, limit)
  {
    hide SumLen, Pick;
    var moved := Pick(s.sent, due, true);
    PickSeventh(s.sent, due, true);
    PickSeventh(s.sent, due, false);
    SumLenPick(s.sent, due);
    assert (moved + s.outgoing)[..|moved| + k] == moved + s.outgoing[..k];
    SumLenConcat(moved, s.outgoing[..k]);
  }

  /** The receiver neither takes nor acknowledges a command of the seventh window. */
  lemma Refused(l: Link, next: nat, i: nat, k: nat, refuse: bool, limit: nat, size: nat)
    requires Blocked(l, next, limit, size) && Allowed(l, Data(i, k, refuse), size)
    ensures Apply(l, Data(i, k, refuse), size) == l
  {
    hide SenderOk, PacketsOk, Agreed, Base, Win, BlockedAt, Scan, Insert, Drain, Offset, InWindow, MayAck;
    SinglesBase(l.ps, LAST);
    if i >= LAST {
      BaseMonotone(l.ps, LAST, i);
    } else {
      SinglesBase(l.ps, i);
    }
    DispatchedBound(l.ps, |l.receiver.dispatched|, l.receiver);
    TooFar(Base(l.ps, i) + 1, Last(l));
  }

  lemma TooFar(u: nat, n: nat)
    requires SEVENTH <= u <= LAST && n < BEHIND
    ensures !InWindow(Seq16(u), Seq16(n)) && !MayAck(Seq16(u), Seq16(n))
  {
    AheadWindows(u, n);
  }

  lemma BlockedStep(l: Link, next: nat, st: Step, limit: nat, size: nat) returns (next': nat)
    requires Blocked(l, next, limit, size) && Allowed(l, st, size) && (st.Transmit? ==> LimitOf(st.flow) <= limit)
    ensures Blocked(Apply(l, st, size), next', limit, size)
  {
    hide LinkOk, Base, BlockedAt, QueueAll, SendFirst, CanSend, TimeOut, Receive, LimitOf, PacketOk, Pick;
    next' := StepOk(l, next, st, size);
    var k: nat :| BlockedAt(l.sender, k, limit);
    match st
    case Send(p) =>
      QueueAllBlocked(l.sender, Base(l.ps, |l.ps|), p, |p|, k, limit);
      BasePrefix(l.ps, l.ps + [p], |l.receiver.dispatched|);
    case Transmit(flow) =>
      InTransitIs(l, next, size);
      SendBlocked(l.sender, k, limit, LimitOf(flow));
    case Expire(due) => TimeOutBlocked(l.sender, due, k, limit);
    case Data(i, j, refuse) => Refused(l, next, i, j, refuse, limit, size);
    case Ack(a) =>
  }

  lemma InTransitIs(l: Link, next: nat, size: nat)
    requires LinkOk(l, next, size)
    ensures l.sender.inTransit == SumLen(l.sender.sent)
  {
    hide Open, Win, RecvOk, Base, SumLen, HasBit;
  }

  /** While flow control allows no more than `limit`, the receiver never gets what it is waiting for. */
  lemma {:induction false} BlockedForever(l: Link, next: nat, steps: seq<Step>, limit: nat, size: nat, l': Link)
    requires Blocked(l, next, limit, size) && Run(l, steps, size, l') && LimitsAtMost(steps, limit)
    ensures l'.sender.outgoing != [] && l.receiver == l'.receiver && l'.acks == {}
    decreases |steps|
  {
    hide Apply, Allowed, LinkOk, Base, LimitOf;
    if steps != [] {
      var next' := BlockedStep(l, next, steps[0], limit, size);
      SameReceiver(l, next, steps[0], limit, size);
      BlockedForever(Apply(l, steps[0], size), next', steps[1..], limit, size, l');
    }
  }

  lemma SameReceiver(l: Link, next: nat, st: Step, limit: nat, size: nat)
    requires Blocked(l, next, limit, size) && Allowed(l, st, size)
    ensures Apply(l, st, size).receiver == l.receiver
  {
    hide LinkOk, BlockedAt, QueueAll, Receive, Base;
    if st.Data? {
      Refused(l, next, st.i, st.k, st.refuse, limit, size);
    }
  }

  // ---------------------------------------------------------------- a run that gets there

  lemma {:induction false} PickFirst(cs: seq<OutCmd>, due: seq<bool>)
    requires |due| == |cs| >= 1 && due[0] && forall j :: 1 <= j < |due| ==> !due[j]
    ensures Pick(cs, due, true) == [cs[0]] && Pick(cs, due, false) == cs[1..]
    decreases |cs|
  {
    var n := |cs| - 1;
    if n > 0 {
      PickFirst(cs[..n], due[..n]);
      assert cs[1..] == cs[..n][1..] + [cs[n]];
    } else {
      assert Pick(cs[..0], due[..0], true) == [] && Pick(cs[..0], due[..0], false) == [];
    }
  }

  /** The lost command times out; the others do not. */
  lemma FirstExpires(l: Link, f: nat, limit: nat, size: nat) returns (st: Step, l': Link)
    requires Burst(l, WINDOW_SIZE, f, limit, size) && f >= 16 && limit <= MAX_WINDOW_SIZE
    ensures Allowed(l, st, size) && !st.Transmit? && l' == Apply(l, st, size) && l'.ps == l.ps
    ensures Blocked(Forget(l'), LAST, limit, size)
  {
    hide LinkOk, Base, SumLen, Pick, Filled, Piece, Singles, LenAt, Lens;
    var due := seq(|l.sender.sent|, i => i == 0);
    st := Expire(due);
    AllowedExpire(l, due, size);
    l' := Apply(l, st, size);
    ExpireStep(l, LAST, due, size);
    ForgetOk(l', LAST, size);
    var cs := l.sender.sent;
    PickFirst(cs, due);
    FilledUp(f, limit, WINDOW_SIZE);
    assert cs == [cs[0]] + cs[1..];
    SumLenConcat([cs[0]], cs[1..]);
    SumLenOne(cs[0]);
    SumLenNone(l'.sender.outgoing[..0]);
    assert BlockedAt(l'.sender, 0, limit);
    assert l'.sender == Forget(l').sender;
  }

  /** One command is lost, the seventh window fills the limit that flow control has allowed, the lost command times out, and
      then the limit sinks by one byte or more. */
  lemma BlockedRun(f: nat, flow: Flow, limit: nat, size: nat) returns (steps: seq<Step>, l: Link)
    requires 16 <= f <= size && FlowOk(flow) && limit < LimitOf(flow)
    ensures Run(EMPTY, steps, size, l) && Uses(steps, flow)
    ensures (forall i :: 0 <= i < |l.ps| ==> |l.ps[i]| == 1) && PiecesFit(l.ps, f)
    ensures Blocked(Forget(l), LAST, limit, size)
  {
    hide Run, LinkOk, Lens, Measured, PacketsOk, PiecesFit, LimitOf, FlowOk, Blocked, Singles, LenAt;
    SinglesOk(f, limit, size);
    EmptyUnsent(LenAt(f, limit), size);
    LimitRange(flow);
    var s1, l1 := SendAll(EMPTY, Singles(f, limit), LenAt(f, limit), size);
    StartGap(l1, f, limit, size);
    var s2, l2 := GapRounds(l1, 0, f, limit, flow, size);
    RunJoin(EMPTY, s1, l1, s2, size, l2);
    StartBurst(l2, f, limit, size);
    var s3, l3 := BurstSteps(l2, 0, f, limit, flow, size);
    RunJoin(EMPTY, s1 + s2, l2, s3, size, l3);
    var st;
    st, l := FirstExpires(l3, f, limit, size);
    RunOne(l3, st, size);
    RunJoin(EMPTY, s1 + s2 + s3, l3, [st], size, l);
    steps := s1 + s2 + s3 + [st];
  }

  lemma StartGap(l: Link, f: nat, limit: nat, size: nat)
    requires Unsent(l, LenAt(f, limit), size) && l.ps == Singles(f, limit)
    ensures Gap(l, 0, f, limit, size)
  {
    hide LinkOk, Lens, Singles, LenAt;
    LastSent(l, 0, size);
  }

  lemma StartBurst(l: Link, f: nat, limit: nat, size: nat)
    requires Gap(l, SEVENTH - 1, f, limit, size)
    ensures Burst(l, 0, f, limit, size)
  {
    hide LinkOk, Lens, Singles;
    SumLenOne(OutCmd(BEHIND, 1, 1));
  }
}
