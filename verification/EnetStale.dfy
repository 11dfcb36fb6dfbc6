/** How long a packet may be so that no fragment sent again is ever taken for a newer one: a run in which one is. */
module EnetStale {
  import opened Bits
  import opened EnetSequence
  import opened EnetGate
  import opened Masks
  import opened EnetReceive
  import opened EnetOrder
  import opened EnetDeliver
  import opened EnetSend
  import opened EnetWindow
  import opened EnetLink
  import opened EnetRecover
  import opened EnetRounds

  /** One fragment too many. */
  const LONG: nat := SAFE_FRAGMENTS + 1
  /** Before the long packet, and after it. */
  const FIRST: nat := 4094
  const LATER: nat := 12288
  /** The number of the long packet's last fragment, whose acknowledgements get lost, and of the last command. */
  const LOST: nat := FIRST + LONG
  const TOTAL: nat := LOST + LATER + LATER

  function Uniform(n: nat, f: nat): Packet {
    seq(n, _ => seq(f, _ => 0))
  }

  function Four(f: nat): (ps: seq<Packet>)
    ensures |ps| == 4
  {
    [Uniform(FIRST, f), Uniform(LONG, f), Uniform(LATER, f), Uniform(LATER, f)]
  }

  lemma {:induction false} UniformOffset(n: nat, f: nat, k: nat)
    requires k <= n
    ensures Offset(Uniform(n, f), k) == k * f
    decreases k
  {
    if k > 0 {
      UniformOffset(n, f, k - 1);
      assert (k - 1) * f + f == k * f;
    }
  }

  lemma UniformOk(n: nat, f: nat, size: nat)
    requires 1 <= n <= LONG && f >= 1 && size >= LONG * f
    ensures PacketOk(Uniform(n, f), size)
  {
    hide Offset;
    UniformOffset(n, f, n);
    MulMonotone(n, LONG, f);
  }

  lemma FourBase(f: nat)
    ensures Base(Four(f), 0) == 0 && Base(Four(f), 1) == FIRST && Base(Four(f), 2) == LOST
    ensures Base(Four(f), 3) == LOST + LATER && Base(Four(f), 4) == TOTAL
  {
    hide Uniform;
    BaseStep(Four(f), 0);
    BaseStep(Four(f), 1);
    BaseStep(Four(f), 2);
    BaseStep(Four(f), 3);
    UniformLength(FIRST, f);
    UniformLength(LONG, f);
    UniformLength(LATER, f);
  }

  lemma BaseStep(ps: seq<Packet>, i: nat)
    requires i < |ps|
    ensures Base(ps, i + 1) == Base(ps, i) + |ps[i]|
  {
  }

  lemma UniformLength(n: nat, f: nat)
    ensures |Uniform(n, f)| == n
  {
  }

  function Same(f: nat): nat -> nat {
    (u: nat) => f
  }

  lemma FourOk(f: nat, size: nat)
    requires f >= 1 && size >= LONG * f
    ensures PacketsOk(Four(f), size) && Measured(Four(f), Same(f))
  {
    hide PacketOk, Base;
    UniformOk(FIRST, f, size);
    UniformOk(LONG, f, size);
    UniformOk(LATER, f, size);
  }

  // ---------------------------------------------------------------- one by one, they arrive

  /** The first `r` commands have arrived and all but one have been acknowledged; the others have not been sent. */
  ghost predicate Reached(l: Link, r: nat, f: nat, size: nat) {
    && Sending(l, r, LOST, Same(f), size) && l.ps == Four(f) && (r >= LOST ==> LOST in l.net)
    && forall v: nat :: 1 <= v <= r ==> Received(Last(l), l.receiver.pending, v)
  }

  lemma FourLength(f: nat, m: nat)
    requires m < 4
    ensures |Four(f)[m]| <= LONG
  {
  }

  /** The command on its way arrives. */
  lemma ComesIn(l: Link, r: nat, f: nat, size: nat) returns (st: Step, l': Link)
    requires LinkOk(l, r + 1, size) && l.ps == Four(f) && |l.receiver.dispatched| <= 4
    requires forall v: nat :: 1 <= v <= r ==> Received(Last(l), l.receiver.pending, v)
    requires !Received(Last(l), l.receiver.pending, r + 1) && r + 1 in l.net
    ensures Allowed(l, st, size) && l' == Apply(l, st, size) && LinkOk(l', r + 1, size) && st.Data?
    ensures l'.ps == l.ps && l'.sender == l.sender && l'.net == l.net && r + 1 in l'.acks && |l'.receiver.dispatched| <= 4
    ensures forall v: nat :: 1 <= v <= r + 1 ==> Received(Last(l'), l'.receiver.pending, v)
  {
    hide Received, Base, Win, Open, RecvOk, SenderOk, PacketsOk, Apply, Receive, Uniform;
    FirstIsNext(l, r + 1, size, r + 1);
    var m, k := |l.receiver.dispatched|, r - Last(l);
    FourLength(f, m);
    NextIsNear(Last(l), k);
    WinMonotone(Last(l), r + 1);
    st := Data(m, k, false);
    l' := Deliver(l, r + 1, size, m, k);
    LastSent(l', r + 1, size);
  }

  lemma NearLost(r: nat)
    requires r < TOTAL
    ensures r >= LOST ==> Win(r + 1) <= Win(LOST) + 6
  {
  }

  lemma Round(l: Link, r: nat, f: nat, flow: Flow, size: nat) returns (steps: seq<Step>, l': Link)
    requires Reached(l, r, f, size) && r < TOTAL && FlowOk(flow) && 2 * f <= LimitOf(flow)
    ensures Run(l, steps, size, l') && Reached(l', r + 1, f, size) && Uses(steps, flow)
  {
    hide Received, Base, Win, Open, RecvOk, PacketsOk, SenderOk, Apply, Allowed, Run, Four, Lens, LimitOf, FlowOk;
    FourBase(f);
    NearLost(r);
    var l1 := GoOut(l, r, LOST, Same(f), flow, size);
    RunOne(l, Transmit(flow), size);
    SameLast(l, l1);
    var st, l2 := ComesIn(l1, r, f, size);
    RunOne(l1, st, size);
    steps := [Transmit(flow)] + [st];
    RunJoin(l, [Transmit(flow)], l1, [st], size, l2);
    l' := l2;
    if r + 1 != LOST {
      l' := AckIn(l2, r, LOST, Same(f), size);
      RunOne(l2, Ack(r + 1), size);
      RunJoin(l, steps, l2, [Ack(r + 1)], size, l');
      steps := steps + [Ack(r + 1)];
      SameLast(l2, l');
    }
  }

  lemma {:induction false} AllRounds(l: Link, r: nat, f: nat, flow: Flow, size: nat) returns (steps: seq<Step>, l': Link)
    requires Reached(l, r, f, size) && r <= TOTAL && FlowOk(flow) && 2 * f <= LimitOf(flow)
    ensures Run(l, steps, size, l') && Reached(l', TOTAL, f, size) && Uses(steps, flow)
    decreases TOTAL - r
  {
    hide Reached, LimitOf, FlowOk;
    steps, l' := [], l;
    if r < TOTAL {
      var s1, l1 := Round(l, r, f, flow, size);
      var s2;
      s2, l' := AllRounds(l1, r + 1, f, flow, size);
      RunJoin(l, s1, l1, s2, size, l');
      steps := s1 + s2;
    }
  }

  // ---------------------------------------------------------------- the state at the end

  /** Everything has been dispatched. */
  lemma EndState(l: Link, f: nat, size: nat)
    requires Reached(l, TOTAL, f, size)
    ensures |l.receiver.dispatched| == 4 && Last(l) == TOTAL && l.receiver.pending == [] && l.receiver.inSeq == Seq16(TOTAL)
    ensures Open(l.sender, ById(LOST)) > 0
  {
    hide Received, Win, Base, SenderOk, Four;
    FourBase(f);
    var m := |l.receiver.dispatched|;
    if m < 4 {
      var u := NextIncomplete(l.ps, m, l.receiver, size);
      BaseMonotone(l.ps, m + 1, 4);
      BaseStep(l.ps, m);
      assert false;
    }
    if l.receiver.pending != [] {
      var e := l.receiver.pending[0];
      assert Known(l.ps, TOTAL, e) && Start(TOTAL, e) > TOTAL;
      var i: nat :| Matches(l.ps, TOTAL, e, i);
      BaseMonotone(l.ps, i, 4);
    }
    CountAt(l.sender.sent, 0, ById(LOST));
  }

  /** The run after which the fragment sent again is stale. */
  lemma StaleRun(f: nat, flow: Flow, size: nat) returns (steps: seq<Step>, l: Link)
    requires f >= 1 && size >= LONG * f && FlowOk(flow) && 2 * f <= LimitOf(flow)
    ensures Run(EMPTY, steps, size, l) && Reached(l, TOTAL, f, size) && Uses(steps, flow)
  {
    hide Run, LinkOk, Four, Lens, Measured, PacketsOk, LimitOf, FlowOk;
    FourOk(f, size);
    EmptyUnsent(Same(f), size);
    var s1, l1 := SendAll(EMPTY, Four(f), Same(f), size);
    LastSent(l1, 0, size);
    var s2;
    s2, l := AllRounds(l1, 0, f, flow, size);
    RunJoin(EMPTY, s1, l1, s2, size, l);
    steps := s1 + s2;
  }

  // ---------------------------------------------------------------- when it happens

  predicate AtMost(ps: seq<Packet>, c: nat) {
    forall i :: 0 <= i < |ps| ==> |ps[i]| <= c
  }

  /** A state some run leads to, with packets of at most `c` fragments. */
  ghost predicate Reachable(l: Link, c: nat, size: nat) {
    AtMost(l.ps, c) && exists steps: seq<Step> :: Run(EMPTY, steps, size, l)
  }

  /** Piece `k` of packet `i` may have to be sent again. */
  predicate Unacknowledged(l: Link, i: nat, k: nat) {
    i < |l.ps| && k < |l.ps[i]| && Open(l.sender, ById(Base(l.ps, i) + 1 + k)) > 0
  }

  /** The receiver would take its datagram for what it is. */
  predicate InTime(l: Link, i: nat) {
    i < |l.ps| && |l.receiver.dispatched| <= |l.ps| && Win(Last(l)) <= Win(Base(l.ps, i) + 1) + 9
  }

  ghost predicate AllFresh(l: Link) {
    forall i: nat, k: nat :: Unacknowledged(l, i, k) ==> InTime(l, i)
  }

  /** With packets of at most `c` fragments, a command sent again is never too stale for the receiver. */
  ghost predicate AlwaysFresh(c: nat, size: nat) {
    forall l: Link :: Reachable(l, c, size) ==> AllFresh(l)
  }

  lemma FewFragments(p: Packet, size: nat)
    requires PacketOk(p, size)
    ensures |p| <= 1 || |p| <= size
  {
    if |p| > 1 {
      OffsetAtLeast(p, |p|);
    }
  }

  lemma ShortPackets(l: Link, c: nat, size: nat) returns (steps: seq<Step>, next: nat)
    requires Reachable(l, c, size) && (c <= SAFE_FRAGMENTS || size <= SAFE_FRAGMENTS)
    ensures Run(EMPTY, steps, size, l) && LinkOk(l, next, size) && Moderate(l.ps)
  {
    hide Run, SenderOk, RecvOk, Agreed, PacketOk;
    EmptyOk(size);
    steps :| Run(EMPTY, steps, size, l);
    next := RunOk(EMPTY, 0, steps, size, l);
    forall i | 0 <= i < |l.ps| ensures |l.ps[i]| <= SAFE_FRAGMENTS {
      FewFragments(l.ps[i], size);
    }
  }

  lemma ShortIsFresh(l: Link, next: nat, size: nat)
    requires LinkOk(l, next, size) && Moderate(l.ps)
    ensures AllFresh(l)
  {
    hide LinkOk, Base, Open;
    forall i: nat, k: nat | Unacknowledged(l, i, k) ensures InTime(l, i) {
      OpenIsFresh(l, next, size, i, k, false);
    }
  }

  lemma FourAtMost(f: nat, c: nat)
    requires c >= LONG
    ensures AtMost(Four(f), c) && PiecesFit(Four(f), f)
  {
  }

  /** Any window, throttle and mtu will do for the run. */
  const USUAL: Flow := Flow(MAX_WINDOW_SIZE, THROTTLE_SCALE, MAX_MTU)

  /** A fragment sent again is always in time exactly if packets have, or the receiver's limit allows them, at most 12289
      fragments ... */
  lemma FreshExactly(c: nat, size: nat)
    ensures AlwaysFresh(c, size) <==> c <= SAFE_FRAGMENTS || size <= SAFE_FRAGMENTS
  {
    hide Run, AllFresh, LinkOk, Moderate, AtMost, PiecesFit, Four, Lens;
    if c <= SAFE_FRAGMENTS || size <= SAFE_FRAGMENTS {
      forall l: Link | Reachable(l, c, size) ensures AllFresh(l) {
        var steps, next := ShortPackets(l, c, size);
        ShortIsFresh(l, next, size);
      }
    } else {
      var steps, l := StaleRun(1, USUAL, size);
      FourAtMost(1, c);
      StaleAt(l, 1, size);
    }
  }

  lemma StaleAt(l: Link, f: nat, size: nat)
    requires Reached(l, TOTAL, f, size)
    ensures Unacknowledged(l, 1, LONG - 1) && !InTime(l, 1) && !AllFresh(l)
  {
    hide LinkOk, Base, Open;
    FourBase(f);
    UniformLength(LONG, f);
    EndState(l, f, size);
  }
}
