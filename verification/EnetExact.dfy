/** When a channel can always recover from the loss of all that is on its way. */
module EnetExact {
  import opened Bits
  import opened EnetSequence
  import opened Masks
  import opened EnetReceive
  import opened EnetOrder
  import opened EnetDeliver
  import opened EnetSend
  import opened EnetWindow
  import opened EnetLink
  import opened EnetRecover
  import opened EnetRounds
  import opened EnetStale
  import opened EnetBlocked

  // ---------------------------------------------------------------- never acknowledged

  /** The command is unacknowledged, nothing on the wire acknowledges it, and its datagram comes too late. */
  ghost predicate Stuck(l: Link, next: nat, size: nat) {
    && LinkOk(l, next, size) && Open(l.sender, ById(LOST)) > 0 && LOST !in l.acks
    && |l.receiver.dispatched| <= |l.ps| && |l.ps| >= 2 && Base(l.ps, 1) == FIRST && |l.ps[1]| == LONG
    && Last(l) >= TOTAL
  }

  lemma StuckData(l: Link, next: nat, i: nat, k: nat, refuse: bool, size: nat)
    requires Stuck(l, next, size) && Allowed(l, Data(i, k, refuse), size)
    ensures Stuck(Apply(l, Data(i, k, refuse), size), next, size)
  {
    hide SenderOk, RecvOk, PacketsOk, Agreed, Open, Receive, Base, Win;
    var l' := Apply(l, Data(i, k, refuse), size);
    DataStep(l, next, i, k, refuse, size);
    LinkParts(l', next, size);
    BaseMonotone(l.ps, |l.receiver.dispatched|, |l'.receiver.dispatched|);
    NotLost(l, next, i, k, refuse, size);
  }

  lemma NotLost(l: Link, next: nat, i: nat, k: nat, refuse: bool, size: nat)
    requires Stuck(l, next, size) && Allowed(l, Data(i, k, refuse), size)
    ensures Base(l.ps, i) + 1 + k != LOST
  {
    hide LinkOk, Open, Base, Win;
    if Base(l.ps, i) + 1 + k == LOST {
      OnePacket(l.ps, i, 1, LOST);
      WinMonotone(TOTAL, Last(l));
      LongStale();
      assert false;
    }
  }

  lemma LongStale()
    ensures Win(TOTAL) > Win(FIRST + 1) + 9
  {
  }

  lemma StuckSend(l: Link, next: nat, p: Packet, size: nat)
    requires Stuck(l, next, size) && Allowed(l, Send(p), size)
    ensures Stuck(Apply(l, Send(p), size), next, size)
  {
    hide SenderOk, RecvOk, PacketsOk, Agreed, Open, Base, Win, PacketOk;
    SendStep(l, next, p, size);
    BasePrefix(l.ps, l.ps + [p], 1);
    BasePrefix(l.ps, l.ps + [p], |l.receiver.dispatched|);
  }

  lemma StuckTransmit(l: Link, next: nat, flow: Flow, size: nat) returns (next': nat)
    requires Stuck(l, next, size) && Allowed(l, Transmit(flow), size)
    ensures Stuck(Apply(l, Transmit(flow), size), next', size)
  {
    hide LinkOk, Open, Base, CanSend, LimitOf, FlowOk;
    next' := TransmitStep(l, next, flow, size);
  }

  lemma StuckStep(l: Link, next: nat, st: Step, size: nat) returns (next': nat)
    requires Stuck(l, next, size) && Allowed(l, st, size)
    ensures Stuck(Apply(l, st, size), next', size)
  {
    hide LinkOk, Open, Base, Acknowledge, TimeOut;
    next' := next;
    match st
    case Send(p) => StuckSend(l, next, p, size);
    case Transmit(flow) => next' := StuckTransmit(l, next, flow, size);
    case Expire(due) => ExpireStep(l, next, due, size);
    case Data(i, k, refuse) => StuckData(l, next, i, k, refuse, size);
    case Ack(a) => AckStep(l, next, a, size);
  }

  lemma {:induction false} StuckForever(l: Link, next: nat, steps: seq<Step>, size: nat, l': Link)
    requires Stuck(l, next, size) && Run(l, steps, size, l')
    ensures Open(l'.sender, ById(LOST)) > 0 && LOST !in l'.acks && !Finished(l')
    decreases |steps|
  {
    hide Apply, Allowed, LinkOk, Open, Base;
    if steps != [] {
      var next' := StuckStep(l, next, steps[0], size);
      StuckForever(Apply(l, steps[0], size), next', steps[1..], size, l');
    } else {
      FinishedOpen(l.sender, LOST);
    }
  }

  lemma FinishedOpen(s: Sender, u: nat)
    ensures s.outgoing == [] && s.sent == [] ==> Open(s, ById(u)) == 0
  {
  }

  lemma LongIsStuck(l: Link, size: nat)
    requires Reached(l, TOTAL, 1, size)
    ensures Stuck(Forget(l), TOTAL, size)
  {
    hide LinkOk, Base, Open;
    FourBase(1);
    UniformLength(LONG, 1);
    EndState(l, 1, size);
    ForgetOk(l, TOTAL, size);
  }

  // ---------------------------------------------------------------- exactly when

  /** A state some run leads to, with packets of at most `c` fragments and pieces of at most `f` bytes, when flow control has
      never allowed more than it computes from `peak`. */
  ghost predicate ReachableBy(l: Link, c: nat, f: nat, peak: Flow, size: nat) {
    AtMost(l.ps, c) && PiecesFit(l.ps, f) && exists steps: seq<Step> :: LedBy(steps, l, peak, size)
  }

  ghost predicate LedBy(steps: seq<Step>, l: Link, peak: Flow, size: nat) {
    Run(EMPTY, steps, size, l) && LimitsAtMost(steps, LimitOf(peak))
  }

  /** Some continuation delivers everything and has it acknowledged, while flow control computes its limit from `flow`. */
  ghost predicate Recovers(l: Link, flow: Flow, size: nat) {
    exists more: seq<Step>, l': Link :: Run(l, more, size, l') && Uses(more, flow) && Finished(l')
  }

  /** Whatever has happened, and though all that is on its way is lost. */
  ghost predicate AlwaysRecovers(c: nat, f: nat, peak: Flow, flow: Flow, size: nat) {
    forall l: Link :: ReachableBy(l, c, f, peak, size) ==> Recovers(Forget(l), flow, size)
  }

  lemma UsesAtMost(steps: seq<Step>, flow: Flow, b: nat)
    requires Uses(steps, flow) && LimitOf(flow) <= b
    ensures LimitsAtMost(steps, b)
  {
  }

  /** If it has not sunk, the limit allows what is unacknowledged. */
  lemma Recovery(l: Link, c: nat, f: nat, peak: Flow, flow: Flow, size: nat)
    requires ReachableBy(l, c, f, peak, size) && FlowOk(flow) && f <= flow.mtu
    requires LimitOf(peak) <= LimitOf(flow) && (c <= SAFE_FRAGMENTS || size <= SAFE_FRAGMENTS)
    ensures Recovers(Forget(l), flow, size)
  {
    hide Run, LinkOk, Moderate, Finished, Forget, Fits, LimitOf, FlowOk, AtMost;
    LimitRange(flow);
    var led :| LedBy(led, l, peak, size);
    var steps, next := ShortPackets(l, c, size);
    EmptyOk(size);
    EmptyFits(LimitOf(flow));
    RunCarried(EMPTY, 0, led, size, l, LimitOf(flow));
    var more, l' := CanFinish(led, size, l, flow);
  }

  /** If it has sunk, the limit can block the channel. */
  lemma SunkBlocks(c: nat, f: nat, peak: Flow, flow: Flow, size: nat) returns (l: Link)
    requires FlowOk(peak) && FlowOk(flow) && c >= 1 && 16 <= f <= size && LimitOf(flow) < LimitOf(peak)
    ensures ReachableBy(l, c, f, peak, size) && !Recovers(Forget(l), flow, size)
  {
    hide Run, LinkOk, Finished, Forget, LimitOf, FlowOk, PiecesFit, Blocked, Uses;
    var steps;
    steps, l := BlockedRun(f, peak, LimitOf(flow), size);
    UsesAtMost(steps, peak, LimitOf(peak));
    assert LedBy(steps, l, peak, size);
    forall more: seq<Step>, l': Link | Run(Forget(l), more, size, l') && Uses(more, flow) ensures !Finished(l') {
      UsesAtMost(more, flow, LimitOf(flow));
      BlockedForever(Forget(l), EnetBlocked.LAST, more, LimitOf(flow), size, l');
      NotFinished(l');
    }
  }

  lemma NotFinished(l: Link)
    requires l.sender.outgoing != []
    ensures !Finished(l)
  {
  }

  /** A packet that is too long can be stuck. */
  lemma LongSticks(c: nat, f: nat, peak: Flow, flow: Flow, size: nat) returns (l: Link)
    requires FlowOk(peak) && f >= 1 && c >= LONG && size >= LONG
    ensures ReachableBy(l, c, f, peak, size) && !Recovers(Forget(l), flow, size)
  {
    hide Run, LinkOk, Finished, Forget, LimitOf, FlowOk, Uses, Stuck, Reached, AtMost;
    RoomForTwo(peak);
    var steps;
    steps, l := StaleRun(1, peak, size);
    FourReached(l, size);
    FourAtMost(1, c);
    FitMore(l.ps, 1, f);
    UsesAtMost(steps, peak, LimitOf(peak));
    assert LedBy(steps, l, peak, size);
    LongIsStuck(l, size);
    forall more: seq<Step>, l': Link | Run(Forget(l), more, size, l') && Uses(more, flow) ensures !Finished(l') {
      StuckForever(Forget(l), TOTAL, more, size, l');
    }
  }

  lemma FourReached(l: Link, size: nat)
    requires Reached(l, TOTAL, 1, size)
    ensures l.ps == Four(1)
  {
  }

  lemma FitMore(ps: seq<Packet>, a: nat, b: nat)
    requires PiecesFit(ps, a) && a <= b
    ensures PiecesFit(ps, b)
  {
  }

  /** The channel always recovers exactly if flow control's limit has not sunk, and packets have, or the receiver's limit allows
      them, at most 12289 fragments.  Pieces are smaller than an mtu, as fragments are cut. */
  lemma RecoversExactly(c: nat, f: nat, peak: Flow, flow: Flow, size: nat)
    requires FlowOk(peak) && FlowOk(flow) && c >= 1 && 16 <= f <= size && f <= flow.mtu
    ensures AlwaysRecovers(c, f, peak, flow, size) <==>
      LimitOf(peak) <= LimitOf(flow) && (c <= SAFE_FRAGMENTS || size <= SAFE_FRAGMENTS)
  {
    hide ReachableBy, Recovers, LimitOf, FlowOk, Forget;
    if LimitOf(peak) > LimitOf(flow) {
      var l := SunkBlocks(c, f, peak, flow, size);
    } else if c <= SAFE_FRAGMENTS || size <= SAFE_FRAGMENTS {
      forall l: Link | ReachableBy(l, c, f, peak, size) ensures Recovers(Forget(l), flow, size) {
        Recovery(l, c, f, peak, flow, size);
      }
    } else {
      var l := LongSticks(c, f, peak, flow, size);
    }
  }
}
