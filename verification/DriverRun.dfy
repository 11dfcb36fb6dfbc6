/** Interrupts, deferred procedure calls, registrations and cleanups in any order on any number of processors. */
module DriverRun {
  import opened Bits
  import opened Masks
  import opened DriverEvents

  /** An event that was set: which registration it belonged to, and for which mask. */
  datatype Signal = Signal(reg: nat, singleShot: bool)

  /** `toQueue` interrupt routines have seen zero and are about to queue the DPC; `queued`: it is queued; `entered` DPCs
      have begun and not yet taken the messages; `taken` are the messages of those that have.
      `raised`, `signals` and `next` are history: the messages since they were last taken, the events set, and the number
      of registrations. */
  datatype System = System(events: Events, pending: nat, toQueue: nat, queued: bool, entered: nat, taken: seq<nat>,
                           raised: set<nat>, signals: seq<Signal>, next: nat)

  datatype Step =
    | Interrupt(message: nat) | QueueDpc | StartDpc | Exchange | Walk(k: nat)
    | NewEvent(owner: Pointer, event: Pointer, vector: nat, singleShot: bool) | CloseFile(owner: Pointer) | ReleaseAll

  predicate Allowed(s: System, st: Step) {
    match st
    case Interrupt(_) => true
    case QueueDpc => s.toQueue > 0
    case StartDpc => s.queued
    case Exchange => s.entered > 0
    case Walk(k) => k < |s.taken|
    case NewEvent(_, event, _, _) => event != Null
    case CloseFile(_) => true
    case ReleaseAll => true
  }

  /** The signals for some slots. */
  function SignalsOf(buffer: seq<Entry>, slots: seq<nat>): seq<Signal> {
    seq(|slots|, k requires 0 <= k < |slots| =>
      if slots[k] < |buffer| then Signal(buffer[slots[k]].reg, buffer[slots[k]].singleShot) else Signal(0, false))
  }

  function Apply(s: System, st: Step): System
    requires Allowed(s, st)
  {
    match st
    case Interrupt(m) =>
      if m > 64 then s
      else s.(toQueue := if s.pending == 0 then s.toQueue + 1 else s.toQueue,
              pending := SetBit(s.pending, BitOf(m)), raised := s.raised + {m})
    case QueueDpc => s.(toQueue := s.toQueue - 1, queued := true)
    case StartDpc => s.(queued := false, entered := s.entered + 1)
    case Exchange =>
      s.(entered := s.entered - 1, taken := if s.pending == 0 then s.taken else s.taken + [s.pending], pending := 0, raised := {})
    case Walk(k) =>
      var (events, slots) := Fire(s.events, s.taken[k]);
      s.(events := events, taken := s.taken[..k] + s.taken[k + 1..], signals := s.signals + SignalsOf(s.events.buffer, slots))
    case NewEvent(owner, event, vector, singleShot) =>
      s.(events := Register(s.events, Entry(owner, event, vector, singleShot, s.next)).0, next := s.next + 1)
    case CloseFile(owner) => s.(events := Close(s.events, owner))
    case ReleaseAll => s.(events := Reset(s.events))
  }

  ghost predicate Run(s: System, steps: seq<Step>, s': System)
    decreases |steps|
  {
    if steps == [] then s' == s else Allowed(s, steps[0]) && Run(Apply(s, steps[0]), steps[1..], s')
  }

  const EMPTY: System :=
    System(Events(seq(MAX_EVENTS, _ => Entry(Null, Null, 0, false, 0)), [], 0), 0, 0, false, 0, [], {}, [], 0)

  // ---------------------------------------------------------------- the invariant

  /** The word holds exactly the messages raised since they were last taken, and if there are any, a DPC will take them. */
  ghost predicate PendingOk(s: System) {
    && (forall k: nat :: HasBit(s.pending, k) <==> exists m :: m in s.raised && BitOf(m) == k)
    && (s.pending != 0 ==> s.toQueue > 0 || s.queued || s.entered > 0)
  }

  predicate InUse(e: Events, i: nat) {
    i < |e.buffer| && e.buffer[i].event != Null
  }

  /** Slots in use hold different registrations; one that fires once and has been set is in use no more. */
  ghost predicate RegsOk(e: Events, signals: seq<Signal>, next: nat) {
    && (forall i: nat :: InUse(e, i) ==> e.buffer[i].reg < next)
    && (forall i: nat, j: nat :: InUse(e, i) && InUse(e, j) && i != j ==> e.buffer[i].reg != e.buffer[j].reg)
    && (forall k :: 0 <= k < |signals| ==> signals[k].reg < next)
    && (forall i: nat, k :: InUse(e, i) && 0 <= k < |signals| ==>
        signals[k].reg == e.buffer[i].reg ==> !e.buffer[i].singleShot && !signals[k].singleShot)
    && (forall a, b :: 0 <= a < b < |signals| ==> signals[a].singleShot ==> signals[a].reg != signals[b].reg)
  }

  ghost predicate SystemOk(s: System) {
    Valid(s.events) && PendingOk(s) && RegsOk(s.events, s.signals, s.next)
  }

  lemma EmptyOk()
    ensures SystemOk(EMPTY)
  {
    forall k: nat ensures !HasBit(0, k) {
      ZeroBit(k);
    }
  }

  // ---------------------------------------------------------------- steps

  lemma InterruptOk(s: System, m: nat)
    requires PendingOk(s)
    ensures PendingOk(Apply(s, Interrupt(m)))
  {
    hide HasBit, SetBit;
    if m <= 64 {
      var s' := Apply(s, Interrupt(m));
      forall k: nat ensures HasBit(s'.pending, k) <==> exists n :: n in s'.raised && BitOf(n) == k {
        SetBitBits(s.pending, BitOf(m), k);
        if n :| n in s.raised && BitOf(n) == k {
          assert n in s'.raised;
        }
        assert m in s'.raised;
      }
    }
  }

  lemma ExchangeOk(s: System)
    requires PendingOk(s) && s.entered > 0
    ensures PendingOk(Apply(s, Exchange))
  {
    hide HasBit;
    forall k: nat ensures !HasBit(0, k) {
      ZeroBit(k);
    }
  }

  /** Slots are only cleared. */
  ghost predicate Cleared(e: Events, e': Events) {
    |e'.buffer| == |e.buffer| && forall i: nat :: InUse(e', i) ==> InUse(e, i) && e'.buffer[i] == e.buffer[i]
  }

  lemma ClearedRegs(e: Events, e': Events, signals: seq<Signal>, next: nat)
    requires RegsOk(e, signals, next) && Cleared(e, e')
    ensures RegsOk(e', signals, next)
  {
    hide InUse;
  }

  lemma RemoveClears(e: Events, p: nat -> bool, q: nat -> bool)
    ensures Cleared(e, Remove(e, p, q))
    ensures forall i: nat :: InUse(Remove(e, p, q), i) && InList(e.list, i) ==> !p(i)
  {
    hide InList, Selected;
    var e' := Remove(e, p, q);
    forall i: nat | InUse(e', i)
      ensures InUse(e, i) && e'.buffer[i] == e.buffer[i] && (InList(e.list, i) ==> !p(i))
    {
      assert e'.buffer[i] == if p(i) && InList(e.list, i) then Blank(e.buffer[i]) else e.buffer[i];
    }
  }

  lemma ResetClears(e: Events)
    ensures Cleared(e, Reset(e))
  {
  }

  lemma NewRegs(e: Events, x: Entry, signals: seq<Signal>, next: nat)
    requires Valid(e) && RegsOk(e, signals, next) && x.reg == next && x.event != Null
    ensures RegsOk(Register(e, x).0, signals, next + 1)
  {
    RegisterOk(e, x);
    var e' := Register(e, x).0;
    if e.used != MAX_EVENTS {
      var k := FreeSlot(e.buffer, 0);
      forall i: nat ensures InUse(e', i) <==> InUse(e, i) || i == k {
      }
      forall i: nat | InUse(e', i) && i != k ensures e'.buffer[i] == e.buffer[i] {
      }
      RegsAdd(e, e', k, signals, next);
    }
  }

  lemma RegsAdd(e: Events, e': Events, k: nat, signals: seq<Signal>, next: nat)
    requires RegsOk(e, signals, next) && k < |e'.buffer| == |e.buffer| && e'.buffer[k].reg == next && !InUse(e, k)
    requires forall i: nat :: InUse(e', i) <==> InUse(e, i) || i == k
    requires forall i: nat :: InUse(e', i) && i != k ==> e'.buffer[i] == e.buffer[i]
    ensures RegsOk(e', signals, next + 1)
  {
    hide InUse;
    assert forall i: nat :: InUse(e', i) && i != k ==> InUse(e, i);
    assert forall i: nat :: InUse(e', i) ==> i < |e.buffer| by {
      InUseBound(e');
    }
    forall i: nat, j | InUse(e', i) && 0 <= j < |signals| && signals[j].reg == e'.buffer[i].reg
      ensures !e'.buffer[i].singleShot && !signals[j].singleShot
    {
      assert i != k;
    }
  }

  lemma InUseBound(e: Events)
    ensures forall i: nat :: InUse(e, i) ==> i < |e.buffer|
  {
  }

  /** Setting events: what is set was in use, once each; what fires once is in use no more. */
  lemma FireRegs(e: Events, mask: nat, signals: seq<Signal>, next: nat)
    requires Valid(e) && RegsOk(e, signals, next)
    ensures RegsOk(Fire(e, mask).0, signals + SignalsOf(e.buffer, Fire(e, mask).1), next)
  {
    hide HasBit, Selected, Valid, RegsOk;
    FireOk(e, mask);
    ValidSizes(e);
    var (e', slots) := Fire(e, mask);
    RemoveClears(e, Spent(e.buffer, mask), Unspent(e.buffer, mask));
    forall k | 0 <= k < |slots| ensures InUse(e, slots[k]) && (e.buffer[slots[k]].singleShot ==> !InUse(e', slots[k])) {
      assert InList(slots, slots[k]);
      InUseListed(e, slots[k]);
    }
    AppendSignals(e, e', slots, signals, next);
  }

  lemma ValidSizes(e: Events)
    requires Valid(e)
    ensures |e.buffer| == MAX_EVENTS
  {
  }

  lemma InUseListed(e: Events, i: nat)
    requires Valid(e) && InUse(e, i)
    ensures InList(e.list, i)
  {
  }

  lemma AppendSignals(e: Events, e': Events, slots: seq<nat>, signals: seq<Signal>, next: nat)
    requires RegsOk(e, signals, next) && Cleared(e, e') && Distinct(slots)
    requires forall k :: 0 <= k < |slots| ==> InUse(e, slots[k]) && (e.buffer[slots[k]].singleShot ==> !InUse(e', slots[k]))
    ensures RegsOk(e', signals + SignalsOf(e.buffer, slots), next)
  {
    hide InUse;
    InUseBound(e);
    InUseBound(e');
    var more := SignalsOf(e.buffer, slots);
    var all := signals + more;
    forall k | 0 <= k < |all| ensures all[k].reg < next {
      assert k >= |signals| ==> all[k] == more[k - |signals|];
    }
    forall i: nat, k | InUse(e', i) && 0 <= k < |all| && all[k].reg == e'.buffer[i].reg
      ensures !e'.buffer[i].singleShot && !all[k].singleShot
    {
      if k >= |signals| {
        assert slots[k - |signals|] == i;
      }
    }
    forall a, b | 0 <= a < b < |all| && all[a].singleShot ensures all[a].reg != all[b].reg {
      if b < |signals| {
        assert all[a] == signals[a] && all[b] == signals[b];
      } else if a < |signals| {
        assert InUse(e, slots[b - |signals|]) && all[a] == signals[a];
      } else {
        assert slots[a - |signals|] != slots[b - |signals|];
      }
    }
  }

  lemma StepOk(s: System, st: Step)
    requires SystemOk(s) && Allowed(s, st)
    ensures SystemOk(Apply(s, st))
  {
    hide HasBit, RegsOk, Valid, Remove, Selected;
    match st
    case Interrupt(m) => InterruptOk(s, m);
    case QueueDpc =>
    case StartDpc =>
    case Exchange => ExchangeOk(s);
    case Walk(k) =>
      FireOk(s.events, s.taken[k]);
      FireRegs(s.events, s.taken[k], s.signals, s.next);
    case NewEvent(owner, event, vector, singleShot) =>
      RegisterOk(s.events, Entry(owner, event, vector, singleShot, s.next));
      NewRegs(s.events, Entry(owner, event, vector, singleShot, s.next), s.signals, s.next);
    case CloseFile(owner) =>
      CloseOk(s.events, owner);
      RemoveClears(s.events, OwnedBy(s.events.buffer, owner), NotOwnedBy(s.events.buffer, owner));
      ClearedRegs(s.events, Close(s.events, owner), s.signals, s.next);
    case ReleaseAll =>
      ResetOk(s.events);
      ResetClears(s.events);
      ClearedRegs(s.events, Reset(s.events), s.signals, s.next);
  }

  lemma {:induction false} RunOk(s: System, steps: seq<Step>, s': System)
    requires SystemOk(s) && Run(s, steps, s')
    ensures SystemOk(s')
    decreases |steps|
  {
    hide SystemOk, Apply, Allowed;
    if steps != [] {
      StepOk(s, steps[0]);
      RunOk(Apply(s, steps[0]), steps[1..], s');
    }
  }

  // ---------------------------------------------------------------- results

  /** Whatever happens, a registration finds a slot unless all 32 are in use: the bug check cannot be reached. */
  lemma NoBugCheck(steps: seq<Step>, s: System, x: Entry)
    requires Run(EMPTY, steps, s) && x.event != Null
    ensures Register(s.events, x).1 == if s.events.used == MAX_EVENTS then InsufficientResources else Success
    ensures s.events.used == |s.events.list| <= MAX_EVENTS
  {
    hide Run, PendingOk, RegsOk;
    EmptyOk();
    RunOk(EMPTY, steps, s);
    RegisterOk(s.events, x);
    DistinctBound(s.events.list, MAX_EVENTS);
  }

  /** No interrupt is lost: a message below 64 that was raised since messages were last taken is in the word, and nothing
      else is; and if there is any, a DPC is about to be queued, queued, or about to take them. */
  lemma NoLostInterrupt(steps: seq<Step>, s: System, m: nat)
    requires Run(EMPTY, steps, s) && m < VECTORS
    ensures HasBit(s.pending, m) <==> m in s.raised || (m == 0 && 64 in s.raised)
    ensures s.raised != {} ==> s.toQueue > 0 || s.queued || s.entered > 0
  {
    hide Run, RegsOk, HasBit, Valid;
    EmptyOk();
    RunOk(EMPTY, steps, s);
    RaisedRange(EMPTY, steps, s);
    if n :| n in s.raised {
      assert HasBit(s.pending, BitOf(n));
      if s.pending == 0 {
        ZeroBit(BitOf(n));
      }
    }
  }

  /** The interrupt routine lets message 64 through, though only 64 messages, from zero on, have bits of their own. */
  lemma {:induction false} RaisedRange(s: System, steps: seq<Step>, s': System)
    requires Run(s, steps, s') && forall m :: m in s.raised ==> m <= 64
    ensures forall m :: m in s'.raised ==> m <= 64
    decreases |steps|
  {
    if steps != [] {
      RaisedRange(Apply(s, steps[0]), steps[1..], s');
    }
  }

  /** So the word tells which messages were raised exactly as long as 64 is not among them. */
  lemma WordIsExact(steps: seq<Step>, s: System)
    requires Run(EMPTY, steps, s)
    ensures (forall m: nat :: m < VECTORS ==> (HasBit(s.pending, m) <==> m in s.raised)) <==> (64 in s.raised ==> 0 in s.raised)
  {
    hide Run, HasBit;
    forall m: nat | m < VECTORS ensures HasBit(s.pending, m) <==> m in s.raised || (m == 0 && 64 in s.raised) {
      NoLostInterrupt(steps, s, m);
    }
  }

  /** And 64 can be among them: a single interrupt is then taken for message 0. */
  lemma MessageSixtyFour(s: System)
    requires s == Apply(EMPTY, Interrupt(64))
    ensures Run(EMPTY, [Interrupt(64)], s) && 0 !in s.raised && HasBit(s.pending, 0) && s.toQueue == 1
  {
    var steps := [Interrupt(64)];
    assert steps[1..] == [];
    assert Run(s, steps[1..], s);
    NoLostInterrupt(steps, s, 0);
  }

  /** An event that fires once is set at most once. */
  lemma SingleShotOnce(steps: seq<Step>, s: System)
    requires Run(EMPTY, steps, s)
    ensures forall a, b :: 0 <= a < b < |s.signals| && s.signals[a].singleShot ==> s.signals[a].reg != s.signals[b].reg
  {
    hide Run, PendingOk, Valid;
    EmptyOk();
    RunOk(EMPTY, steps, s);
  }

  /** A DPC sets exactly the events in use whose vector is among the messages it has taken, each once. */
  lemma WalkSets(steps: seq<Step>, s: System, k: nat)
    requires Run(EMPTY, steps, s) && k < |s.taken|
    ensures
      var slots := Fire(s.events, s.taken[k]).1;
      && Apply(s, Walk(k)).signals == s.signals + SignalsOf(s.events.buffer, slots) && Distinct(slots)
      && forall i: nat :: InList(slots, i) <==> InUse(s.events, i) && HasBit(s.taken[k], BitOf(s.events.buffer[i].vector))
  {
    hide Run, PendingOk, RegsOk, HasBit, Selected, Remove;
    EmptyOk();
    RunOk(EMPTY, steps, s);
    FireOk(s.events, s.taken[k]);
  }

  // ---------------------------------------------------------------- interrupts arrive

  /** Nothing removes the registration `x` from outside: its file is not closed, and the hardware stays. */
  predicate Spares(st: Step, x: Entry) {
    match st
    case CloseFile(owner) => owner != x.owner
    case ReleaseAll => false
    case _ => true
  }

  /** The event has been set since there were `n` signals. */
  ghost predicate SetSince(s: System, n: nat, reg: nat) {
    exists k :: n <= k < |s.signals| && s.signals[k].reg == reg
  }

  /** Its message waits in the word, or with a DPC that has taken it. */
  ghost predicate OnItsWay(s: System, v: nat) {
    HasBit(s.pending, v) || exists k :: 0 <= k < |s.taken| && HasBit(s.taken[k], v)
  }

  /** The event has been set, or its slot still holds it and its message is on its way. */
  ghost predicate Awaited(s: System, n: nat, i: nat, x: Entry) {
    SetSince(s, n, x.reg) || (i < |s.events.buffer| && s.events.buffer[i] == x && OnItsWay(s, BitOf(x.vector)))
  }

  lemma StaysSet(s: System, s': System, n: nat, reg: nat)
    requires SetSince(s, n, reg) && s.signals <= s'.signals
    ensures SetSince(s', n, reg)
  {
    var k :| n <= k < |s.signals| && s.signals[k].reg == reg;
    assert s'.signals[k] == s.signals[k];
  }

  lemma SignalsGrow(s: System, st: Step)
    requires Allowed(s, st)
    ensures s.signals <= Apply(s, st).signals
  {
  }

  /** A DPC either sets the event or leaves its slot, and the messages of the others, alone. */
  lemma WalkAwaited(s: System, k: nat, n: nat, i: nat, x: Entry)
    requires SystemOk(s) && k < |s.taken| && n <= |s.signals| && x.event != Null
    requires i < |s.events.buffer| && s.events.buffer[i] == x && OnItsWay(s, BitOf(x.vector))
    ensures Awaited(Apply(s, Walk(k)), n, i, x)
  {
    hide HasBit, Valid, Selected, PendingOk, RegsOk;
    var v, mask := BitOf(x.vector), s.taken[k];
    var s' := Apply(s, Walk(k));
    var slots := Fire(s.events, mask).1;
    ValidSizes(s.events);
    FireOk(s.events, mask);
    if HasBit(mask, v) {
      assert InList(slots, i);
      var j :| 0 <= j < |slots| && slots[j] == i;
      assert s'.signals[|s.signals| + j] == SignalsOf(s.events.buffer, slots)[j];
    } else {
      assert s'.events.buffer[i] == x;
      if !HasBit(s.pending, v) {
        var j :| 0 <= j < |s.taken| && HasBit(s.taken[j], v);
        assert s'.taken[if j < k then j else j - 1] == s.taken[j];
      }
    }
  }

  /** A registration takes another slot. */
  lemma NewAwaited(e: Events, y: Entry, i: nat)
    requires i < |e.buffer| && e.buffer[i].event != Null
    ensures i < |Register(e, y).0.buffer| && Register(e, y).0.buffer[i] == e.buffer[i]
  {
  }

  lemma StepAwaited(s: System, st: Step, n: nat, i: nat, x: Entry)
    requires SystemOk(s) && Allowed(s, st) && Spares(st, x) && n <= |s.signals| && x.event != Null && Awaited(s, n, i, x)
    ensures Awaited(Apply(s, st), n, i, x) && n <= |Apply(s, st).signals|
  {
    hide HasBit, SetBit, Valid, Fire, Register, Remove, PendingOk, RegsOk;
    SignalsGrow(s, st);
    if SetSince(s, n, x.reg) {
      StaysSet(s, Apply(s, st), n, x.reg);
      return;
    }
    var v := BitOf(x.vector);
    var s' := Apply(s, st);
    match st
    case Interrupt(m) =>
      if m <= 64 {
        SetBitBits(s.pending, BitOf(m), v);
      }
    case Exchange =>
      if HasBit(s.pending, v) {
        if s.pending == 0 {
          ZeroBit(v);
        }
        assert s'.taken[|s.taken|] == s.pending;
      } else {
        var j :| 0 <= j < |s.taken| && HasBit(s.taken[j], v);
        assert s'.taken[j] == s.taken[j];
      }
    case Walk(k) => WalkAwaited(s, k, n, i, x);
    case NewEvent(owner, event, vector, singleShot) => NewAwaited(s.events, Entry(owner, event, vector, singleShot, s.next), i);
    case CloseFile(owner) => SparedByClose(s.events, owner, i);
    case _ =>
  }

  lemma SparedByClose(e: Events, owner: Pointer, i: nat)
    requires i < |e.buffer| && e.buffer[i].owner != owner
    ensures i < |Close(e, owner).buffer| && Close(e, owner).buffer[i] == e.buffer[i]
  {
  }

  lemma {:induction false} RunAwaited(s: System, steps: seq<Step>, s': System, n: nat, i: nat, x: Entry)
    requires SystemOk(s) && Run(s, steps, s') && n <= |s.signals| && x.event != Null && Awaited(s, n, i, x)
    requires forall k :: 0 <= k < |steps| ==> Spares(steps[k], x)
    ensures Awaited(s', n, i, x)
    decreases |steps|
  {
    hide SystemOk, Apply, Allowed, Awaited, Spares;
    if steps != [] {
      assert forall k :: 0 <= k < |steps| - 1 ==> steps[1..][k] == steps[k + 1];
      StepOk(s, steps[0]);
      StepAwaited(s, steps[0], n, i, x);
      RunAwaited(Apply(s, steps[0]), steps[1..], s', n, i, x);
    }
  }

  /** No DPC is about to be queued, queued, or at work. */
  predicate Settled(s: System) {
    s.toQueue == 0 && !s.queued && s.entered == 0 && s.taken == []
  }

  /** An interrupt reaches every event that is registered for its message: when the DPCs it has caused have come to an end,
      the event has been set since, unless it has been taken away meanwhile. */
  lemma InterruptArrives(before: seq<Step>, s: System, m: nat, i: nat, after: seq<Step>, s': System)
    requires Run(EMPTY, before, s) && m <= 64 && InUse(s.events, i) && BitOf(s.events.buffer[i].vector) == BitOf(m)
    requires Run(Apply(s, Interrupt(m)), after, s') && Settled(s')
    requires forall k :: 0 <= k < |after| ==> Spares(after[k], s.events.buffer[i])
    ensures SetSince(s', |s.signals|, s.events.buffer[i].reg)
  {
    hide Run, HasBit, SetBit, Valid, RegsOk, Spares;
    var x, s1 := s.events.buffer[i], Apply(s, Interrupt(m));
    EmptyOk();
    RunOk(EMPTY, before, s);
    StepOk(s, Interrupt(m));
    SetBitBits(s.pending, BitOf(m), BitOf(m));
    RunAwaited(s1, after, s', |s.signals|, i, x);
    RunOk(s1, after, s');
    ZeroBit(BitOf(m));
  }

  /** And they come to an end: from any state, if no more interrupts come, the DPC's own steps settle everything. */
  lemma {:induction false} Settles(s: System) returns (steps: seq<Step>, s': System)
    ensures Run(s, steps, s') && Settled(s')
    ensures forall k :: 0 <= k < |steps| ==> steps[k].QueueDpc? || steps[k].StartDpc? || steps[k].Exchange? || steps[k].Walk?
    decreases s.toQueue, if s.queued then 1 else 0, s.entered, |s.taken|
  {
    hide Fire;
    if Settled(s) {
      return [], s;
    }
    var st := if s.toQueue > 0 then QueueDpc else if s.queued then StartDpc else if s.entered > 0 then Exchange else Walk(0);
    var rest;
    rest, s' := Settles(Apply(s, st));
    steps := [st] + rest;
    assert steps[1..] == rest;
  }
}
