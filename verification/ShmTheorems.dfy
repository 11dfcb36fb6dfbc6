/** What holds in every run of any number of clients against the server. */
module ShmTheorems {
  import opened Masks
  import opened ShmLayout
  import opened ShmProtocol
  import opened ShmSafety
  import opened ShmConnect

  lemma Reachable(n: nat, capacity: nat, steps: seq<Step>, st: State)
    requires Run(Initial(n, capacity), steps, st)
    ensures Inv(st) && ConnInv(st)
  {
    hide Run, Inv, ConnInv;
    InitialOk(n, capacity);
    InitialConn(n, capacity);
    RunConn(Initial(n, capacity), steps, st);
  }

  /** At most one client, or the server, is between taking and freeing the lock. */
  lemma OneHolder(n: nat, capacity: nat, steps: seq<Step>, st: State, i: nat, j: nat)
    requires Run(Initial(n, capacity), steps, st) && i < |st.peers| && j < |st.peers| && InCrit(st.peers[i].pc)
    ensures InCrit(st.peers[j].pc) ==> i == j
    ensures !SrvCrit(st.srv.pc)
  {
    hide Run, StageOk, SlotOk, PosterOk, ConnInv;
    Reachable(n, capacity, steps, st);
    assert ClientOk(st, i) && ClientOk(st, j);
  }

  /** Live clients have different slots, so their own registers never share a word. */
  lemma DistinctSlots(n: nat, capacity: nat, steps: seq<Step>, st: State, i: nat, j: nat)
    requires Run(Initial(n, capacity), steps, st) && i < |st.peers| && j < |st.peers| && i != j
    requires Slotted(st.peers[i]) && Slotted(st.peers[j])
    ensures 1 <= st.peers[i].id <= MAX_CLIENTS && st.peers[i].id != st.peers[j].id
    ensures forall x: nat, y: nat :: x < SLOT_SIZE && y < SLOT_SIZE && x !in GLOBALS && y !in GLOBALS ==>
      Resolve(st.peers[i].id, x) != Resolve(st.peers[j].id, y)
  {
    hide Run, StageOk, SlotOk, PosterOk, ServerOk, ConnInv, Resolve;
    Reachable(n, capacity, steps, st);
    assert ClientOk(st, i) && ClientOk(st, j);
    forall x: nat, y: nat | x < SLOT_SIZE && y < SLOT_SIZE && x !in GLOBALS && y !in GLOBALS
      ensures Resolve(st.peers[i].id, x) != Resolve(st.peers[j].id, y)
    {
      MailboxesApart(st.peers[i].id, st.peers[j].id, x, y);
    }
  }

  /** A claim is granted exactly if a slot is free, and then it is the lowest one; it belonged to no client, and belongs to this
      one now. */
  lemma Granted(n: nat, capacity: nat, steps: seq<Step>, st: State, i: nat, buf: seq<int>)
    requires Run(Initial(n, capacity), steps, st) && i < |st.peers| && st.peers[i].pc.ClaimWrite? && Sized(st)
    ensures
      var st' := Next(st, ClientStep(i, buf));
      if forall t :: 1 <= t <= MAX_CLIENTS ==> Taken(st.mask, t) then st' == Go(st, i, NoSlot)
      else
        var s := st'.peers[i].id;
        && st'.peers[i].pc == ConnCheck && 1 <= s <= MAX_CLIENTS && !Taken(st.mask, s)
        && (forall t :: 1 <= t < s ==> Taken(st.mask, t)) && st.owner[s] == -1 && st'.owner == st.owner[s := i]
        && st'.mask == SetBit(st.mask, s - 1) && (forall j :: 0 <= j < |st.peers| && j != i ==> st'.peers[j] == st.peers[j])
  {
    hide Run, StageOk, MailOk, PosterOk, ServerOk, ConnInv, Taken, SetBit;
    Reachable(n, capacity, steps, st);
    assert ClientOk(st, i);
    SeenIsMask(st, i);
    FirstFreeIs(st.mask, 1, MAX_CLIENTS);
    var s := FirstFree(st.mask, 1, MAX_CLIENTS);
    if s != 0 {
      assert SlotOk(st, s);
    }
  }

  lemma SeenIsMask(st: State, i: nat)
    requires Inv(st) && i < |st.peers| && st.peers[i].pc.ClaimWrite?
    ensures st.peers[i].pc.seen == st.mask
  {
    hide MailOk, PosterOk, ServerOk, SlotOk;
    assert ClientOk(st, i);
  }

  /** A client that has its slot begins to submit whatever fits the stage, but does not say goodbye before it has submitted
      anything; what does not fit is answered with zero and goes no further. */
  lemma Submits(n: nat, capacity: nat, steps: seq<Step>, st: State, i: nat, buf: seq<int>)
    requires Run(Initial(n, capacity), steps, st) && i < |st.peers| && st.peers[i].pc == Idle && Sized(st)
    ensures st.peers[i].id <= MAX_CLIENTS
    ensures
      var c, st' := st.peers[i], Next(st, ClientStep(i, buf));
      && (st'.peers[i].pc == Lock <==> |buf| <= capacity && (buf == Goodbye(c.id) ==> c.done != []))
      && (st'.peers[i].pc == Lock ==> st' == st.(peers := st.peers[i := c.(pc := Lock, buf := buf)]))
      && (st'.peers[i].pc != Lock ==> st' == st || (|buf| > capacity && st' == st.(boxes := st.boxes[c.id := st.boxes[c.id].(reply := 0)])))
  {
    hide Run, StageOk, PosterOk, ServerOk, SlotOk, ConnInv, WaitOk;
    Reachable(n, capacity, steps, st);
    assert ClientOk(st, i);
    StageSize(Initial(n, capacity), steps, st);
  }

  lemma {:induction false} StageSize(st: State, steps: seq<Step>, st': State)
    requires Sized(st) && Run(st, steps, st')
    ensures |st'.stage| == |st.stage|
    decreases |steps|
  {
    hide Next;
    if steps != [] {
      StageStep(st, steps[0]);
      StageSize(Next(st, steps[0]), steps[1..], st');
    }
  }

  lemma StageStep(st: State, step: Step)
    requires Sized(st)
    ensures |Next(st, step).stage| == |st.stage|
  {
    hide ClaimNext, ConnectNext, AskNext, FillNext, EndNext, ListenNext, AnswerNext, ReleaseNext, Begin;
    match step
    case ClientStep(i, buf) =>
      if i < |st.peers| {
        ClientStage(st, i, buf);
      }
    case ServerStep(reply) => ServerStage(st, reply);
  }

  lemma ClientStage(st: State, i: nat, buf: seq<int>)
    requires Sized(st) && i < |st.peers|
    ensures |ClaimNext(st, i).stage| == |ConnectNext(st, i).stage| == |AskNext(st, i).stage| == |st.stage|
    ensures |EndNext(st, i).stage| == |Begin(st, i, buf).stage| == |st.stage|
    ensures |FillNext(st, i).stage| == |st.stage|
  {
    hide FirstFree, SetBit;
  }

  lemma ServerStage(st: State, reply: int)
    requires Sized(st)
    ensures |ListenNext(st).stage| == |AnswerNext(st, reply).stage| == |ReleaseNext(st).stage| == |st.stage|
  {
    hide ClearBit;
  }

  /** What the server executes is the complete buffer of one client, which waits for the answer. */
  lemma TakenWhole(n: nat, capacity: nat, steps: seq<Step>, st: State)
    requires Run(Initial(n, capacity), steps, st) && st.srv.pc == Process
    ensures st.srv.who < |st.peers| && Posted(st.peers[st.srv.who].pc)
    ensures st.srv.exec == st.peers[st.srv.who].buf && st.srv.id == st.peers[st.srv.who].id
  {
    hide Run, ClientOk, SlotOk, PosterOk, ConnInv;
    Reachable(n, capacity, steps, st);
  }

  /** While SUBMIT is raised, no client writes the stage or its registers, or lowers it. */
  lemma StageStable(n: nat, capacity: nat, steps: seq<Step>, st: State, i: nat, buf: seq<int>)
    requires Run(Initial(n, capacity), steps, st) && st.submit && i < |st.peers| && Sized(st)
    ensures
      var st' := ClientNext(st, i, buf);
      st'.stage == st.stage && st'.stageId == st.stageId && st'.stageSize == st.stageSize && st'.submit && st'.poster == st.poster
  {
    hide Run, SlotOk, PosterOk, ServerOk, ConnInv, MailOk, FilledOk, FirstFree, Goodbye;
    Reachable(n, capacity, steps, st);
    assert ClientOk(st, i);
  }

  /** Between submissions, a client's history is exactly what the server did in its slot: each of its submissions was
      executed once, in order, and it read the answer to that submission. */
  lemma OwnAnswers(n: nat, capacity: nat, steps: seq<Step>, st: State, i: nat)
    requires Run(Initial(n, capacity), steps, st) && i < |st.peers| && st.peers[i].pc == Idle
    ensures Sized(st) && st.peers[i].done == BoxOf(st, st.peers[i].id).served
  {
    hide Run, StageOk, SlotOk, PosterOk, ServerOk, ConnInv, WaitOk;
    Reachable(n, capacity, steps, st);
    assert ClientOk(st, i);
  }

  /** The server never finds an invalid client or an oversized submission. */
  lemma NeverRejected(n: nat, capacity: nat, steps: seq<Step>, st: State)
    requires Run(Initial(n, capacity), steps, st)
    ensures st.srv.pc != Discard && st.srv.pc != Reject
  {
    hide Run, ClientOk, SlotOk, PosterOk, ConnInv;
    Reachable(n, capacity, steps, st);
  }

  /** When a submission is executed, the server has a connection for the client exactly if the client's announcement is
      not still pending; and from the second submission on it always has one. */
  lemma KnownClient(n: nat, capacity: nat, steps: seq<Step>, st: State)
    requires Run(Initial(n, capacity), steps, st) && st.srv.pc == Process
    ensures st.srv.id in st.srv.conns <==> st.connect != st.srv.id
    ensures Sized(st) && (BoxOf(st, st.srv.id).served != [] ==> st.srv.id in st.srv.conns)
  {
    hide Run, ClientOk, SlotOk, PosterOk, Goodbye, PeerConn;
    Reachable(n, capacity, steps, st);
    PastAnnouncing(n, capacity, steps, st);
    assert ConnAt(st, st.srv.id);
  }

  lemma PastAnnouncing(n: nat, capacity: nat, steps: seq<Step>, st: State)
    requires Run(Initial(n, capacity), steps, st) && st.srv.pc == Process
    ensures Sized(st) && 1 <= st.srv.id <= MAX_CLIENTS && 0 <= st.owner[st.srv.id] < |st.peers|
    ensures !Unannounced(st.peers[st.owner[st.srv.id]].pc)
  {
    hide Run, ClientOk, SlotOk, PosterOk, ConnInv, Goodbye;
    Reachable(n, capacity, steps, st);
  }

  // ---------------------------------------------------------------- the first submission

  lemma {:induction false} RunSnoc(a: State, steps: seq<Step>, b: State, s: Step)
    requires Sized(a) && Run(a, steps, b) && Sized(b) && Sized(Next(b, s))
    ensures Run(a, steps + [s], Next(b, s))
    decreases |steps|
  {
    hide Next;
    if steps == [] {
      assert steps + [s] == [s];
      assert Run(Next(a, s), [s][1..], Next(b, s));
    } else {
      assert (steps + [s])[0] == steps[0] && (steps + [s])[1..] == steps[1..] + [s];
      RunSnoc(Next(a, steps[0]), steps[1..], b, s);
    }
  }

  /** The state of a single client and the server on the way to the first submission; the client's buffer creates its
      context, and the stage has room for it. */
  function Alone(pc: Pc, buf: seq<int>, lock: Holder, submit: bool, stageId: nat, stageSize: nat, stage: seq<int>,
                 raised: bool, srv: Srv): State
  {
    State(lock, submit, stageId, stageSize, stage, SetBit(0, 0), 1,
          seq(MAX_CLIENTS + 1, _ => Box(false, 0, []))[1 := Box(raised, 0, [])],
          [Peer(pc, 1, buf, [])], srv, 0, seq(MAX_CLIENTS + 1, _ => -1)[1 := 0])
  }

  const POLLED: Srv := Srv(PollSubmit, 0, 0, [], 0, {})

  lemma FirstSlotFree()
    ensures FirstFree(0, 1, MAX_CLIENTS) == 1
  {
    ZeroBit(0);
  }

  /** The server polls CONNECT; then the client claims its slot ... */
  lemma Claimed() returns (steps: seq<Step>, st: State)
    ensures Run(Initial(1, 2), steps, st)
    ensures st == Alone(ConnCheck, [], Client(0), false, 0, 0, [0, 0], false, POLLED).(connect := 0)
  {
    hide Run, FirstFree, SetBit;
    FirstSlotFree();
    var a := Initial(1, 2);
    var c := ClientStep(0, []);
    Begins(a);
    steps, st := Advance(a, [], a, ServerStep(0));
    steps, st := Advance(a, steps, st, c);
    steps, st := Advance(a, steps, st, c);
    assert st.peers == [Peer(ClaimWrite(0), 0, [], [])];
    steps, st := Advance(a, steps, st, c);
    assert st.peers == [Peer(ConnCheck, 1, [], [])];
    assert st.stage == [0, 0];
  }

  /** ... and announces itself. */
  lemma Announced(a: State, steps: seq<Step>, b: State) returns (steps': seq<Step>, c: State)
    requires Sized(a) && Run(a, steps, b)
    requires b == Alone(ConnCheck, [], Client(0), false, 0, 0, [0, 0], false, POLLED).(connect := 0)
    ensures Run(a, steps', c) && c == Alone(Idle, [], Nobody, false, 0, 0, [0, 0], false, POLLED)
  {
    hide Run, FirstFree, SetBit;
    var s := ClientStep(0, []);
    steps', c := Advance(a, steps, b, s);
    steps', c := Advance(a, steps', c, s);
    steps', c := Advance(a, steps', c, s);
    assert c.peers == [Peer(Idle, 1, [], [])];
  }

  lemma Begins(a: State)
    requires Sized(a)
    ensures Run(a, [], a)
  {
  }

  lemma Advance(a: State, steps: seq<Step>, b: State, s: Step) returns (steps': seq<Step>, c: State)
    requires Sized(a) && Run(a, steps, b) && Sized(b) && Sized(Next(b, s))
    ensures c == Next(b, s) && steps' == steps + [s] && Run(a, steps', c)
  {
    RunSnoc(a, steps, b, s);
    steps', c := steps + [s], Next(b, s);
  }

  /** The client submits the creation of its context: it takes the lock ... */
  lemma Asked(a: State, steps: seq<Step>, b: State) returns (steps': seq<Step>, c: State)
    requires Sized(a) && Run(a, steps, b) && b == Alone(Idle, [], Nobody, false, 0, 0, [0, 0], false, POLLED)
    ensures Run(a, steps', c) && c == Alone(Copy(0), [10, 0], Client(0), false, 0, 0, [0, 0], true, POLLED)
  {
    hide Run, SetBit;
    var s := ClientStep(0, [10, 0]);
    steps', c := Advance(a, steps, b, s);
    assert c.peers == [Peer(Lock, 1, [10, 0], [])];
    steps', c := Advance(a, steps', c, s);
    steps', c := Advance(a, steps', c, s);
    assert c.peers == [Peer(Mark, 1, [10, 0], [])];
    steps', c := Advance(a, steps', c, s);
    assert c.peers == [Peer(Copy(0), 1, [10, 0], [])];
  }

  /** ... fills the stage ... */
  lemma Filled(a: State, steps: seq<Step>, b: State) returns (steps': seq<Step>, c: State)
    requires Sized(a) && Run(a, steps, b) && b == Alone(Copy(0), [10, 0], Client(0), false, 0, 0, [0, 0], true, POLLED)
    ensures Run(a, steps', c) && c == Alone(SetSize, [10, 0], Client(0), false, 1, 0, [10, 0], true, POLLED)
  {
    hide Run, SetBit;
    var s := ClientStep(0, [10, 0]);
    steps', c := Advance(a, steps, b, s);
    steps', c := Advance(a, steps', c, s);
    assert c.peers == [Peer(Copy(2), 1, [10, 0], [])] && c.stage == [10, 0];
    steps', c := Advance(a, steps', c, s);
    assert c.peers == [Peer(SetSize, 1, [10, 0], [])];
  }

  /** ... and raises SUBMIT. */
  lemma Raised(a: State, steps: seq<Step>, b: State) returns (steps': seq<Step>, c: State)
    requires Sized(a) && Run(a, steps, b) && b == Alone(SetSize, [10, 0], Client(0), false, 1, 0, [10, 0], true, POLLED)
    ensures Run(a, steps', c) && c == Alone(Release, [10, 0], Client(0), true, 1, 2, [10, 0], true, POLLED)
  {
    hide Run, SetBit;
    var s := ClientStep(0, [10, 0]);
    steps', c := Advance(a, steps, b, s);
    steps', c := Advance(a, steps', c, s);
    assert c.peers == [Peer(Release, 1, [10, 0], [])];
  }

  /** The server finds SUBMIT raised and reads the registers. */
  lemma Noticed(a: State, steps: seq<Step>, b: State) returns (steps': seq<Step>, c: State)
    requires Sized(a) && Run(a, steps, b) && b == Alone(Release, [10, 0], Client(0), true, 1, 2, [10, 0], true, POLLED)
    ensures Run(a, steps', c)
    ensures c == Alone(Release, [10, 0], Client(0), true, 1, 2, [10, 0], true, Srv(Take, 1, 2, [], 0, {}))
  {
    hide Run, SetBit;
    steps', c := Advance(a, steps, b, ServerStep(0));
    steps', c := Advance(a, steps', c, ServerStep(0));
    steps', c := Advance(a, steps', c, ServerStep(0));
  }

  /** The server, which has polled before all that, takes the submission of a client it does not know yet. */
  lemma FirstMayBeUnknown() returns (steps: seq<Step>, st: State)
    ensures Run(Initial(1, 2), steps, st)
    ensures st.srv.pc == Process && st.srv.id == 1 && st.srv.exec == [10, 0] && st.srv.id !in st.srv.conns
  {
    hide Run, SetBit;
    var a := Initial(1, 2);
    steps, st := Claimed();
    steps, st := Announced(a, steps, st);
    steps, st := Asked(a, steps, st);
    steps, st := Filled(a, steps, st);
    steps, st := Raised(a, steps, st);
    steps, st := Noticed(a, steps, st);
    steps, st := Advance(a, steps, st, ServerStep(0));
    steps, st := Advance(a, steps, st, ServerStep(0));
    assert st.srv.exec == [10, 0];
    steps, st := Advance(a, steps, st, ServerStep(0));
  }
}
