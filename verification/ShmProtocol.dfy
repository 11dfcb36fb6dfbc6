/** Clients and server over the shared memory, one access to it at a time, in any order. */
module ShmProtocol {
  import opened Masks
  import opened ShmLayout

  /** What was submitted, and what was answered. */
  datatype Exchange = Exchange(data: seq<int>, reply: int)

  /** Who holds the lock word; the code only sees whether it is zero. */
  datatype Holder = Nobody | Server | Client(i: nat)

  /** Where a client is: in `shm_create_context` up to `ConnDone`, then between submissions or in `submit_shm`. */
  datatype Pc =
    | Start | ClaimRead | ClaimWrite(seen: nat) | NoSlot | Dead
    | ConnCheck | ConnUnlock | ConnSpin | ConnLock | ConnWrite | ConnDone
    | Idle | Lock | Check | Unlock | Spin | Mark | Copy(k: nat) | SetSize | Raise | Release | Await | Read | Gone

  /** `done` is history: the exchanges this client has had. */
  datatype Peer = Peer(pc: Pc, id: nat, buf: seq<int>, done: seq<Exchange>)

  /** A mailbox; `reply` stands for its registers from RETVAL on.
      `served` is history: the exchanges with the client that has the slot. */
  datatype Box = Box(submit: bool, reply: int, served: seq<Exchange>)

  /** Where the server is: in `wait_shm` up to `ReadSize`, then serving one submission. */
  datatype SrvPc =
    | Poll | Add(c: nat) | PollSubmit | ReadId | ReadSize | Take | Discard | Reject
    | Process | ClearBox | RelLock | RelWipe | RelRead | RelWrite(seen: nat) | RelUnlock

  /** `who` is history: the client whose submission is being served. */
  datatype Srv = Srv(pc: SrvPc, id: nat, size: nat, exec: seq<int>, who: nat, conns: set<nat>)

  /** `poster` and `owner` are history: who raised SUBMIT last, and which client has which slot (-1: none). */
  datatype State = State(
    lock: Holder, submit: bool, stageId: nat, stageSize: nat, stage: seq<int>, mask: nat, connect: nat,
    boxes: seq<Box>, peers: seq<Peer>, srv: Srv, poster: nat, owner: seq<int>)

  const GOODBYE_WORLD: int := 13

  /** The buffer a client submits when it leaves, with the zero that ends every buffer. */
  function Goodbye(id: nat): seq<int> {
    [GOODBYE_WORLD, id, 0, 0]
  }

  predicate Sized(st: State) {
    |st.boxes| == |st.owner| == MAX_CLIENTS + 1
  }

  function Go(st: State, i: nat, pc: Pc): State
    requires i < |st.peers|
  {
    st.(peers := st.peers[i := st.peers[i].(pc := pc)])
  }

  /** `spin_lock`: one compare-and-swap */
  function TryLock(st: State, i: nat, pc: Pc): State
    requires i < |st.peers|
  {
    if st.lock == Nobody then Go(st, i, pc).(lock := Client(i)) else st
  }

  /** `spin_unlock`: one store, whoever holds the lock */
  function Free(st: State, i: nat, pc: Pc): State
    requires i < |st.peers|
  {
    Go(st, i, pc).(lock := Nobody)
  }

  // ---------------------------------------------------------------- the client

  /** `shm_claim_slot`, the write */
  function Claim(st: State, i: nat, seen: nat): State
    requires i < |st.peers| && Sized(st)
  {
    var s := FirstFree(seen, 1, MAX_CLIENTS);
    if s == 0 || s > MAX_CLIENTS then Go(st, i, NoSlot)
    else
      st.(peers := st.peers[i := st.peers[i].(pc := ConnCheck, id := s, done := [])], mask := SetBit(seen, s - 1),
          boxes := st.boxes[s := st.boxes[s].(served := [])], owner := st.owner[s := i])
  }

  /** A new buffer is submitted; one that does not fit is dropped and answered with zero.
      A client says goodbye only after its first submission, which creates its context. */
  function Begin(st: State, i: nat, buf: seq<int>): State
    requires i < |st.peers| && Sized(st)
  {
    var c := st.peers[i];
    if c.id > MAX_CLIENTS || (buf == Goodbye(c.id) && c.done == []) then st
    else if |buf| > |st.stage| then st.(boxes := st.boxes[c.id := st.boxes[c.id].(reply := 0)])
    else st.(peers := st.peers[i := c.(pc := Lock, buf := buf)])
  }

  function SetBox(st: State, id: nat, b: Box): State
    requires Sized(st)
  {
    if id <= MAX_CLIENTS then st.(boxes := st.boxes[id := b]) else st
  }

  function BoxOf(st: State, id: nat): Box
    requires Sized(st)
  {
    if id <= MAX_CLIENTS then st.boxes[id] else Box(false, 0, [])
  }

  /** Claiming a slot */
  function ClaimNext(st: State, i: nat): State
    requires i < |st.peers| && Sized(st)
  {
    match st.peers[i].pc
    case Start => TryLock(st, i, ClaimRead)
    case ClaimRead => Go(st, i, ClaimWrite(st.mask))
    case ClaimWrite(seen) => Claim(st, i, seen)
    case NoSlot => Free(st, i, Dead)
    case _ => st
  }

  /** Telling the server about it */
  function ConnectNext(st: State, i: nat): State
    requires i < |st.peers| && Sized(st)
  {
    match st.peers[i].pc
    case ConnCheck => Go(st, i, if st.connect != 0 then ConnUnlock else ConnWrite)
    case ConnUnlock => Free(st, i, ConnSpin)
    case ConnSpin => if st.connect == 0 then Go(st, i, ConnLock) else st
    case ConnLock => TryLock(st, i, ConnCheck)
    case ConnWrite => Go(st, i, ConnDone).(connect := st.peers[i].id)
    case ConnDone => Free(st, i, Idle)
    case _ => st
  }

  /** Waiting until nothing is submitted */
  function AskNext(st: State, i: nat): State
    requires i < |st.peers| && Sized(st)
  {
    var c := st.peers[i];
    match c.pc
    case Lock => TryLock(st, i, Check)
    case Check => Go(st, i, if st.submit then Unlock else Mark)
    case Unlock => Free(st, i, Spin)
    case Spin => if st.submit then st else Go(st, i, Lock)
    case Mark => SetBox(Go(st, i, Copy(0)), c.id, BoxOf(st, c.id).(submit := true))
    case _ => st
  }

  /** Filling the stage and raising SUBMIT */
  function FillNext(st: State, i: nat): State
    requires i < |st.peers| && Sized(st)
  {
    var c := st.peers[i];
    match c.pc
    case Copy(k) =>
      if k < |c.buf| then
        if k < |st.stage| then Go(st, i, Copy(k + 1)).(stage := st.stage[k := c.buf[k]]) else st
      else Go(st, i, SetSize).(stageId := c.id)
    case SetSize => Go(st, i, Raise).(stageSize := |c.buf|)
    case Raise => Go(st, i, Release).(submit := true, poster := i)
    case _ => st
  }

  /** Waiting for the answer */
  function EndNext(st: State, i: nat): State
    requires i < |st.peers| && Sized(st)
  {
    var c := st.peers[i];
    match c.pc
    case Release => Free(st, i, Await)
    case Await =>
      if BoxOf(st, c.id).submit then st
      else if c.buf == Goodbye(c.id) then Go(st, i, Gone)
      else Go(st, i, Read)
    case Read => st.(peers := st.peers[i := c.(pc := Idle, done := c.done + [Exchange(c.buf, BoxOf(st, c.id).reply)])])
    case _ => st
  }

  /** The next access of client `i`; `buf` is what it submits if it begins a submission now. */
  function ClientNext(st: State, i: nat, buf: seq<int>): State
    requires i < |st.peers| && Sized(st)
  {
    match st.peers[i].pc
    case Start | ClaimRead | ClaimWrite(_) | NoSlot | Dead => ClaimNext(st, i)
    case ConnCheck | ConnUnlock | ConnSpin | ConnLock | ConnWrite | ConnDone => ConnectNext(st, i)
    case Idle => Begin(st, i, buf)
    case Lock | Check | Unlock | Spin | Mark => AskNext(st, i)
    case Copy(_) | SetSize | Raise => FillNext(st, i)
    case Release | Await | Read | Gone => EndNext(st, i)
  }

  // ---------------------------------------------------------------- the server

  function SrvGo(st: State, pc: SrvPc): State {
    st.(srv := st.srv.(pc := pc))
  }

  /** Waiting for a connection or a submission, and reading it */
  function ListenNext(st: State): State
    requires Sized(st)
  {
    var s := st.srv;
    match s.pc
    case Poll => SrvGo(st, if st.connect != 0 then Add(st.connect) else PollSubmit)
    case Add(c) => st.(srv := s.(pc := Poll, conns := s.conns + {c}), connect := 0)
    case PollSubmit => SrvGo(st, if st.submit then ReadId else Poll)
    case ReadId => st.(srv := s.(pc := ReadSize, id := st.stageId))
    case ReadSize =>
      if !(1 <= s.id <= MAX_CLIENTS) then st.(srv := s.(pc := Discard, size := st.stageSize))
      else if st.stageSize > |st.stage| then st.(srv := s.(pc := Reject, size := st.stageSize))
      else st.(srv := s.(pc := Take, size := st.stageSize, exec := []))
    case Take =>
      if |s.exec| < s.size && |s.exec| < |st.stage| then st.(srv := s.(exec := s.exec + [st.stage[|s.exec|]]))
      else st.(submit := false, srv := s.(pc := Process, who := st.poster))
    case Discard => SrvGo(st, Poll).(submit := false)
    case Reject => SetBox(SrvGo(st, Discard), s.id, BoxOf(st, s.id).(submit := false, reply := 0))
    case _ => st
  }

  /** Executing a submission and answering it */
  function AnswerNext(st: State, reply: int): State
    requires Sized(st)
  {
    var s := st.srv;
    match s.pc
    case Process =>
      var b := BoxOf(st, s.id);
      SetBox(st.(srv := s.(pc := ClearBox, conns := if s.exec == Goodbye(s.id) then s.conns - {s.id} else s.conns)),
             s.id, b.(reply := reply, served := b.served + [Exchange(s.exec, reply)]))
    case ClearBox =>
      SetBox(SrvGo(st, if s.exec == Goodbye(s.id) then RelLock else Poll), s.id, BoxOf(st, s.id).(submit := false))
    case _ => st
  }

  /** Taking back the slot of a client that has left */
  function ReleaseNext(st: State): State
    requires Sized(st)
  {
    var s := st.srv;
    match s.pc
    case RelLock => if st.lock == Nobody then SrvGo(st, RelWipe).(lock := Server) else st
    case RelWipe => SetBox(SrvGo(st, RelRead), s.id, BoxOf(st, s.id).(submit := false, reply := 0))
    case RelRead => SrvGo(st, RelWrite(st.mask))
    case RelWrite(seen) =>
      if 1 <= s.id <= MAX_CLIENTS then
        SrvGo(st, RelUnlock).(mask := ClearBit(seen, s.id - 1), owner := st.owner[s.id := -1])
      else SrvGo(st, RelUnlock)
    case RelUnlock => SrvGo(st, Poll).(lock := Nobody)
    case _ => st
  }

  /** The next access of the server; `reply` is what executing the buffer leaves in the registers. */
  function ServerNext(st: State, reply: int): State
    requires Sized(st)
  {
    match st.srv.pc
    case Poll | Add(_) | PollSubmit | ReadId | ReadSize | Take | Discard | Reject => ListenNext(st)
    case Process | ClearBox => AnswerNext(st, reply)
    case RelLock | RelWipe | RelRead | RelWrite(_) | RelUnlock => ReleaseNext(st)
  }

  // ---------------------------------------------------------------- runs

  datatype Step = ClientStep(i: nat, buf: seq<int>) | ServerStep(reply: int)

  function Next(st: State, step: Step): State
    requires Sized(st)
  {
    match step
    case ClientStep(i, buf) => if i < |st.peers| then ClientNext(st, i, buf) else st
    case ServerStep(reply) => ServerNext(st, reply)
  }

  /** `n` clients that have not begun, a stage of `capacity` words, and everything zero. */
  function Initial(n: nat, capacity: nat): State {
    State(Nobody, false, 0, 0, seq(capacity, _ => 0), 0, 0, seq(MAX_CLIENTS + 1, _ => Box(false, 0, [])),
          seq(n, _ => Peer(Start, 0, [], [])), Srv(Poll, 0, 0, [], 0, {}), 0, seq(MAX_CLIENTS + 1, _ => -1))
  }

  ghost predicate Run(st: State, steps: seq<Step>, st': State)
    requires Sized(st)
    decreases |steps|
  {
    if steps == [] then st' == st
    else Sized(Next(st, steps[0])) && Run(Next(st, steps[0]), steps[1..], st')
  }
}
