/** Connections: when the server serves a submission, does it know the client? */
module ShmConnect {
  import opened Masks
  import opened ShmLayout
  import opened ShmProtocol
  import opened ShmSafety

  /** The client has a slot but has not written CONNECT yet. */
  predicate Unannounced(pc: Pc) {
    pc == ConnCheck || pc == ConnUnlock || pc == ConnSpin || pc == ConnLock || pc == ConnWrite
  }

  /** The server has polled CONNECT and found nothing, and has not come back since. */
  predicate Committed(pc: SrvPc) {
    pc == PollSubmit || pc == ReadId || pc == ReadSize || pc == Take || pc == Process
  }

  /** The server has forgotten the client and is taking its slot back. */
  predicate Parting(s: Srv, slot: nat) {
    s.id == slot && ((s.pc == ClearBox && s.exec == Goodbye(slot)) || Releasing(s.pc))
  }

  /** A slot's client is connected, or its announcement is pending, but never both. */
  predicate SlotConn(slot: nat, owned: bool, pc: Pc, served: seq<Exchange>, connect: nat, s: Srv) {
    if !owned || Unannounced(pc) || Parting(s, slot) then slot !in s.conns && connect != slot
    else (slot in s.conns <==> connect != slot) && (connect == slot && Committed(s.pc) ==> served == [])
  }

  predicate ConnAt(st: State, slot: nat)
    requires Sized(st) && 1 <= slot <= MAX_CLIENTS
  {
    var o := st.owner[slot];
    var owned := 0 <= o < |st.peers|;
    SlotConn(slot, owned, if owned then st.peers[o].pc else Start, st.boxes[slot].served, st.connect, st.srv)
  }

  /** A new client has no history; one that says goodbye has. */
  predicate PeerConn(c: Peer, connect: nat) {
    && (Unannounced(c.pc) ==> c.done == [])
    && (c.pc == ConnWrite ==> connect == 0)
    && ((Submitting(c.pc) || c.pc == Gone) && Leaving(c) ==> c.done != [])
  }

  ghost predicate ConnInv(st: State) {
    && Sized(st) && st.connect <= MAX_CLIENTS
    && (st.srv.pc.Add? ==> st.srv.pc.c == st.connect != 0)
    && (forall i :: 0 <= i < |st.peers| ==> PeerConn(st.peers[i], st.connect))
    && (forall s :: 1 <= s <= MAX_CLIENTS ==> ConnAt(st, s))
  }

  lemma InitialConn(n: nat, capacity: nat)
    ensures ConnInv(Initial(n, capacity))
  {
  }

  // ---------------------------------------------------------------- clients

  /** A step of a client that leaves CONNECT, its slot and the mailbox histories as they are. */
  lemma PlainConn(st: State, st': State, i: nat)
    requires ConnInv(st) && Sized(st') && i < |st.peers| == |st'.peers|
    requires st'.srv == st.srv && st'.owner == st.owner && st'.connect == st.connect
    requires forall j :: 0 <= j < |st.peers| && j != i ==> st'.peers[j] == st.peers[j]
    requires forall s :: 1 <= s <= MAX_CLIENTS ==> st'.boxes[s].served == st.boxes[s].served
    requires Unannounced(st'.peers[i].pc) <==> Unannounced(st.peers[i].pc)
    requires PeerConn(st'.peers[i], st.connect)
    ensures ConnInv(st')
  {
    hide PeerConn, Unannounced, Parting, Committed;
    forall s | 1 <= s <= MAX_CLIENTS ensures ConnAt(st', s) {
      assert ConnAt(st, s);
    }
  }

  lemma AskConn(st: State, i: nat)
    requires ConnInv(st) && i < |st.peers|
    ensures ConnInv(AskNext(st, i))
  {
    hide SlotConn, Goodbye;
    assert PeerConn(st.peers[i], st.connect);
    PlainConn(st, AskNext(st, i), i);
  }

  lemma FillConn(st: State, i: nat)
    requires ConnInv(st) && i < |st.peers|
    ensures ConnInv(FillNext(st, i))
  {
    hide SlotConn, Goodbye;
    assert PeerConn(st.peers[i], st.connect);
    PlainConn(st, FillNext(st, i), i);
  }

  lemma EndConn(st: State, i: nat)
    requires ConnInv(st) && i < |st.peers|
    ensures ConnInv(EndNext(st, i))
  {
    hide SlotConn, Goodbye;
    assert PeerConn(st.peers[i], st.connect);
    PlainConn(st, EndNext(st, i), i);
  }

  lemma BeginConn(st: State, i: nat, buf: seq<int>)
    requires ConnInv(st) && i < |st.peers| && st.peers[i].pc == Idle
    ensures ConnInv(Begin(st, i, buf))
  {
    hide SlotConn, Goodbye;
    assert PeerConn(st.peers[i], st.connect);
    PlainConn(st, Begin(st, i, buf), i);
  }

  lemma ConnectConn(st: State, i: nat)
    requires Inv(st) && ConnInv(st) && i < |st.peers|
    ensures ConnInv(ConnectNext(st, i))
  {
    hide Inv, SlotConn, Goodbye;
    assert PeerConn(st.peers[i], st.connect);
    if st.peers[i].pc == ConnWrite {
      AnnounceConn(st, i);
    } else {
      PlainConn(st, ConnectNext(st, i), i);
    }
  }

  lemma WriterFacts(st: State, i: nat)
    requires Inv(st) && i < |st.peers| && st.peers[i].pc == ConnWrite
    ensures 1 <= st.peers[i].id <= MAX_CLIENTS && st.owner[st.peers[i].id] == i && st.lock == Client(i)
    ensures st.boxes[st.peers[i].id].served == st.peers[i].done
    ensures st.srv.who == i ==> st.srv.pc != Process && st.srv.pc != ClearBox && !Releasing(st.srv.pc)
    ensures Parting(st.srv, st.peers[i].id) ==> st.srv.who == i
    ensures forall j :: 0 <= j < |st.peers| && j != i ==> st.peers[j].pc != ConnWrite
  {
    hide PosterOk, SlotOk, StageOk, WaitOk;
    assert ClientOk(st, i);
    forall j | 0 <= j < |st.peers| && j != i ensures st.peers[j].pc != ConnWrite {
      assert ClientOk(st, j);
    }
  }

  /** A slot's owner carries its number. */
  predicate SlotId(st: State, s: nat)
    requires Sized(st) && 1 <= s <= MAX_CLIENTS
  {
    st.owner[s] != -1 ==> 0 <= st.owner[s] < |st.peers| && st.peers[st.owner[s]].id == s
  }

  lemma SlotIdOf(st: State, s: nat)
    requires Inv(st) && 1 <= s <= MAX_CLIENTS
    ensures SlotId(st, s)
  {
    hide ClientOk, ServerOk, PosterOk, Taken;
    assert SlotOk(st, s);
  }

  lemma AnnounceSlot(st: State, i: nat, s: nat)
    requires Inv(st) && ConnInv(st) && i < |st.peers| && st.peers[i].pc == ConnWrite && 1 <= s <= MAX_CLIENTS
    ensures ConnAt(ConnectNext(st, i), s)
  {
    hide Inv, Releasing, Goodbye;
    WriterFacts(st, i);
    SlotIdOf(st, s);
    assert PeerConn(st.peers[i], st.connect) && ConnAt(st, s);
  }

  /** CONNECT is written while it is zero. */
  lemma AnnounceConn(st: State, i: nat)
    requires Inv(st) && ConnInv(st) && i < |st.peers| && st.peers[i].pc == ConnWrite
    ensures ConnInv(ConnectNext(st, i))
  {
    hide Inv, ConnAt, Goodbye;
    WriterFacts(st, i);
    assert PeerConn(st.peers[i], st.connect);
    var st' := ConnectNext(st, i);
    forall j | 0 <= j < |st.peers| ensures PeerConn(st'.peers[j], st'.connect) {
      assert PeerConn(st.peers[j], st.connect);
    }
    forall s | 1 <= s <= MAX_CLIENTS ensures ConnAt(st', s) {
      AnnounceSlot(st, i, s);
    }
  }

  lemma ClaimConn(st: State, i: nat)
    requires Inv(st) && ConnInv(st) && i < |st.peers|
    ensures ConnInv(ClaimNext(st, i))
  {
    hide Inv, SlotConn, FirstFree, SetBit, Goodbye;
    assert PeerConn(st.peers[i], st.connect);
    if st.peers[i].pc.ClaimWrite? && FirstFree(st.peers[i].pc.seen, 1, MAX_CLIENTS) != 0 {
      NewSlotConn(st, i);
    } else {
      PlainConn(st, ClaimNext(st, i), i);
    }
  }

  lemma NewSlotConn(st: State, i: nat)
    requires Inv(st) && ConnInv(st) && i < |st.peers| && st.peers[i].pc.ClaimWrite?
    requires FirstFree(st.peers[i].pc.seen, 1, MAX_CLIENTS) != 0
    ensures ConnInv(ClaimNext(st, i))
  {
    hide ServerOk, PosterOk, SlotOk, StageOk, WaitOk, FirstFree, SetBit, Goodbye, MailOk, Committed;
    FreeSlot(st, i);
    var st' := ClaimNext(st, i);
    var t := FirstFree(st.mask, 1, MAX_CLIENTS);
    assert PeerConn(st.peers[i], st.connect);
    forall s | 1 <= s <= MAX_CLIENTS ensures ConnAt(st', s) {
      assert ConnAt(st, s);
      SlotIdOf(st, s);
    }
  }

  lemma ClientConn(st: State, i: nat, buf: seq<int>)
    requires Inv(st) && ConnInv(st) && i < |st.peers|
    ensures ConnInv(ClientNext(st, i, buf))
  {
    hide Inv, ConnInv, ClaimNext, ConnectNext, Begin, AskNext, FillNext, EndNext;
    match st.peers[i].pc
    case Start | ClaimRead | ClaimWrite(_) | NoSlot | Dead => ClaimConn(st, i);
    case ConnCheck | ConnUnlock | ConnSpin | ConnLock | ConnWrite | ConnDone => ConnectConn(st, i);
    case Idle => BeginConn(st, i, buf);
    case Lock | Check | Unlock | Spin | Mark => AskConn(st, i);
    case Copy(_) | SetSize | Raise => FillConn(st, i);
    case Release | Await | Read | Gone => EndConn(st, i);
  }

  // ---------------------------------------------------------------- the server

  lemma ListenSlot(st: State, reply: int, s: nat)
    requires Sized(st) && Listening(st.srv.pc) && 1 <= s <= MAX_CLIENTS && ConnAt(st, s)
    requires st.srv.pc.Add? ==> st.srv.pc.c == st.connect != 0
    ensures Sized(ServerNext(st, reply)) && ConnAt(ServerNext(st, reply), s)
  {
    hide AnswerNext, ReleaseNext, Goodbye, Unannounced, SlotConn;
    var o, st' := st.owner[s], ServerNext(st, reply);
    var owned := 0 <= o < |st.peers|;
    ListenOn(s, owned, if owned then st.peers[o].pc else Start, st.boxes[s].served, st.connect, st.srv, st'.connect, st'.srv);
  }

  /** The server adds the client that CONNECT names, or looks at CONNECT and finds nothing, or goes on. */
  lemma ListenOn(slot: nat, owned: bool, pc: Pc, served: seq<Exchange>, connect: nat, s: Srv, connect': nat, s': Srv)
    requires SlotConn(slot, owned, pc, served, connect, s) && slot >= 1 && Listening(s.pc) && !Releasing(s'.pc) && s'.pc != ClearBox
    requires if s.pc.Add? then s.pc.c == connect && connect' == 0 && s'.conns == s.conns + {connect} && s'.pc == Poll
             else connect' == connect && s'.conns == s.conns
    requires Committed(s'.pc) ==> Committed(s.pc) || connect == 0
    ensures SlotConn(slot, owned, pc, served, connect', s')
  {
    hide Goodbye, Unannounced;
  }

  lemma ListenConn(st: State, reply: int)
    requires Inv(st) && ConnInv(st) && Listening(st.srv.pc)
    ensures ConnInv(ServerNext(st, reply))
  {
    hide AnswerNext, ReleaseNext, Inv, Goodbye, Leaving, ConnAt;
    InvSized(st);
    ListenSlot(st, reply, 1);
    var st' := ServerNext(st, reply);
    forall j | 0 <= j < |st.peers| ensures PeerConn(st'.peers[j], st'.connect) {
      assert PeerConn(st.peers[j], st.connect);
    }
    forall s | 1 <= s <= MAX_CLIENTS ensures ConnAt(st', s) {
      ListenSlot(st, reply, s);
    }
  }

  /** The client that is being served has announced itself and has a history if it says goodbye. */
  lemma ServedFacts(st: State)
    requires Inv(st) && ConnInv(st) && Answering(st.srv.pc)
    ensures 1 <= st.srv.id <= MAX_CLIENTS && st.owner[st.srv.id] == st.srv.who < |st.peers|
    ensures Posted(st.peers[st.srv.who].pc) && st.srv.exec == st.peers[st.srv.who].buf && st.peers[st.srv.who].id == st.srv.id
    ensures st.srv.exec == Goodbye(st.srv.id) && st.srv.pc == Process ==> st.boxes[st.srv.id].served != []
  {
    hide PosterOk, SlotOk, StageOk, ConnAt, Goodbye;
    assert ClientOk(st, st.srv.who);
    assert PeerConn(st.peers[st.srv.who], st.connect);
  }

  lemma AnswerConn(st: State, reply: int)
    requires Inv(st) && ConnInv(st) && Answering(st.srv.pc)
    ensures ConnInv(ServerNext(st, reply))
  {
    hide ListenNext, ReleaseNext, Inv, Goodbye, PeerConn, ConnAt;
    ServedFacts(st);
    AnswerSlot(st, reply, 1);
    var st' := ServerNext(st, reply);
    forall s | 1 <= s <= MAX_CLIENTS ensures ConnAt(st', s) {
      AnswerSlot(st, reply, s);
    }
  }

  lemma AnswerSlot(st: State, reply: int, s: nat)
    requires Inv(st) && ConnInv(st) && Answering(st.srv.pc) && 1 <= s <= MAX_CLIENTS
    ensures Sized(ServerNext(st, reply)) && ConnAt(ServerNext(st, reply), s)
  {
    hide ListenNext, ReleaseNext, Inv, Goodbye, PeerConn;
    InvSized(st);
    ServedFacts(st);
    assert ConnAt(st, s);
  }

  /** The server moves on without touching connections. */
  lemma MoveOn(slot: nat, owned: bool, pc: Pc, served: seq<Exchange>, connect: nat, s: Srv, s': Srv)
    requires SlotConn(slot, owned, pc, served, connect, s) && s'.conns == s.conns
    requires (Parting(s', slot) <==> Parting(s, slot)) && !Committed(s'.pc)
    ensures SlotConn(slot, owned, pc, served, connect, s')
  {
  }

  lemma ReleaseSlot(st: State, reply: int, s: nat)
    requires Sized(st) && (Releasing(st.srv.pc) ==> 1 <= st.srv.id <= MAX_CLIENTS)
    requires (Releasing(st.srv.pc) || st.srv.pc == RelUnlock) && 1 <= s <= MAX_CLIENTS && ConnAt(st, s)
    ensures Sized(ServerNext(st, reply)) && ConnAt(ServerNext(st, reply), s)
  {
    hide ListenNext, AnswerNext, Goodbye, ClearBit, Unannounced, SlotConn;
    var o, st' := st.owner[s], ServerNext(st, reply);
    var owned := 0 <= o < |st.peers|;
    if st.srv.pc.RelWrite? {
      FreedConn(st, reply, s);
    } else {
      MoveOn(s, owned, if owned then st.peers[o].pc else Start, st.boxes[s].served, st.connect, st.srv, st'.srv);
    }
  }

  lemma FreedConn(st: State, reply: int, s: nat)
    requires Sized(st) && st.srv.pc.RelWrite? && 1 <= st.srv.id <= MAX_CLIENTS && 1 <= s <= MAX_CLIENTS && ConnAt(st, s)
    ensures Sized(ServerNext(st, reply)) && ConnAt(ServerNext(st, reply), s)
  {
    hide ListenNext, AnswerNext, Goodbye, ClearBit, Unannounced;
  }

  lemma ReleaseConn(st: State, reply: int)
    requires Inv(st) && ConnInv(st) && (Releasing(st.srv.pc) || st.srv.pc == RelUnlock)
    ensures ConnInv(ServerNext(st, reply))
  {
    hide ListenNext, AnswerNext, Inv, Goodbye, PeerConn, ClearBit, ConnAt;
    InvSized(st);
    if Releasing(st.srv.pc) {
      OwnerId(st);
    }
    ReleaseSlot(st, reply, 1);
    var st' := ServerNext(st, reply);
    forall s | 1 <= s <= MAX_CLIENTS ensures ConnAt(st', s) {
      ReleaseSlot(st, reply, s);
    }
  }

  lemma InvSized(st: State)
    requires Inv(st)
    ensures Sized(st)
  {
  }

  lemma ServerConn(st: State, reply: int)
    requires Inv(st) && ConnInv(st)
    ensures ConnInv(ServerNext(st, reply))
  {
    hide ClientOk, PosterOk, SlotOk, ConnInv, ServerNext;
    if Listening(st.srv.pc) {
      ListenConn(st, reply);
    } else if Answering(st.srv.pc) {
      AnswerConn(st, reply);
    } else {
      ReleaseConn(st, reply);
    }
  }

  lemma {:induction false} RunConn(st: State, steps: seq<Step>, st': State)
    requires Inv(st) && ConnInv(st) && Run(st, steps, st')
    ensures Inv(st') && ConnInv(st')
    decreases |steps|
  {
    hide ClientOk, ServerOk, PosterOk, SlotOk, ConnInv, ClientNext, ServerNext;
    if steps != [] {
      match steps[0]
      case ClientStep(i, buf) =>
        if i < |st.peers| {
          ClientStepOk(st, i, buf);
          ClientConn(st, i, buf);
        }
        RunConn(Next(st, steps[0]), steps[1..], st');
      case ServerStep(reply) =>
        ServerStepOk(st, reply);
        ServerConn(st, reply);
        RunConn(Next(st, steps[0]), steps[1..], st');
    }
  }
}
