/** Clients and server never lock each other: from every state that a run leads to, every client can get its answer. */
module ShmProgress {
  import opened Masks
  import opened ShmLayout
  import opened ShmProtocol
  import opened ShmSafety
  import opened ShmConnect
  import opened ShmTheorems

  // ---------------------------------------------------------------- what else every state keeps

  /** The lock's holder exists; the mailbox of no client, and that of a client that has gone, show no submission. */
  ghost predicate Clear(st: State) {
    && Sized(st) && (st.lock.Client? ==> st.lock.i < |st.peers|) && !st.boxes[0].submit
    && forall s :: 1 <= s <= MAX_CLIENTS && 0 <= st.owner[s] < |st.peers| && st.peers[st.owner[s]].pc == Gone ==> !st.boxes[s].submit
  }

  ghost predicate Good(st: State) {
    Inv(st) && ConnInv(st) && Clear(st)
  }

  lemma ClaimClear(st: State, i: nat)
    requires Inv(st) && Clear(st) && i < |st.peers|
    ensures Clear(ClaimNext(st, i))
  {
    hide ServerOk, PosterOk, SlotOk, SetBit, FirstFree, ClientOk;
    ClaimTouches(st, i);
    if st.peers[i].pc.ClaimWrite? {
      FreeSlot(st, i);
    }
  }

  /** An access that touches no mailbox and no slot, and after which its client has not gone. */
  lemma ClearKeeps(st: State, st': State, i: nat)
    requires Clear(st) && i < |st.peers| == |st'.peers| && st'.boxes == st.boxes && st'.owner == st.owner
    requires st'.peers == st.peers[i := st'.peers[i]] && st'.peers[i].pc != Gone
    requires st'.lock == st.lock || st'.lock == Nobody || st'.lock == Client(i)
    ensures Clear(st')
  {
  }

  lemma ConnectClear(st: State, i: nat)
    requires Clear(st) && i < |st.peers| && (Unannounced(st.peers[i].pc) || st.peers[i].pc == ConnDone)
    ensures Clear(ConnectNext(st, i))
  {
    hide Clear;
    ClearSized(st);
    ClearKeeps(st, ConnectNext(st, i), i);
  }

  lemma BeginClear(st: State, i: nat, buf: seq<int>)
    requires Clear(st) && i < |st.peers| && st.peers[i].pc == Idle
    ensures Clear(Begin(st, i, buf))
  {
    hide Goodbye;
  }

  lemma AskClear(st: State, i: nat)
    requires Inv(st) && Clear(st) && i < |st.peers|
    ensures Clear(AskNext(st, i))
  {
    hide ServerOk, PosterOk, SlotOk, StageOk;
    assert ClientOk(st, i);
  }

  lemma FillClear(st: State, i: nat)
    requires Clear(st) && i < |st.peers| && Filling(st.peers[i].pc)
    ensures Clear(FillNext(st, i))
  {
    hide Clear;
    ClearSized(st);
    ClearKeeps(st, FillNext(st, i), i);
  }

  lemma EndClear(st: State, i: nat)
    requires Inv(st) && Clear(st) && i < |st.peers|
    ensures Clear(EndNext(st, i))
  {
    hide ServerOk, PosterOk, ClientOk, Goodbye;
    var st' := EndNext(st, i);
    forall s | 1 <= s <= MAX_CLIENTS && 0 <= st'.owner[s] < |st'.peers| && st'.peers[st'.owner[s]].pc == Gone
      ensures !st'.boxes[s].submit
    {
      assert SlotOk(st, s);
    }
  }

  lemma ClientClear(st: State, i: nat, buf: seq<int>)
    requires Inv(st) && Clear(st) && i < |st.peers|
    ensures Clear(ClientNext(st, i, buf))
  {
    hide Inv, Clear, ClaimNext, ConnectNext, Begin, AskNext, FillNext, EndNext;
    ClearSized(st);
    match st.peers[i].pc
    case Start | ClaimRead | ClaimWrite(_) | NoSlot | Dead => ClaimClear(st, i);
    case ConnCheck | ConnUnlock | ConnSpin | ConnLock | ConnWrite | ConnDone => ConnectClear(st, i);
    case Idle => BeginClear(st, i, buf);
    case Lock | Check | Unlock | Spin | Mark => AskClear(st, i);
    case Copy(_) | SetSize | Raise => FillClear(st, i);
    case Release | Await | Read | Gone => EndClear(st, i);
  }

  lemma ClearSized(st: State)
    requires Clear(st)
    ensures Sized(st)
  {
  }

  lemma ListenClear(st: State)
    requires Clear(st)
    ensures Clear(ListenNext(st))
  {
  }

  lemma AnswerClear(st: State, reply: int)
    requires Clear(st)
    ensures Clear(AnswerNext(st, reply))
  {
    hide Goodbye;
  }

  lemma ReleaseClear(st: State)
    requires Clear(st)
    ensures Clear(ReleaseNext(st))
  {
    hide ClearBit;
  }

  lemma ServerClear(st: State, reply: int)
    requires Clear(st)
    ensures Clear(ServerNext(st, reply))
  {
    hide Clear, ListenNext, AnswerNext, ReleaseNext;
    ClearSized(st);
    ListenClear(st);
    AnswerClear(st, reply);
    ReleaseClear(st);
  }

  lemma InitialGood(n: nat, capacity: nat)
    ensures Good(Initial(n, capacity))
  {
    hide Inv, ConnInv;
    InitialOk(n, capacity);
    InitialConn(n, capacity);
  }

  lemma ClientGood(st: State, i: nat, buf: seq<int>)
    requires Good(st) && i < |st.peers|
    ensures Sized(st) && Good(ClientNext(st, i, buf))
  {
    hide Inv, ConnInv, Clear, ClientNext;
    ClearSized(st);
    ClientStepOk(st, i, buf);
    ClientConn(st, i, buf);
    ClientClear(st, i, buf);
  }

  lemma ServerGood(st: State, reply: int)
    requires Good(st)
    ensures Sized(st) && Good(ServerNext(st, reply))
  {
    hide Inv, ConnInv, Clear, ServerNext;
    ClearSized(st);
    ServerStepOk(st, reply);
    ServerConn(st, reply);
    ServerClear(st, reply);
  }

  lemma {:induction false} RunGood(st: State, steps: seq<Step>, st': State)
    requires Good(st) && Sized(st) && Run(st, steps, st')
    ensures Good(st')
    decreases |steps|
  {
    hide Good, ClientNext, ServerNext;
    if steps != [] {
      match steps[0]
      case ClientStep(i, buf) =>
        if i < |st.peers| {
          ClientGood(st, i, buf);
        }
        RunGood(Next(st, steps[0]), steps[1..], st');
      case ServerStep(reply) =>
        ServerGood(st, reply);
        RunGood(Next(st, steps[0]), steps[1..], st');
    }
  }

  // ---------------------------------------------------------------- how far clients have to go

  /** Never rises, until a client begins another submission. */
  function ToGo(pc: Pc): nat {
    match pc
    case Start => 9
    case ClaimRead => 8
    case ClaimWrite(_) => 7
    case ConnCheck | ConnUnlock | ConnSpin | ConnLock => 6
    case ConnWrite => 5
    case ConnDone | Lock | Check | Unlock | Spin => 4
    case Mark | Copy(_) | SetSize | Raise | Release => 3
    case Await => 2
    case NoSlot | Read => 1
    case Idle | Gone | Dead => 0
  }

  function Work(ps: seq<Peer>): nat {
    if ps == [] then 0 else Work(ps[..|ps| - 1]) + ToGo(ps[|ps| - 1].pc)
  }

  lemma {:induction false} WorkUpdate(ps: seq<Peer>, i: nat, c: Peer)
    requires i < |ps|
    ensures Work(ps[i := c]) + ToGo(ps[i].pc) == Work(ps) + ToGo(c.pc)
    decreases |ps|
  {
    hide ToGo;
    var n := |ps| - 1;
    if i < n {
      assert ps[i := c][..n] == ps[..n][i := c];
      WorkUpdate(ps[..n], i, c);
    } else {
      assert ps[i := c][..n] == ps[..n];
    }
  }

  lemma {:induction false} WorkLeft(ps: seq<Peer>) returns (i: nat)
    requires Work(ps) > 0
    ensures i < |ps| && ToGo(ps[i].pc) > 0
    decreases |ps|
  {
    hide ToGo;
    i := |ps| - 1;
    if ToGo(ps[i].pc) == 0 {
      i := WorkLeft(ps[..i]);
    }
  }

  lemma {:induction false} NoWork(ps: seq<Peer>, i: nat)
    requires Work(ps) == 0 && i < |ps|
    ensures ToGo(ps[i].pc) == 0
    decreases |ps|
  {
    hide ToGo;
    if i < |ps| - 1 {
      NoWork(ps[..|ps| - 1], i);
    }
  }

  /** Only client `i` has moved, and not away from its end. */
  predicate Nearer(st: State, st': State, i: nat) {
    && |st'.peers| == |st.peers| && i < |st.peers| && st'.peers == st.peers[i := st'.peers[i]]
    && ToGo(st'.peers[i].pc) <= ToGo(st.peers[i].pc)
  }

  lemma ClaimNearer(st: State, i: nat)
    requires Sized(st) && i < |st.peers|
    ensures Nearer(st, ClaimNext(st, i), i)
  {
    hide FirstFree, SetBit;
  }

  lemma ConnectNearer(st: State, i: nat)
    requires Sized(st) && i < |st.peers|
    ensures Nearer(st, ConnectNext(st, i), i)
  {
  }

  lemma AskNearer(st: State, i: nat)
    requires Sized(st) && i < |st.peers|
    ensures Nearer(st, AskNext(st, i), i)
  {
  }

  lemma FillNearer(st: State, i: nat)
    requires Sized(st) && i < |st.peers|
    ensures Nearer(st, FillNext(st, i), i)
  {
  }

  lemma EndNearer(st: State, i: nat)
    requires Sized(st) && i < |st.peers|
    ensures Nearer(st, EndNext(st, i), i)
  {
    hide Goodbye;
  }

  /** A client that is not between submissions gets no further from its end. */
  lemma OnlyOne(st: State, i: nat)
    requires Sized(st) && i < |st.peers| && st.peers[i].pc != Idle
    ensures Nearer(st, ClientNext(st, i, []), i)
  {
    hide Nearer, ClaimNext, ConnectNext, AskNext, FillNext, EndNext, Begin;
    match st.peers[i].pc
    case Start | ClaimRead | ClaimWrite(_) | NoSlot | Dead => ClaimNearer(st, i);
    case ConnCheck | ConnUnlock | ConnSpin | ConnLock | ConnWrite | ConnDone => ConnectNearer(st, i);
    case Lock | Check | Unlock | Spin | Mark => AskNearer(st, i);
    case Copy(_) | SetSize | Raise => FillNearer(st, i);
    case Release | Await | Read | Gone => EndNearer(st, i);
  }

  /** One access by client `i`. */
  lemma Move(st: State, i: nat) returns (st': State)
    requires Good(st) && Sized(st) && i < |st.peers| && st.peers[i].pc != Idle
    ensures st' == ClientNext(st, i, []) && Good(st') && Sized(st') && Run(st, [ClientStep(i, [])], st')
    ensures |st'.peers| == |st.peers| && st'.peers == st.peers[i := st'.peers[i]]
    ensures Work(st'.peers) + ToGo(st.peers[i].pc) == Work(st.peers) + ToGo(st'.peers[i].pc)
    ensures Work(st'.peers) <= Work(st.peers)
  {
    hide Good, ClientNext, ToGo, Work;
    ClientGood(st, i, []);
    st' := ClientNext(st, i, []);
    GoodSized(st');
    OnlyOne(st, i);
    WorkUpdate(st.peers, i, st'.peers[i]);
    OneStep(st, ClientStep(i, []));
  }

  lemma GoodSized(st: State)
    requires Good(st)
    ensures Sized(st)
  {
    hide Inv, ConnInv;
  }

  lemma OneStep(st: State, step: Step)
    requires Sized(st) && Sized(Next(st, step))
    ensures Run(st, [step], Next(st, step))
  {
    hide Next;
    assert [step][1..] == [];
    assert Run(Next(st, step), [], Next(st, step));
  }

  lemma {:induction false} RunJoin(a: State, s: seq<Step>, b: State, t: seq<Step>, c: State)
    requires Sized(a) && Sized(b) && Run(a, s, b) && Run(b, t, c)
    ensures Run(a, s + t, c)
    decreases |s|
  {
    hide Next;
    if s == [] {
      assert s + t == t;
    } else {
      assert (s + t)[0] == s[0] && (s + t)[1..] == s[1..] + t;
      RunJoin(Next(a, s[0]), s[1..], b, t, c);
    }
  }

  // ---------------------------------------------------------------- the lock is freed

  function InLock(c: Peer): nat {
    match c.pc
    case ClaimRead => 7
    case ClaimWrite(_) => 6
    case ConnCheck => 5
    case ConnWrite => 2
    case Check => |c.buf| + 7
    case Mark => |c.buf| + 6
    case Copy(k) => if k <= |c.buf| then |c.buf| - k + 4 else 4
    case SetSize => 3
    case Raise => 2
    case _ => 1
  }

  lemma HolderMoves(st: State, i: nat)
    requires Inv(st) && i < |st.peers| && st.lock == Client(i)
    ensures InCrit(st.peers[i].pc)
    ensures
      var st' := ClientNext(st, i, []);
      st'.lock == Nobody || (st'.lock == Client(i) && i < |st'.peers| && InLock(st'.peers[i]) < InLock(st.peers[i]))
  {
    hide ServerOk, PosterOk, SlotOk, FirstFree, SetBit, WaitOk, Goodbye;
    assert ClientOk(st, i);
  }

  lemma {:induction false} Unlocks(st: State, i: nat) returns (steps: seq<Step>, st': State)
    requires Good(st) && Sized(st) && i < |st.peers| && st.lock == Client(i)
    ensures Good(st') && Sized(st') && Run(st, steps, st') && st'.lock == Nobody
    ensures |st'.peers| == |st.peers| && Work(st'.peers) <= Work(st.peers)
    decreases InLock(st.peers[i])
  {
    hide Inv, ConnInv, Clear, ClientNext, Work, InLock;
    HolderMoves(st, i);
    var st1 := Move(st, i);
    steps, st' := [ClientStep(i, [])], st1;
    if st1.lock != Nobody {
      var s2;
      s2, st' := Unlocks(st1, i);
      RunJoin(st, steps, st1, s2, st');
      steps := steps + s2;
    }
  }

  // ---------------------------------------------------------------- the server comes to rest

  /** Nothing is submitted or announced, nobody holds the lock, and the server is polling. */
  predicate Resting(st: State) {
    st.srv.pc == Poll && st.connect == 0 && !st.submit && st.lock == Nobody
  }

  function ToRest(st: State): nat {
    var m, s := |st.stage|, st.srv;
    (if st.connect != 0 then 10 else 0) + (if st.submit then m + 20 else 0) +
    match s.pc
    case Process => m + 11
    case ClearBox => m + 10
    case RelLock => m + 9
    case RelWipe => m + 8
    case RelRead => m + 7
    case RelWrite(_) => m + 6
    case RelUnlock => m + 5
    case PollSubmit => if st.submit then m + 3 else m + 4
    case Poll => if st.submit then m + 4 else m + 2
    case Add(_) => m + 1
    case ReadId => m + 2
    case ReadSize => m + 1
    case Take => if |s.exec| <= s.size <= m then s.size - |s.exec| else 0
    case _ => 0
  }

  lemma ServerMoves(st: State)
    requires Inv(st) && ConnInv(st) && !st.lock.Client? && !Resting(st)
    ensures
      var st' := ServerNext(st, 0);
      !st'.lock.Client? && st'.peers == st.peers && ToRest(st') < ToRest(st)
  {
    hide PosterOk, SlotOk, ClientOk, ConnAt, PeerConn, Goodbye, ClearBit, Leaving, Posted;
  }

  lemma {:induction false} Rests(st: State) returns (steps: seq<Step>, st': State)
    requires Good(st) && Sized(st) && !st.lock.Client?
    ensures Good(st') && Sized(st') && Run(st, steps, st') && Resting(st') && st'.peers == st.peers
    decreases ToRest(st)
  {
    hide Inv, ConnInv, Clear, ServerNext, ToRest;
    steps, st' := [], st;
    if !Resting(st) {
      ServerMoves(st);
      ServerGood(st, 0);
      var st1 := ServerNext(st, 0);
      GoodSized(st1);
      OneStep(st, ServerStep(0));
      steps, st' := Rests(st1);
      RunJoin(st, [ServerStep(0)], st1, steps, st');
      steps := [ServerStep(0)] + steps;
    }
  }

  lemma {:induction false} Settles(st: State) returns (steps: seq<Step>, st': State)
    requires Good(st) && Sized(st)
    ensures Good(st') && Sized(st') && Run(st, steps, st') && Resting(st')
    ensures |st'.peers| == |st.peers| && Work(st'.peers) <= Work(st.peers)
  {
    hide Inv, ConnInv, Work, Resting;
    var s1, st1 := [], st;
    if st.lock.Client? {
      s1, st1 := Unlocks(st, st.lock.i);
    }
    var s2;
    s2, st' := Rests(st1);
    RunJoin(st, s1, st1, s2, st');
    steps := s1 + s2;
  }

  // ---------------------------------------------------------------- a client gets ahead

  /** With the server at rest, no mailbox shows a submission. */
  lemma BoxesDown(st: State, i: nat)
    requires Good(st) && Resting(st) && i < |st.peers|
    ensures Sized(st) && !BoxOf(st, st.peers[i].id).submit
  {
    hide ConnInv, StageOk, FilledOk, PosterOk, ServerOk, Goodbye;
    var s := st.peers[i].id;
    if 1 <= s <= MAX_CLIENTS {
      assert SlotOk(st, s);
      var o := st.owner[s];
      if o != -1 {
        assert ClientOk(st, o);
        Unlocked(st, o);
      }
    }
  }

  lemma Unlocked(st: State, i: nat)
    requires Inv(st) && Resting(st) && i < |st.peers|
    ensures !InCrit(st.peers[i].pc)
  {
    hide ServerOk, PosterOk, SlotOk, StageOk, WaitOk;
    assert ClientOk(st, i);
  }

  /** Two accesses of a client that is waiting for the lock. */
  lemma Waits(st: State, i: nat) returns (steps: seq<Step>, st': State)
    requires Good(st) && Sized(st) && i < |st.peers| && Resting(st) && (st.peers[i].pc == Lock || st.peers[i].pc == ConnLock)
    ensures Good(st') && Sized(st') && Run(st, steps, st') && |st'.peers| == |st.peers| && Work(st'.peers) < Work(st.peers)
  {
    hide Inv, ConnInv, Clear, Work;
    var st1 := Move(st, i);
    st' := Move(st1, i);
    RunJoin(st, [ClientStep(i, [])], st1, [ClientStep(i, [])], st');
    steps := [ClientStep(i, [])] + [ClientStep(i, [])];
  }

  /** With the server at rest, every client that is not done can get nearer to its end. */
  lemma GetsAhead(st: State, i: nat) returns (steps: seq<Step>, st': State)
    requires Good(st) && Sized(st) && i < |st.peers| && Resting(st) && ToGo(st.peers[i].pc) > 0
    ensures Good(st') && Sized(st') && Run(st, steps, st') && |st'.peers| == |st.peers| && Work(st'.peers) < Work(st.peers)
  {
    hide Inv, ConnInv, Clear, Work, Goodbye;
    BoxesDown(st, i);
    NotLocked(st, i);
    var pc := st.peers[i].pc;
    if pc == Lock || pc == ConnLock {
      steps, st' := Waits(st, i);
    } else {
      var st1 := Move(st, i);
      steps, st' := [ClientStep(i, [])], st1;
      if pc == Spin || pc == ConnSpin {
        var s2;
        s2, st' := Waits(st1, i);
        RunJoin(st, steps, st1, s2, st');
        steps := steps + s2;
      }
    }
  }

  lemma NotLocked(st: State, i: nat)
    requires Good(st) && Resting(st) && i < |st.peers|
    ensures !InCrit(st.peers[i].pc)
  {
    hide Inv, ConnInv, Clear, InCrit;
    Unlocked(st, i);
  }

  lemma {:induction false} Done(st: State) returns (steps: seq<Step>, st': State)
    requires Good(st) && Sized(st) && Resting(st)
    ensures Good(st') && Sized(st') && Run(st, steps, st') && Resting(st') && |st'.peers| == |st.peers| && Work(st'.peers) == 0
    decreases Work(st.peers)
  {
    hide Good, Work, Resting, ToGo;
    steps, st' := [], st;
    if Work(st.peers) > 0 {
      var i := WorkLeft(st.peers);
      var s1, st1 := GetsAhead(st, i);
      var s2, st2 := Settles(st1);
      RunJoin(st, s1, st1, s2, st2);
      var s3;
      s3, st' := Done(st2);
      RunJoin(st, s1 + s2, st2, s3, st');
      steps := s1 + s2 + s3;
    }
  }

  /** From every state that a run leads to, some continuation answers every submission and ends every connection that has
      begun: each client is between submissions, has left, or has found no slot; SUBMIT and CONNECT are down, the lock is free,
      and the server polls. */
  lemma NeverLocked(n: nat, capacity: nat, steps: seq<Step>, st: State) returns (more: seq<Step>, st': State)
    requires Run(Initial(n, capacity), steps, st)
    ensures Sized(st) && Run(st, more, st') && |st'.peers| == |st.peers|
    ensures forall i :: 0 <= i < |st'.peers| ==> st'.peers[i].pc == Idle || st'.peers[i].pc == Gone || st'.peers[i].pc == Dead
    ensures st'.srv.pc == Poll && st'.connect == 0 && !st'.submit && st'.lock == Nobody
  {
    hide Run, Good, Work;
    InitialGood(n, capacity);
    RunGood(Initial(n, capacity), steps, st);
    GoodSized(st);
    var s1, st1 := Settles(st);
    var s2;
    s2, st' := Done(st1);
    RunJoin(st, s1, st1, s2, st');
    more := s1 + s2;
    forall i | 0 <= i < |st'.peers| ensures st'.peers[i].pc == Idle || st'.peers[i].pc == Gone || st'.peers[i].pc == Dead {
      NoWork(st'.peers, i);
    }
  }
}
