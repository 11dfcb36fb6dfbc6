/** What every interleaving keeps: one lock holder, distinct slots, a stage that only its poster has written,
    and mailboxes that answer their own client. */
module ShmSafety {
  import opened Masks
  import opened ShmLayout
  import opened ShmProtocol

  // ---------------------------------------------------------------- the invariant

  /** Between `spin_lock` and `spin_unlock` */
  predicate InCrit(pc: Pc) {
    match pc
    case ClaimRead | ClaimWrite(_) | NoSlot | ConnCheck | ConnUnlock | ConnWrite | ConnDone => true
    case Check | Unlock | Mark | Copy(_) | SetSize | Raise | Release => true
    case _ => false
  }

  predicate Unclaimed(pc: Pc) {
    pc == Start || pc == ClaimRead || pc.ClaimWrite? || pc == NoSlot || pc == Dead
  }

  predicate Leaving(c: Peer) {
    c.buf == Goodbye(c.id)
  }

  /** The client counts on its slot; one that waits for its goodbye to be served may have lost it. */
  predicate Slotted(c: Peer) {
    !Unclaimed(c.pc) && c.pc != Gone && !(c.pc == Await && Leaving(c))
  }

  /** No submission of the client is under way. */
  predicate Quiet(pc: Pc) {
    match pc
    case ConnCheck | ConnUnlock | ConnSpin | ConnLock | ConnWrite | ConnDone => true
    case Idle | Lock | Check | Unlock | Spin | Mark => true
    case _ => false
  }

  /** The client is filling the stage. */
  predicate Filling(pc: Pc) {
    pc.Copy? || pc == SetSize || pc == Raise
  }

  predicate Posted(pc: Pc) {
    pc == Release || pc == Await
  }

  predicate Submitting(pc: Pc) {
    pc == Lock || pc == Check || pc == Unlock || pc == Spin || pc == Mark || Filling(pc) || Posted(pc) || pc == Read
  }

  predicate Owns(st: State, i: nat)
    requires Sized(st) && i < |st.peers|
  {
    1 <= st.peers[i].id <= MAX_CLIENTS && st.owner[st.peers[i].id] == i
  }

  predicate Serving(st: State, i: nat) {
    (st.srv.pc == Process || st.srv.pc == ClearBox) && st.srv.who == i
  }

  /** The submission waits to be taken, is being served, or has been answered. */
  predicate WaitOk(c: Peer, b: Box, raised: bool, processing: bool, clearing: bool) {
    if raised then b.submit && b.served == c.done && !processing && !clearing
    else if processing then b.submit && b.served == c.done
    else if clearing then b.submit && b.served == c.done + [Exchange(c.buf, b.reply)]
    else !b.submit && (Leaving(c) || b.served == c.done + [Exchange(c.buf, b.reply)])
  }

  /** As much of the stage as the client has filled is its buffer. */
  predicate FilledOk(c: Peer, stage: seq<int>, stageId: nat, stageSize: nat) {
    match c.pc
    case Copy(k) => k <= |c.buf| <= |stage| && stage[..k] == c.buf[..k]
    case SetSize => |c.buf| <= |stage| && stage[..|c.buf|] == c.buf && stageId == c.id
    case Raise => |c.buf| <= |stage| && stage[..|c.buf|] == c.buf && stageId == c.id && stageSize == |c.buf|
    case _ => true
  }

  /** A client's part of the lock, its slot, and its mailbox `b`. */
  predicate MailOk(c: Peer, b: Box, holds: bool, owns: bool, raised: bool, processing: bool, clearing: bool) {
    && (InCrit(c.pc) <==> holds)
    && (Unclaimed(c.pc) ==> c.id == 0)
    && (Slotted(c) ==> owns)
    && (Quiet(c.pc) ==> !b.submit && b.served == c.done)
    && (Filling(c.pc) ==> b.submit && b.served == c.done)
    && (Posted(c.pc) && owns ==> WaitOk(c, b, raised, processing, clearing))
    && (c.pc == Read ==> !b.submit && b.served == c.done + [Exchange(c.buf, b.reply)])
  }

  /** A client's part of the registers and the stage. */
  predicate StageOk(c: Peer, mask: nat, submit: bool, stage: seq<int>, stageId: nat, stageSize: nat) {
    && (c.pc.ClaimWrite? ==> c.pc.seen == mask)
    && (Filling(c.pc) || c.pc == Mark ==> !submit)
    && FilledOk(c, stage, stageId, stageSize)
    && (Submitting(c.pc) ==> |c.buf| <= |stage|)
  }

  predicate MailAt(st: State, i: nat)
    requires Sized(st) && i < |st.peers|
  {
    MailOk(st.peers[i], BoxOf(st, st.peers[i].id), st.lock == Client(i), Owns(st, i), st.submit && st.poster == i,
           st.srv.pc == Process && st.srv.who == i, st.srv.pc == ClearBox && st.srv.who == i)
  }

  predicate StageAt(st: State, i: nat)
    requires i < |st.peers|
  {
    StageOk(st.peers[i], st.mask, st.submit, st.stage, st.stageId, st.stageSize)
  }

  predicate ClientOk(st: State, i: nat)
    requires Sized(st) && i < |st.peers|
  {
    MailAt(st, i) && StageAt(st, i)
  }

  predicate SrvCrit(pc: SrvPc) {
    pc == RelWipe || pc == RelRead || pc.RelWrite? || pc == RelUnlock
  }

  predicate Releasing(pc: SrvPc) {
    pc == RelLock || pc == RelWipe || pc == RelRead || pc.RelWrite?
  }

  predicate ServerOk(st: State)
    requires Sized(st)
  {
    var s := st.srv;
    && (SrvCrit(s.pc) <==> st.lock == Server)
    && s.pc != Discard && s.pc != Reject
    && (s.pc == ReadId || s.pc == ReadSize || s.pc == Take ==> st.submit)
    && (s.pc == ReadSize || s.pc == Take ==> s.id == st.stageId)
    && (s.pc == Take ==> s.size == st.stageSize && |s.exec| <= s.size <= |st.stage| && s.exec == st.stage[..|s.exec|])
    && (s.pc == Process || s.pc == ClearBox ==>
        s.who < |st.peers| && Owns(st, s.who) && st.peers[s.who].id == s.id && Posted(st.peers[s.who].pc) && s.exec == st.peers[s.who].buf)
    && (Releasing(s.pc) ==>
        && s.who < |st.peers| && Owns(st, s.who) && st.peers[s.who].id == s.id && Leaving(st.peers[s.who])
        && (Posted(st.peers[s.who].pc) || st.peers[s.who].pc == Gone) && !st.boxes[s.id].submit && !(st.submit && st.poster == s.who))
    && (s.pc.RelWrite? ==> s.pc.seen == st.mask)
  }

  /** While SUBMIT is raised, the stage is the complete submission of one client that waits for its answer. */
  predicate PosterOk(st: State)
    requires Sized(st)
  {
    st.submit ==>
      && st.poster < |st.peers| && Owns(st, st.poster) && Posted(st.peers[st.poster].pc)
      && var c := st.peers[st.poster];
         st.stageId == c.id && st.stageSize == |c.buf| <= |st.stage| && st.stage[..|c.buf|] == c.buf
  }

  predicate SlotOk(st: State, s: nat)
    requires Sized(st) && 1 <= s <= MAX_CLIENTS
  {
    && (Taken(st.mask, s) <==> st.owner[s] != -1)
    && if st.owner[s] == -1 then !st.boxes[s].submit
       else 0 <= st.owner[s] < |st.peers| && st.peers[st.owner[s]].id == s
  }

  ghost predicate Inv(st: State) {
    && Sized(st) && ServerOk(st) && PosterOk(st)
    && (forall i :: 0 <= i < |st.peers| ==> ClientOk(st, i))
    && (forall s :: 1 <= s <= MAX_CLIENTS ==> SlotOk(st, s))
  }

  lemma InitialOk(n: nat, capacity: nat)
    ensures Inv(Initial(n, capacity))
  {
    forall s | 1 <= s <= MAX_CLIENTS ensures !Taken(0, s) {
      ZeroBit(s - 1);
    }
  }

  // ---------------------------------------------------------------- steps of a client

  /** What a client's step may touch: its own mailbox and slot; the stage only while it holds the lock and SUBMIT is down. */
  predicate Touches(st: State, st': State, i: nat)
    requires Sized(st) && Sized(st') && i < |st.peers|
  {
    && |st'.peers| == |st.peers| && |st'.stage| == |st.stage| && st'.srv == st.srv
    && (forall j :: 0 <= j < |st.peers| && j != i ==> st'.peers[j] == st.peers[j])
    && (st'.lock == st.lock || (st.lock == Nobody && st'.lock == Client(i)) || (st.lock == Client(i) && st'.lock == Nobody))
    && (st.lock == Client(i) || (st'.stage == st.stage && st'.stageId == st.stageId && st'.stageSize == st.stageSize
                                 && st'.submit == st.submit && st'.mask == st.mask))
    && ((st'.submit == st.submit && st'.poster == st.poster) || (!st.submit && st'.submit && st'.poster == i))
    && var id := st'.peers[i].id;
       && (forall s :: 0 <= s <= MAX_CLIENTS && s != id ==> st'.boxes[s] == st.boxes[s] && st'.owner[s] == st.owner[s])
       && (id <= MAX_CLIENTS ==>
             ((st.owner[id] == i || st.owner[id] == -1) && st'.owner[id] == i)
             || (st'.boxes[id] == st.boxes[id] && st'.owner[id] == st.owner[id]))
  }

  /** Without its slot, a client does not care what is in the mailbox. */
  lemma UnslottedMail(c: Peer, b: Box, b': Box, holds: bool, raised: bool, processing: bool, clearing: bool, raised': bool, processing': bool, clearing': bool)
    requires MailOk(c, b, holds, false, raised, processing, clearing)
    ensures MailOk(c, b', holds, false, raised', processing', clearing')
  {
  }

  /** Outside the lock, a client does not care about the mask and the stage. */
  lemma OutsideStage(c: Peer, mask: nat, submit: bool, stage: seq<int>, stageId: nat, stageSize: nat,
                     mask': nat, submit': bool, stage': seq<int>, stageId': nat, stageSize': nat)
    requires StageOk(c, mask, submit, stage, stageId, stageSize) && !InCrit(c.pc) && |stage'| == |stage|
    ensures StageOk(c, mask', submit', stage', stageId', stageSize')
  {
  }

  /** Such a step leaves the other clients' part of the invariant alone. */
  lemma OthersKeep(st: State, st': State, i: nat, j: nat)
    requires Sized(st) && Sized(st') && i < |st.peers| && Touches(st, st', i)
    requires j < |st.peers| && j != i && ClientOk(st, j)
    ensures ClientOk(st', j)
  {
    hide StageOk, WaitOk, Unclaimed, Quiet, Filling, Posted, Leaving, InCrit;
    var c := st.peers[j];
    assert st'.peers[j] == c;
    if !Owns(st, j) {
      assert !Owns(st', j);
      UnslottedMail(c, BoxOf(st, c.id), BoxOf(st', c.id), st.lock == Client(j), st.submit && st.poster == j,
                    st.srv.pc == Process && st.srv.who == j, st.srv.pc == ClearBox && st.srv.who == j,
                    st'.submit && st'.poster == j, st.srv.pc == Process && st.srv.who == j, st.srv.pc == ClearBox && st.srv.who == j);
    }
    if st.lock == Client(i) {
      OutsideStage(c, st.mask, st.submit, st.stage, st.stageId, st.stageSize, st'.mask, st'.submit, st'.stage, st'.stageId, st'.stageSize);
    }
  }

  lemma FreeSlot(st: State, i: nat)
    requires Inv(st) && i < |st.peers| && st.peers[i].pc.ClaimWrite?
    ensures
      var s := FirstFree(st.mask, 1, MAX_CLIENTS);
      s <= MAX_CLIENTS && (s != 0 ==> st.owner[s] == -1 && !st.boxes[s].submit)
    ensures st.peers[i].pc.seen == st.mask && st.lock == Client(i) && st.peers[i].id == 0
  {
    hide Taken, FirstFree, ServerOk, PosterOk;
    FirstFreeIs(st.mask, 1, MAX_CLIENTS);
    assert ClientOk(st, i);
    var s := FirstFree(st.mask, 1, MAX_CLIENTS);
    if s != 0 {
      assert SlotOk(st, s);
    }
  }

  lemma ClaimTouches(st: State, i: nat)
    requires Inv(st) && i < |st.peers|
    ensures Sized(ClaimNext(st, i)) && |ClaimNext(st, i).peers| == |st.peers| && Touches(st, ClaimNext(st, i), i)
  {
    hide ServerOk, PosterOk, SlotOk, FirstFree, Goodbye, SetBit, WaitOk, FilledOk;
    assert ClientOk(st, i);
    if st.peers[i].pc.ClaimWrite? {
      FreeSlot(st, i);
    }
  }

  lemma ClaimMail(st: State, i: nat)
    requires Inv(st) && i < |st.peers| && Sized(ClaimNext(st, i)) && i < |ClaimNext(st, i).peers|
    ensures MailAt(ClaimNext(st, i), i)
  {
    hide ServerOk, PosterOk, SlotOk, FirstFree, Goodbye, SetBit, StageOk;
    assert ClientOk(st, i);
    if st.peers[i].pc.ClaimWrite? {
      FreeSlot(st, i);
    }
  }

  lemma ClaimStage(st: State, i: nat)
    requires Inv(st) && i < |st.peers| && Sized(ClaimNext(st, i)) && i < |ClaimNext(st, i).peers|
    ensures StageAt(ClaimNext(st, i), i)
  {
    hide ServerOk, PosterOk, SlotOk, FirstFree, Goodbye, SetBit, MailOk, Owns;
    assert ClientOk(st, i);
    if st.peers[i].pc.ClaimWrite? {
      FreeSlot(st, i);
    }
  }

  lemma ClaimShared(st: State, i: nat)
    requires Inv(st) && i < |st.peers| && Sized(ClaimNext(st, i))
    ensures ServerOk(ClaimNext(st, i)) && PosterOk(ClaimNext(st, i))
  {
    hide FirstFree, Goodbye, SetBit, Taken, SlotOk;
    assert ClientOk(st, i);
    if st.peers[i].pc.ClaimWrite? {
      FreeSlot(st, i);
    }
  }

  lemma ClaimSlots(st: State, i: nat)
    requires Inv(st) && i < |st.peers| && Sized(ClaimNext(st, i))
    ensures forall s :: 1 <= s <= MAX_CLIENTS ==> SlotOk(ClaimNext(st, i), s)
  {
    hide FirstFree, SetBit, Taken, ServerOk, PosterOk, ClientOk;
    var st' := ClaimNext(st, i);
    forall s | 1 <= s <= MAX_CLIENTS ensures SlotOk(st', s) {
      assert SlotOk(st, s);
      if st.peers[i].pc.ClaimWrite? {
        FreeSlot(st, i);
        var t := FirstFree(st.mask, 1, MAX_CLIENTS);
        if t != 0 {
          ClaimAndRelease(st.mask, t, s);
        }
      }
    }
  }

  lemma ConnectTouches(st: State, i: nat)
    requires Inv(st) && i < |st.peers|
    ensures Sized(ConnectNext(st, i)) && |ConnectNext(st, i).peers| == |st.peers| && Touches(st, ConnectNext(st, i), i)
  {
    hide ServerOk, PosterOk, SlotOk, FirstFree, Goodbye, SetBit, WaitOk, FilledOk;
    assert ClientOk(st, i);
  }

  lemma ConnectMail(st: State, i: nat)
    requires Inv(st) && i < |st.peers| && Sized(ConnectNext(st, i)) && i < |ConnectNext(st, i).peers|
    ensures MailAt(ConnectNext(st, i), i)
  {
    hide ServerOk, PosterOk, SlotOk, FirstFree, Goodbye, SetBit, StageOk;
    assert ClientOk(st, i);
  }

  lemma ConnectStage(st: State, i: nat)
    requires Inv(st) && i < |st.peers| && Sized(ConnectNext(st, i)) && i < |ConnectNext(st, i).peers|
    ensures StageAt(ConnectNext(st, i), i)
  {
    hide ServerOk, PosterOk, SlotOk, FirstFree, Goodbye, SetBit, MailOk, Owns;
    assert ClientOk(st, i);
  }

  /** A step that changes only the lock, CONNECT, and a client that waits for nothing. */
  lemma QuietShared(st: State, st': State, i: nat)
    requires Inv(st) && i < |st.peers| && !Posted(st.peers[i].pc) && st.peers[i].pc != Gone
    requires st' == st.(peers := st'.peers, lock := st'.lock, connect := st'.connect) && |st'.peers| == |st.peers|
    requires forall j :: 0 <= j < |st.peers| && j != i ==> st'.peers[j] == st.peers[j]
    requires st'.lock == Server <==> st.lock == Server
    ensures Sized(st') && ServerOk(st') && PosterOk(st')
  {
    hide ClientOk, SlotOk, Goodbye, Posted, Leaving, SrvCrit, Releasing;
  }

  lemma ConnectShared(st: State, i: nat)
    requires Inv(st) && i < |st.peers| && Sized(ConnectNext(st, i))
    ensures ServerOk(ConnectNext(st, i)) && PosterOk(ConnectNext(st, i))
  {
    hide ServerOk, PosterOk, SlotOk, StageOk, WaitOk;
    if ConnectNext(st, i) != st {
      assert ClientOk(st, i);
      QuietShared(st, ConnectNext(st, i), i);
    }
  }

  lemma ConnectSlots(st: State, i: nat)
    requires Inv(st) && i < |st.peers| && Sized(ConnectNext(st, i))
    ensures forall s :: 1 <= s <= MAX_CLIENTS ==> SlotOk(ConnectNext(st, i), s)
  {
    hide FirstFree, Goodbye, SetBit, Taken, ServerOk, PosterOk, WaitOk, FilledOk;
    var st' := ConnectNext(st, i);
    assert ClientOk(st, i);
    forall s | 1 <= s <= MAX_CLIENTS ensures SlotOk(st', s) {
      assert SlotOk(st, s);
    }
  }

  lemma BeginTouches(st: State, i: nat, buf: seq<int>)
    requires Inv(st) && i < |st.peers| && st.peers[i].pc == Idle
    ensures Sized(Begin(st, i, buf)) && |Begin(st, i, buf).peers| == |st.peers| && Touches(st, Begin(st, i, buf), i)
  {
    hide ServerOk, PosterOk, SlotOk, FirstFree, Goodbye, SetBit, WaitOk, FilledOk;
    assert ClientOk(st, i);
  }

  lemma BeginMail(st: State, i: nat, buf: seq<int>)
    requires Inv(st) && i < |st.peers| && st.peers[i].pc == Idle && Sized(Begin(st, i, buf)) && i < |Begin(st, i, buf).peers|
    ensures MailAt(Begin(st, i, buf), i)
  {
    hide ServerOk, PosterOk, SlotOk, FirstFree, Goodbye, SetBit, StageOk;
    assert ClientOk(st, i);
  }

  lemma BeginStage(st: State, i: nat, buf: seq<int>)
    requires Inv(st) && i < |st.peers| && st.peers[i].pc == Idle && Sized(Begin(st, i, buf)) && i < |Begin(st, i, buf).peers|
    ensures StageAt(Begin(st, i, buf), i)
  {
    hide ServerOk, PosterOk, SlotOk, FirstFree, Goodbye, SetBit, MailOk, Owns;
    assert ClientOk(st, i);
  }

  lemma BeginShared(st: State, i: nat, buf: seq<int>)
    requires Inv(st) && i < |st.peers| && st.peers[i].pc == Idle && Sized(Begin(st, i, buf))
    ensures ServerOk(Begin(st, i, buf)) && PosterOk(Begin(st, i, buf))
  {
    hide FirstFree, Goodbye, SetBit, Taken, SlotOk;
    assert ClientOk(st, i);
  }

  lemma BeginSlots(st: State, i: nat, buf: seq<int>)
    requires Inv(st) && i < |st.peers| && st.peers[i].pc == Idle && Sized(Begin(st, i, buf))
    ensures forall s :: 1 <= s <= MAX_CLIENTS ==> SlotOk(Begin(st, i, buf), s)
  {
    hide FirstFree, Goodbye, SetBit, Taken, ServerOk, PosterOk, WaitOk, FilledOk;
    var st' := Begin(st, i, buf);
    assert ClientOk(st, i);
    forall s | 1 <= s <= MAX_CLIENTS ensures SlotOk(st', s) {
      assert SlotOk(st, s);
    }
  }

  lemma AskTouches(st: State, i: nat)
    requires Inv(st) && i < |st.peers|
    ensures Sized(AskNext(st, i)) && |AskNext(st, i).peers| == |st.peers| && Touches(st, AskNext(st, i), i)
  {
    hide ServerOk, PosterOk, SlotOk, FirstFree, Goodbye, SetBit, WaitOk, FilledOk;
    assert ClientOk(st, i);
  }

  lemma AskMail(st: State, i: nat)
    requires Inv(st) && i < |st.peers| && Sized(AskNext(st, i)) && i < |AskNext(st, i).peers|
    ensures MailAt(AskNext(st, i), i)
  {
    hide ServerOk, PosterOk, SlotOk, FirstFree, Goodbye, SetBit, StageOk;
    assert ClientOk(st, i);
  }

  lemma AskStage(st: State, i: nat)
    requires Inv(st) && i < |st.peers| && Sized(AskNext(st, i)) && i < |AskNext(st, i).peers|
    ensures StageAt(AskNext(st, i), i)
  {
    hide ServerOk, PosterOk, SlotOk, FirstFree, Goodbye, SetBit, MailOk, Owns;
    assert ClientOk(st, i);
  }

  lemma AskShared(st: State, i: nat)
    requires Inv(st) && i < |st.peers| && Sized(AskNext(st, i))
    ensures ServerOk(AskNext(st, i)) && PosterOk(AskNext(st, i))
  {
    hide FirstFree, Goodbye, SetBit, Taken, SlotOk;
    assert ClientOk(st, i);
  }

  lemma AskSlots(st: State, i: nat)
    requires Inv(st) && i < |st.peers| && Sized(AskNext(st, i))
    ensures forall s :: 1 <= s <= MAX_CLIENTS ==> SlotOk(AskNext(st, i), s)
  {
    hide FirstFree, Goodbye, SetBit, Taken, ServerOk, PosterOk, WaitOk, FilledOk;
    var st' := AskNext(st, i);
    assert ClientOk(st, i);
    forall s | 1 <= s <= MAX_CLIENTS ensures SlotOk(st', s) {
      assert SlotOk(st, s);
    }
  }

  lemma FillTouches(st: State, i: nat)
    requires Inv(st) && i < |st.peers|
    ensures Sized(FillNext(st, i)) && |FillNext(st, i).peers| == |st.peers| && Touches(st, FillNext(st, i), i)
  {
    hide ServerOk, PosterOk, SlotOk, FirstFree, Goodbye, SetBit, WaitOk, FilledOk;
    assert ClientOk(st, i);
  }

  lemma FillOne(stage: seq<int>, buf: seq<int>, k: nat)
    requires k < |buf| <= |stage| && stage[..k] == buf[..k]
    ensures stage[k := buf[k]][..k + 1] == buf[..k + 1]
  {
  }

  lemma FillSelf(st: State, i: nat)
    requires Inv(st) && i < |st.peers| && Filling(st.peers[i].pc)
    ensures |FillNext(st, i).peers| == |st.peers| && Sized(FillNext(st, i)) && ClientOk(FillNext(st, i), i)
  {
    hide ClientOk, Inv;
    if st.peers[i].pc.Copy? {
      CopySelf(st, i);
    } else if st.peers[i].pc.SetSize? {
      SetSizeSelf(st, i);
    } else {
      RaiseSelf(st, i);
    }
  }

  lemma CopySelf(st: State, i: nat)
    requires Inv(st) && i < |st.peers| && st.peers[i].pc.Copy?
    ensures |FillNext(st, i).peers| == |st.peers| && Sized(FillNext(st, i)) && ClientOk(FillNext(st, i), i)
  {
    hide ServerOk, PosterOk, SlotOk, Goodbye, WaitOk;
    assert ClientOk(st, i);
    var c := st.peers[i];
    assert c.buf[..|c.buf|] == c.buf;
    if c.pc.k < |c.buf| {
      FillOne(st.stage, c.buf, c.pc.k);
    }
  }

  lemma SetSizeSelf(st: State, i: nat)
    requires Inv(st) && i < |st.peers| && st.peers[i].pc.SetSize?
    ensures |FillNext(st, i).peers| == |st.peers| && Sized(FillNext(st, i)) && ClientOk(FillNext(st, i), i)
  {
    hide ServerOk, PosterOk, SlotOk, Goodbye, WaitOk;
    assert ClientOk(st, i);
  }

  lemma RaiseSelf(st: State, i: nat)
    requires Inv(st) && i < |st.peers| && st.peers[i].pc.Raise?
    ensures |FillNext(st, i).peers| == |st.peers| && Sized(FillNext(st, i)) && ClientOk(FillNext(st, i), i)
  {
    hide PosterOk, SlotOk, Goodbye;
    assert ClientOk(st, i);
    assert !Serving(st, i);
  }

  lemma FillShared(st: State, i: nat)
    requires Inv(st) && i < |st.peers| && Sized(FillNext(st, i))
    ensures ServerOk(FillNext(st, i)) && PosterOk(FillNext(st, i))
  {
    hide FirstFree, Goodbye, SetBit, Taken, SlotOk;
    assert ClientOk(st, i);
  }

  lemma FillSlots(st: State, i: nat)
    requires Inv(st) && i < |st.peers| && Sized(FillNext(st, i))
    ensures forall s :: 1 <= s <= MAX_CLIENTS ==> SlotOk(FillNext(st, i), s)
  {
    hide FirstFree, Goodbye, SetBit, Taken, ServerOk, PosterOk, WaitOk, FilledOk;
    var st' := FillNext(st, i);
    assert ClientOk(st, i);
    forall s | 1 <= s <= MAX_CLIENTS ensures SlotOk(st', s) {
      assert SlotOk(st, s);
    }
  }

  lemma EndTouches(st: State, i: nat)
    requires Inv(st) && i < |st.peers|
    ensures Sized(EndNext(st, i)) && |EndNext(st, i).peers| == |st.peers| && Touches(st, EndNext(st, i), i)
  {
    hide ServerOk, PosterOk, SlotOk, FirstFree, Goodbye, SetBit, WaitOk, FilledOk;
    assert ClientOk(st, i);
  }

  lemma EndMail(st: State, i: nat)
    requires Inv(st) && i < |st.peers| && Sized(EndNext(st, i)) && i < |EndNext(st, i).peers|
    ensures MailAt(EndNext(st, i), i)
  {
    hide ServerOk, PosterOk, SlotOk, FirstFree, Goodbye, SetBit, StageOk;
    assert ClientOk(st, i);
  }

  lemma EndStage(st: State, i: nat)
    requires Inv(st) && i < |st.peers| && Sized(EndNext(st, i)) && i < |EndNext(st, i).peers|
    ensures StageAt(EndNext(st, i), i)
  {
    hide ServerOk, PosterOk, SlotOk, FirstFree, Goodbye, SetBit, MailOk, Owns;
    assert ClientOk(st, i);
  }

  lemma EndServer(st: State, i: nat)
    requires Inv(st) && i < |st.peers| && Sized(EndNext(st, i))
    ensures ServerOk(EndNext(st, i))
  {
    hide Goodbye, Taken, SlotOk, PosterOk, FilledOk;
    assert ClientOk(st, i);
  }

  lemma EndPoster(st: State, i: nat)
    requires Inv(st) && i < |st.peers| && Sized(EndNext(st, i))
    ensures PosterOk(EndNext(st, i))
  {
    hide Goodbye, Taken, SlotOk, ServerOk, FilledOk;
    assert ClientOk(st, i);
  }

  lemma EndSlots(st: State, i: nat)
    requires Inv(st) && i < |st.peers| && Sized(EndNext(st, i))
    ensures forall s :: 1 <= s <= MAX_CLIENTS ==> SlotOk(EndNext(st, i), s)
  {
    hide FirstFree, Goodbye, SetBit, Taken, ServerOk, PosterOk, WaitOk, FilledOk;
    var st' := EndNext(st, i);
    assert ClientOk(st, i);
    forall s | 1 <= s <= MAX_CLIENTS ensures SlotOk(st', s) {
      assert SlotOk(st, s);
    }
  }

  /** Every access of a client keeps the invariant. */
  lemma ClientStepOk(st: State, i: nat, buf: seq<int>)
    requires Inv(st) && i < |st.peers|
    ensures Inv(ClientNext(st, i, buf))
  {
    hide MailAt, StageAt, ServerOk, PosterOk, SlotOk, ClaimNext, ConnectNext, Begin, AskNext, FillNext, EndNext, Touches;
    match st.peers[i].pc {
      case Start | ClaimRead | ClaimWrite(_) | NoSlot | Dead =>
        ClaimTouches(st, i);
        ClaimMail(st, i);
        ClaimStage(st, i);
        ClaimShared(st, i);
        ClaimSlots(st, i);
      case ConnCheck | ConnUnlock | ConnSpin | ConnLock | ConnWrite | ConnDone =>
        ConnectTouches(st, i);
        ConnectMail(st, i);
        ConnectStage(st, i);
        ConnectShared(st, i);
        ConnectSlots(st, i);
      case Idle =>
        BeginTouches(st, i, buf);
        BeginMail(st, i, buf);
        BeginStage(st, i, buf);
        BeginShared(st, i, buf);
        BeginSlots(st, i, buf);
      case Lock | Check | Unlock | Spin | Mark =>
        AskTouches(st, i);
        AskMail(st, i);
        AskStage(st, i);
        AskShared(st, i);
        AskSlots(st, i);
      case Copy(_) | SetSize | Raise =>
        FillTouches(st, i);
        FillSelf(st, i);
        FillShared(st, i);
        FillSlots(st, i);
      case Release | Await | Read | Gone =>
        EndTouches(st, i);
        EndMail(st, i);
        EndStage(st, i);
        EndServer(st, i);
        EndPoster(st, i);
        EndSlots(st, i);
    }
    var st' := ClientNext(st, i, buf);
    assert ClientOk(st', i);
    TouchesSize(st, st', i);
    forall j | 0 <= j < |st'.peers| ensures ClientOk(st', j) {
      if j != i {
        OthersKeep(st, st', i, j);
      }
    }
  }

  lemma TouchesSize(st: State, st': State, i: nat)
    requires Sized(st) && Sized(st') && i < |st.peers| && Touches(st, st', i)
    ensures |st'.peers| == |st.peers|
  {
  }

  // ---------------------------------------------------------------- steps of the server

  /** A step that does not touch what client `j` owns leaves its part alone. */
  lemma MailFrame(st: State, st': State, j: nat)
    requires Sized(st) && Sized(st') && j < |st.peers| && st'.peers == st.peers && (Owns(st', j) <==> Owns(st, j)) && MailAt(st, j)
    requires st'.lock == Client(j) <==> st.lock == Client(j)
    requires Owns(st, j) ==>
      && BoxOf(st', st.peers[j].id) == BoxOf(st, st.peers[j].id)
      && (st'.submit && st'.poster == j <==> st.submit && st.poster == j)
      && (st'.srv.pc == Process && st'.srv.who == j <==> st.srv.pc == Process && st.srv.who == j)
      && (st'.srv.pc == ClearBox && st'.srv.who == j <==> st.srv.pc == ClearBox && st.srv.who == j)
    ensures MailAt(st', j)
  {
    hide MailOk;
    if !Owns(st, j) {
      var c := st.peers[j];
      UnslottedMail(c, BoxOf(st, c.id), BoxOf(st', c.id), st.lock == Client(j), st.submit && st.poster == j,
                    st.srv.pc == Process && st.srv.who == j, st.srv.pc == ClearBox && st.srv.who == j,
                    st'.submit && st'.poster == j, st'.srv.pc == Process && st'.srv.who == j, st'.srv.pc == ClearBox && st'.srv.who == j);
    }
  }

  lemma StageFrame(st: State, st': State, j: nat)
    requires j < |st.peers| && st'.peers == st.peers && StageAt(st, j)
    requires st'.stage == st.stage && st'.stageId == st.stageId && st'.stageSize == st.stageSize && st'.mask == st.mask && st'.submit == st.submit
    ensures StageAt(st', j)
  {
    hide StageOk;
  }

  predicate Listening(pc: SrvPc) {
    pc == Poll || pc.Add? || pc == PollSubmit || pc == ReadId || pc == ReadSize || pc == Take
  }

  predicate Answering(pc: SrvPc) {
    pc == Process || pc == ClearBox
  }

  lemma ListenClient(st: State, reply: int, j: nat)
    requires Inv(st) && Listening(st.srv.pc) && j < |st.peers| && Sized(ServerNext(st, reply)) && j < |ServerNext(st, reply).peers|
    ensures ClientOk(ServerNext(st, reply), j)
  {
    hide AnswerNext, ReleaseNext, SlotOk, Goodbye, MailOk, StageOk, PosterOk, Posted, Leaving;
    assert ClientOk(st, j);
    if st.srv.pc == Take {
      TakeMail(st, reply, j);
      TakeStage(st, reply, j);
    } else {
      MailFrame(st, ServerNext(st, reply), j);
      StageFrame(st, ServerNext(st, reply), j);
    }
  }

  /** A submission that was raised is now being processed. */
  lemma TakeMail(st: State, reply: int, j: nat)
    requires Inv(st) && st.srv.pc == Take && j < |st.peers| && Sized(ServerNext(st, reply)) && j < |ServerNext(st, reply).peers|
    ensures MailAt(ServerNext(st, reply), j)
  {
    hide AnswerNext, ReleaseNext, SlotOk, Goodbye, StageOk;
    assert ClientOk(st, j);
  }

  lemma TakeStage(st: State, reply: int, j: nat)
    requires Inv(st) && st.srv.pc == Take && j < |st.peers| && j < |ServerNext(st, reply).peers|
    ensures StageAt(ServerNext(st, reply), j)
  {
    hide AnswerNext, ReleaseNext, SlotOk, Goodbye, MailOk, PosterOk;
    assert ClientOk(st, j);
  }

  lemma ListenShared(st: State, reply: int)
    requires Inv(st) && Listening(st.srv.pc)
    ensures Sized(ServerNext(st, reply)) && ServerNext(st, reply).peers == st.peers
    ensures ServerOk(ServerNext(st, reply)) && PosterOk(ServerNext(st, reply))
    ensures forall s :: 1 <= s <= MAX_CLIENTS ==> SlotOk(ServerNext(st, reply), s)
  {
    hide AnswerNext, ReleaseNext, ClientOk, Goodbye, Taken;
    var st' := ServerNext(st, reply);
    if st.srv.pc == Take {
      TakeOne(st.stage, st.srv.exec);
    }
    forall s | 1 <= s <= MAX_CLIENTS ensures SlotOk(st', s) {
      assert SlotOk(st, s);
    }
  }

  lemma TakeOne(stage: seq<int>, exec: seq<int>)
    requires |exec| <= |stage| && exec == stage[..|exec|]
    ensures |exec| < |stage| ==> exec + [stage[|exec|]] == stage[..|exec| + 1]
  {
  }

  /** The client that is being served ... */
  lemma AnswerOwner(st: State, reply: int)
    requires Inv(st) && Answering(st.srv.pc) && Sized(ServerNext(st, reply))
    requires st.srv.who < |ServerNext(st, reply).peers|
    ensures st.srv.who < |st.peers| && ClientOk(ServerNext(st, reply), st.srv.who)
  {
    hide ListenNext, ReleaseNext, SlotOk, PosterOk, Goodbye;
    assert ClientOk(st, st.srv.who);
  }

  /** ... and the others */
  lemma AnswerOther(st: State, reply: int, j: nat)
    requires Inv(st) && Answering(st.srv.pc) && j < |st.peers| && j != st.srv.who
    requires Sized(ServerNext(st, reply)) && j < |ServerNext(st, reply).peers|
    ensures ClientOk(ServerNext(st, reply), j)
  {
    hide ListenNext, ReleaseNext, SlotOk, PosterOk, MailOk, StageOk, Goodbye, Posted, Leaving;
    assert ClientOk(st, j);
    MailFrame(st, ServerNext(st, reply), j);
    StageFrame(st, ServerNext(st, reply), j);
  }

  lemma AnswerClient(st: State, reply: int, j: nat)
    requires Inv(st) && Answering(st.srv.pc) && j < |st.peers| && Sized(ServerNext(st, reply)) && j < |ServerNext(st, reply).peers|
    ensures ClientOk(ServerNext(st, reply), j)
  {
    hide ListenNext, ReleaseNext, Inv, ClientOk, ServerNext, Answering;
    if j == st.srv.who {
      AnswerOwner(st, reply);
    } else {
      AnswerOther(st, reply, j);
    }
  }

  lemma AnswerShared(st: State, reply: int)
    requires Inv(st) && Answering(st.srv.pc)
    ensures Sized(ServerNext(st, reply)) && ServerNext(st, reply).peers == st.peers
    ensures ServerOk(ServerNext(st, reply)) && PosterOk(ServerNext(st, reply))
    ensures forall s :: 1 <= s <= MAX_CLIENTS ==> SlotOk(ServerNext(st, reply), s)
  {
    hide ListenNext, ReleaseNext, Taken;
    var st' := ServerNext(st, reply);
    assert ClientOk(st, st.srv.who);
    forall s | 1 <= s <= MAX_CLIENTS ensures SlotOk(st', s) {
      assert SlotOk(st, s);
    }
  }

  lemma ReleaseClient(st: State, reply: int, j: nat)
    requires Inv(st) && (Releasing(st.srv.pc) || st.srv.pc == RelUnlock) && !st.srv.pc.RelWrite? && !st.srv.pc.RelWipe? && j < |st.peers|
    requires Sized(ServerNext(st, reply)) && j < |ServerNext(st, reply).peers|
    ensures ClientOk(ServerNext(st, reply), j)
  {
    hide ListenNext, AnswerNext, SlotOk, PosterOk, MailOk, StageOk, Goodbye, Posted, Leaving;
    assert ClientOk(st, j);
    MailFrame(st, ServerNext(st, reply), j);
    StageFrame(st, ServerNext(st, reply), j);
  }

  lemma WipeClient(st: State, reply: int, j: nat)
    requires Inv(st) && st.srv.pc.RelWipe? && j < |st.peers|
    requires Sized(ServerNext(st, reply)) && j < |ServerNext(st, reply).peers|
    ensures ClientOk(ServerNext(st, reply), j)
  {
    hide ListenNext, AnswerNext, SlotOk, PosterOk, MailOk, StageOk, Goodbye, Posted, Leaving;
    assert ClientOk(st, j);
    StageFrame(st, ServerNext(st, reply), j);
    if j == st.srv.who {
      WipeOwner(st, reply);
    } else {
      MailFrame(st, ServerNext(st, reply), j);
    }
  }

  lemma WipeOwner(st: State, reply: int)
    requires Inv(st) && st.srv.pc.RelWipe? && Sized(ServerNext(st, reply)) && st.srv.who < |ServerNext(st, reply).peers|
    ensures MailAt(ServerNext(st, reply), st.srv.who)
  {
    hide ListenNext, AnswerNext, SlotOk, PosterOk, StageOk, Goodbye;
    assert ClientOk(st, st.srv.who);
  }

  lemma FreeClient(st: State, reply: int, j: nat)
    requires Inv(st) && st.srv.pc.RelWrite? && j < |st.peers|
    requires Sized(ServerNext(st, reply)) && j < |ServerNext(st, reply).peers|
    ensures ClientOk(ServerNext(st, reply), j)
  {
    hide ListenNext, AnswerNext, SlotOk, PosterOk, MailOk, ClearBit, Goodbye, Posted, Leaving, FilledOk;
    assert ClientOk(st, j);
    FreeOutside(st, j);
    if j == st.srv.who {
      FreeOwner(st, reply);
    } else {
      MailFrame(st, ServerNext(st, reply), j);
    }
    OutsideStage(st.peers[j], st.mask, st.submit, st.stage, st.stageId, st.stageSize,
                 ServerNext(st, reply).mask, st.submit, st.stage, st.stageId, st.stageSize);
  }

  lemma FreeOutside(st: State, j: nat)
    requires Inv(st) && st.srv.pc.RelWrite? && j < |st.peers|
    ensures !InCrit(st.peers[j].pc)
  {
    hide SlotOk, PosterOk, StageOk, WaitOk;
    assert ClientOk(st, j);
  }

  lemma FreeOwner(st: State, reply: int)
    requires Inv(st) && st.srv.pc.RelWrite? && Sized(ServerNext(st, reply)) && st.srv.who < |ServerNext(st, reply).peers|
    ensures MailAt(ServerNext(st, reply), st.srv.who)
  {
    hide ListenNext, AnswerNext, SlotOk, PosterOk, StageOk, Goodbye, ClearBit, WaitOk;
    assert ClientOk(st, st.srv.who);
  }

  lemma ReleaseShared(st: State, reply: int)
    requires Inv(st) && (Releasing(st.srv.pc) || st.srv.pc == RelUnlock)
    ensures Sized(ServerNext(st, reply)) && ServerNext(st, reply).peers == st.peers && ServerOk(ServerNext(st, reply))
  {
    hide ListenNext, AnswerNext, Taken, ClearBit, ClientOk, SlotOk, PosterOk, Goodbye, Posted, Leaving;
  }

  lemma ReleasePoster(st: State, reply: int)
    requires Inv(st) && (Releasing(st.srv.pc) || st.srv.pc == RelUnlock) && Sized(ServerNext(st, reply))
    ensures PosterOk(ServerNext(st, reply))
  {
    hide ListenNext, AnswerNext, Taken, ClearBit, ClientOk, SlotOk, Goodbye;
  }

  lemma ReleaseSlots(st: State, reply: int)
    requires Inv(st) && (Releasing(st.srv.pc) || st.srv.pc == RelUnlock) && Sized(ServerNext(st, reply))
    ensures forall s :: 1 <= s <= MAX_CLIENTS ==> SlotOk(ServerNext(st, reply), s)
  {
    hide ListenNext, AnswerNext, Taken, ClearBit, ClientOk, PosterOk, Leaving, Posted, Owns;
    var st' := ServerNext(st, reply);
    if st.srv.pc.RelWrite? {
      assert 1 <= st.srv.id <= MAX_CLIENTS by {
        OwnerId(st);
      }
      forall s | 1 <= s <= MAX_CLIENTS ensures SlotOk(st', s) {
        FreedSlot(st, reply, s);
      }
    } else {
      forall s | 1 <= s <= MAX_CLIENTS ensures SlotOk(st', s) {
        assert SlotOk(st, s);
      }
    }
  }

  lemma FreedSlot(st: State, reply: int, s: nat)
    requires Inv(st) && st.srv.pc.RelWrite? && 1 <= s <= MAX_CLIENTS && Sized(ServerNext(st, reply)) && 1 <= st.srv.id <= MAX_CLIENTS
    ensures SlotOk(ServerNext(st, reply), s)
  {
    hide ListenNext, AnswerNext, Taken, SetBit, ClearBit, ClientOk, PosterOk, Leaving, Posted, Owns;
    assert SlotOk(st, s);
    ClaimAndRelease(st.mask, st.srv.id, s);
  }

  lemma OwnerId(st: State)
    requires Inv(st) && Releasing(st.srv.pc)
    ensures 1 <= st.srv.id <= MAX_CLIENTS
  {
    hide ClientOk, PosterOk, SlotOk;
  }

  /** Every access of the server keeps the invariant. */
  lemma ServerStepOk(st: State, reply: int)
    requires Inv(st)
    ensures Inv(ServerNext(st, reply))
  {
    hide ClientOk, PosterOk, SlotOk, ServerNext;
    if Listening(st.srv.pc) {
      ListenShared(st, reply);
    } else if Answering(st.srv.pc) {
      AnswerShared(st, reply);
    } else {
      ReleaseShared(st, reply);
      ReleasePoster(st, reply);
      ReleaseSlots(st, reply);
    }
    forall j | 0 <= j < |st.peers| ensures ClientOk(ServerNext(st, reply), j) {
      if Listening(st.srv.pc) {
        ListenClient(st, reply, j);
      } else if Answering(st.srv.pc) {
        AnswerClient(st, reply, j);
      } else if st.srv.pc.RelWrite? {
        FreeClient(st, reply, j);
      } else if st.srv.pc.RelWipe? {
        WipeClient(st, reply, j);
      } else {
        ReleaseClient(st, reply, j);
      }
    }
  }

  // ---------------------------------------------------------------- all runs

  lemma {:induction false} RunOk(st: State, steps: seq<Step>, st': State)
    requires Inv(st) && Run(st, steps, st')
    ensures Inv(st')
    decreases |steps|
  {
    hide ServerOk, PosterOk, ClientOk, SlotOk, ClientNext, ServerNext;
    if steps != [] {
      match steps[0]
      case ClientStep(i, buf) =>
        if i < |st.peers| {
          ClientStepOk(st, i, buf);
        }
        RunOk(Next(st, steps[0]), steps[1..], st');
      case ServerStep(reply) =>
        ServerStepOk(st, reply);
        RunOk(Next(st, steps[0]), steps[1..], st');
    }
  }
}
