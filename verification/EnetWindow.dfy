/** What every step of the sender keeps: the window counters and bits record exactly the unacknowledged commands,
    these lie in seven consecutive windows, and the data in transit is that of the commands in flight. */
module EnetWindow {
  import opened Bits
  import opened EnetSequence
  import opened EnetGate
  import opened Masks
  import opened EnetSend

  // ---------------------------------------------------------------- counting

  function ById(u: nat): OutCmd -> bool {
    (c: OutCmd) => c.id == u
  }

  function ByWindow(w: nat): OutCmd -> bool {
    (c: OutCmd) => Window16(Seq16(c.id)) == w
  }

  function Count(cs: seq<OutCmd>, p: OutCmd -> bool): nat {
    if cs == [] then 0 else Count(cs[..|cs| - 1], p) + if p(cs[|cs| - 1]) then 1 else 0
  }

  lemma {:induction false} CountConcat(a: seq<OutCmd>, b: seq<OutCmd>, p: OutCmd -> bool)
    ensures Count(a + b, p) == Count(a, p) + Count(b, p)
  {
    if b == [] {
      assert a + b == a;
    } else {
      var n := |b| - 1;
      assert (a + b)[..|a + b| - 1] == a + b[..n];
      CountConcat(a, b[..n], p);
    }
  }

  lemma CountNone(cs: seq<OutCmd>, p: OutCmd -> bool)
    requires cs == []
    ensures Count(cs, p) == 0
  {
  }

  lemma CountOne(c: OutCmd, p: OutCmd -> bool)
    ensures Count([c], p) == if p(c) then 1 else 0
  {
    assert [c][..0] == [];
  }

  lemma {:induction false} CountPick(cs: seq<OutCmd>, due: seq<bool>, p: OutCmd -> bool)
    requires |due| == |cs|
    ensures Count(Pick(cs, due, true), p) + Count(Pick(cs, due, false), p) == Count(cs, p)
  {
    if cs != [] {
      var n := |cs| - 1;
      CountPick(cs[..n], due[..n], p);
      CountConcat(Pick(cs[..n], due[..n], due[n]), [cs[n]], p);
      CountOne(cs[n], p);
      assert Pick(cs, due, !due[n]) == Pick(cs[..n], due[..n], !due[n]);
    }
  }

  lemma Around(cs: seq<OutCmd>, k: nat)
    requires k < |cs|
    ensures cs == cs[..k] + [cs[k]] + cs[k + 1..]
  {
  }

  lemma CountRemove(cs: seq<OutCmd>, k: nat, p: OutCmd -> bool)
    requires k < |cs|
    ensures Count(Remove(cs, k), p) + (if p(cs[k]) then 1 else 0) == Count(cs, p)
  {
    hide Count;
    Around(cs, k);
    CountConcat(cs[..k] + [cs[k]], cs[k + 1..], p);
    CountConcat(cs[..k], [cs[k]], p);
    CountOne(cs[k], p);
    CountConcat(cs[..k], cs[k + 1..], p);
  }

  lemma {:induction false} CountFind(cs: seq<OutCmd>, p: OutCmd -> bool) returns (k: nat)
    requires Count(cs, p) > 0
    ensures k < |cs| && p(cs[k])
  {
    k := |cs| - 1;
    if !p(cs[k]) {
      k := CountFind(cs[..k], p);
    }
  }

  lemma {:induction false} CountAt(cs: seq<OutCmd>, k: nat, p: OutCmd -> bool)
    requires k < |cs| && p(cs[k])
    ensures Count(cs, p) > 0
  {
    if k < |cs| - 1 {
      CountAt(cs[..|cs| - 1], k, p);
    }
  }

  lemma {:induction false} SumLenConcat(a: seq<OutCmd>, b: seq<OutCmd>)
    ensures SumLen(a + b) == SumLen(a) + SumLen(b)
  {
    if b == [] {
      assert a + b == a;
    } else {
      var n := |b| - 1;
      assert (a + b)[..|a + b| - 1] == a + b[..n];
      SumLenConcat(a, b[..n]);
    }
  }

  lemma {:induction false} SumLenPick(cs: seq<OutCmd>, due: seq<bool>)
    requires |due| == |cs|
    ensures SumLen(Pick(cs, due, true)) + SumLen(Pick(cs, due, false)) == SumLen(cs)
  {
    if cs != [] {
      var n := |cs| - 1;
      SumLenPick(cs[..n], due[..n]);
      SumLenConcat(Pick(cs[..n], due[..n], due[n]), [cs[n]]);
      assert Pick(cs, due, !due[n]) == Pick(cs[..n], due[..n], !due[n]);
      assert [cs[n]][..0] == [];
    }
  }

  lemma SumLenOne(c: OutCmd)
    ensures SumLen([c]) == c.len
  {
    assert [c][..0] == [];
  }

  lemma SumLenRemove(cs: seq<OutCmd>, k: nat)
    requires k < |cs|
    ensures SumLen(Remove(cs, k)) + cs[k].len == SumLen(cs)
  {
    hide SumLen;
    Around(cs, k);
    SumLenConcat(cs[..k] + [cs[k]], cs[k + 1..]);
    SumLenConcat(cs[..k], [cs[k]]);
    SumLenConcat(cs[..k], cs[k + 1..]);
    SumLenOne(cs[k]);
  }

  // ---------------------------------------------------------------- the invariant

  /** How many commands satisfying `p` have been sent and not acknowledged. */
  function Open(s: Sender, p: OutCmd -> bool): nat {
    Count(s.sent, p) + Count(s.outgoing[..Resends(s.outgoing)], p)
  }

  /** Behind the commands to be sent again, the new ones wait in order. */
  predicate Waiting(cs: seq<OutCmd>, total: nat, next: nat) {
    var m := Resends(cs);
    && next + (|cs| - m) == total
    && forall j :: m <= j < |cs| ==> cs[j].attempts == 0 && cs[j].id == next + 1 + (j - m)
  }

  /** `total` commands have been queued, `next` of them sent at least once. */
  ghost predicate SenderOk(s: Sender, total: nat, next: nat) {
    && |s.windows| == WINDOWS && s.used < Pow2(WINDOWS) && next <= total && s.outSeq == Seq16(total)
    && Waiting(s.outgoing, total, next)
    && (forall j :: 0 <= j < |s.sent| ==> s.sent[j].attempts >= 1)
    && (forall u: nat :: Open(s, ById(u)) <= if 1 <= u <= next then 1 else 0)
    && (forall w: nat :: w < WINDOWS ==> s.windows[w] == Open(s, ByWindow(w)))
    && (forall w: nat :: w < WINDOWS ==> (HasBit(s.used, w) <==> s.windows[w] > 0))
    && (forall u: nat :: Open(s, ById(u)) > 0 ==> Win(u) + 6 >= Win(next))
    && s.inTransit == SumLen(s.sent) <= MAX_WINDOW_SIZE
  }

  lemma InitOk()
    ensures SenderOk(Sender(0, [], [], seq(WINDOWS, _ => 0), 0, 0), 0, 0)
  {
    forall w: nat ensures !HasBit(0, w) {
      ZeroBit(w);
    }
  }

  lemma ResendsNone(cs: seq<OutCmd>)
    requires cs == [] || cs[0].attempts < 1
    ensures Resends(cs) == 0
  {
  }

  lemma {:induction false} ResendsAppend(a: seq<OutCmd>, b: seq<OutCmd>)
    requires forall j :: 0 <= j < |a| ==> a[j].attempts >= 1
    ensures Resends(a + b) == |a| + Resends(b)
  {
    if a == [] {
      assert a + b == b;
    } else {
      assert (a + b)[1..] == a[1..] + b;
      ResendsAppend(a[1..], b);
    }
  }

  lemma {:induction false} ResendsKeep(cs: seq<OutCmd>, c: OutCmd)
    requires c.attempts == 0
    ensures Resends(cs + [c]) == Resends(cs)
  {
    if cs == [] {
    } else {
      assert (cs + [c])[1..] == cs[1..] + [c];
      ResendsKeep(cs[1..], c);
    }
  }

  /** Queueing a command. */
  lemma QueueStep(s: Sender, total: nat, next: nat, len: nat)
    requires SenderOk(s, total, next)
    ensures SenderOk(Queue(s, total + 1, len), total + 1, next)
  {
    hide Count, SumLen, HasBit, Win, Resends, Open, Waiting;
    var s' := Queue(s, total + 1, len);
    QueueLists(s.outgoing, OutCmd(total + 1, len, 0), total, next);
    forall p: OutCmd -> bool ensures Open(s', p) == Open(s, p) {
      QueueOpen(s, total + 1, len, p);
    }
    SeqAdd(total, 1);
  }

  lemma QueueLists(cs: seq<OutCmd>, c: OutCmd, total: nat, next: nat)
    requires Waiting(cs, total, next) && c.attempts == 0 && c.id == total + 1
    ensures Waiting(cs + [c], total + 1, next)
  {
    hide Resends;
    ResendsKeep(cs, c);
  }

  lemma QueueOpen(s: Sender, id: nat, len: nat, p: OutCmd -> bool)
    ensures Open(Queue(s, id, len), p) == Open(s, p)
  {
    hide Resends;
    ResendsKeep(s.outgoing, OutCmd(id, len, 0));
    assert Queue(s, id, len).outgoing[..Resends(s.outgoing)] == s.outgoing[..Resends(s.outgoing)];
  }

  // ---------------------------------------------------------------- sending

  /** The counts when the first waiting command goes out. */
  lemma SendCounts(s: Sender, p: OutCmd -> bool)
    requires s.outgoing != [] && |s.windows| == WINDOWS
    requires p(s.outgoing[0]) <==> p(s.outgoing[0].(attempts := s.outgoing[0].attempts + 1))
    ensures Resends(s.outgoing) > 0 ==> Open(SendFirst(s), p) == Open(s, p)
    ensures Resends(s.outgoing) == 0 && Resends(s.outgoing[1..]) == 0 ==>
      Open(SendFirst(s), p) == Open(s, p) + if p(s.outgoing[0]) then 1 else 0
  {
    hide Count;
    var cs, c := s.outgoing, s.outgoing[0];
    var m := Resends(cs);
    var c' := c.(attempts := c.attempts + 1);
    CountConcat(s.sent, [c'], p);
    CountOne(c', p);
    if m > 0 {
      assert cs[..m] == [c] + cs[1..][..m - 1];
      CountConcat([c], cs[1..][..m - 1], p);
      CountOne(c, p);
    } else {
      CountNone(cs[..0], p);
      CountNone(cs[1..][..0], p);
    }
  }

  lemma WaitingTail(cs: seq<OutCmd>, total: nat, next: nat)
    requires Waiting(cs, total, next) && cs != []
    ensures Resends(cs) > 0 ==> Waiting(cs[1..], total, next) && Resends(cs[1..]) == Resends(cs) - 1
    ensures Resends(cs) == 0 ==> Waiting(cs[1..], total, next + 1) && Resends(cs[1..]) == 0 && cs[0] == OutCmd(next + 1, cs[0].len, 0)
  {
    if Resends(cs) == 0 {
      ResendsNone(cs[1..]);
    }
  }

  /** The window of a new command, modulo sixteen. */
  lemma Window16Win(u: nat)
    ensures Window16(Seq16(u)) == Win(u) % WINDOWS
    ensures Seq16(u) % WINDOW_SIZE == u % WINDOW_SIZE
  {
    WindowSplit(u);
  }

  /** When a new window is opened, all unacknowledged commands are in it or in the six before it. */
  lemma GateKeepsClose(s: Sender, total: nat, next: nat, u: nat)
    requires SenderOk(s, total, next) && s.outgoing != [] && Resends(s.outgoing) == 0 && !Gated(s, s.outgoing[0])
    requires Open(s, ById(u)) > 0
    ensures Win(u) + 6 >= Win(next + 1)
  {
    WaitingTail(s.outgoing, total, next);
    if Win(u) + 6 < Win(next + 1) {
      GateBlocks(s, total, next, u);
    }
  }

  lemma GateBlocks(s: Sender, total: nat, next: nat, u: nat)
    requires SenderOk(s, total, next) && s.outgoing != [] && Open(s, ById(u)) > 0
    requires s.outgoing[0].id == next + 1 && s.outgoing[0].attempts == 0
    requires Win(u) + 6 < Win(next + 1)
    ensures Gated(s, s.outgoing[0])
  {
    hide HasBit, GateMask, Count, SumLen, Waiting, Open, Win, Pow2, Shr, Shl;
    NextWindow(u, next);
    Window16Win(u);
    Window16Win(next + 1);
    var k, w := Win(u) % WINDOWS, Win(next + 1) % WINDOWS;
    OpenWindow(s, u);
    assert HasBit(s.used, k);
    SevenBehind(Win(u));
    GateTest(s.used, w);
  }

  lemma NextWindow(u: nat, next: nat)
    requires Win(next) <= Win(u) + 6 < Win(next + 1)
    ensures Win(next + 1) == Win(u) + 7 && (next + 1) % WINDOW_SIZE == 0
  {
  }

  lemma SevenBehind(a: nat)
    ensures (a % WINDOWS + WINDOWS - (a + 7) % WINDOWS) % WINDOWS == 9
  {
  }

  /** An unacknowledged command is counted in its window. */
  lemma OpenWindow(s: Sender, u: nat)
    requires Open(s, ById(u)) > 0
    ensures Open(s, ByWindow(Window16(Seq16(u)))) > 0
  {
    var w := Window16(Seq16(u));
    var r := s.outgoing[..Resends(s.outgoing)];
    if Count(s.sent, ById(u)) > 0 {
      var k := CountFind(s.sent, ById(u));
      CountAt(s.sent, k, ByWindow(w));
    } else {
      var k := CountFind(r, ById(u));
      CountAt(r, k, ByWindow(w));
    }
  }

  /** A command that was sent before goes out again. */
  lemma ResendOk(s: Sender, total: nat, next: nat, limit: nat)
    requires SenderOk(s, total, next) && CanSend(s, limit) && limit <= MAX_WINDOW_SIZE && Resends(s.outgoing) > 0
    ensures SenderOk(SendFirst(s), total, next)
    ensures forall u: nat :: Open(SendFirst(s), ById(u)) == Open(s, ById(u))
  {
    hide Count, SumLen, HasBit, Win, Open, Gated, Waiting;
    var s' := SendFirst(s);
    WaitingTail(s.outgoing, total, next);
    forall u: nat ensures Open(s', ById(u)) == Open(s, ById(u)) {
      SendCounts(s, ById(u));
    }
    forall w: nat ensures Open(s', ByWindow(w)) == Open(s, ByWindow(w)) {
      SendCounts(s, ByWindow(w));
    }
    SumLenSend(s);
  }

  lemma SumLenSend(s: Sender)
    requires s.outgoing != [] && |s.windows| == WINDOWS
    ensures SumLen(SendFirst(s).sent) == SumLen(s.sent) + s.outgoing[0].len
  {
    var c := s.outgoing[0];
    SumLenConcat(s.sent, [c.(attempts := c.attempts + 1)]);
    assert [c.(attempts := c.attempts + 1)][..0] == [];
  }

  /** The window bits after a command has been added to window `w`. */
  lemma BitsAfterSet(used: nat, w: nat)
    requires used < Pow2(WINDOWS) && w < WINDOWS
    ensures SetBit(used, w) < Pow2(WINDOWS)
    ensures forall k: nat :: HasBit(SetBit(used, w), k) <==> HasBit(used, k) || k == w
  {
    hide HasBit, Pow2, BitOr;
    Pow2Monotone(w, WINDOWS);
    OrBound(used, Pow2(w), WINDOWS);
    forall k: nat ensures HasBit(SetBit(used, w), k) <==> HasBit(used, k) || k == w {
      SetBitBits(used, w, k);
    }
  }

  lemma BitsAfterClear(used: nat, w: nat)
    requires used < Pow2(WINDOWS) && w < WINDOWS
    ensures ClearBit(used, w) < Pow2(WINDOWS)
    ensures forall k: nat :: k < WINDOWS ==> (HasBit(ClearBit(used, w), k) <==> HasBit(used, k) && k != w)
  {
    hide HasBit, Pow2;
    Pow2Monotone(w, 32);
    AndAtMost(used, Pow2(32) - 1 - Pow2(w));
    forall k: nat | k < WINDOWS ensures HasBit(ClearBit(used, w), k) <==> HasBit(used, k) && k != w {
      ClearBitBits(used, w, k);
    }
  }

  /** A new command goes out for the first time. */
  lemma SendNewOk(s: Sender, total: nat, next: nat, limit: nat)
    requires SenderOk(s, total, next) && CanSend(s, limit) && limit <= MAX_WINDOW_SIZE && Resends(s.outgoing) == 0
    ensures SenderOk(SendFirst(s), total, next + 1) && s.outgoing[0].id == next + 1
    ensures forall u: nat :: Open(SendFirst(s), ById(u)) == Open(s, ById(u)) + if u == next + 1 then 1 else 0
  {
    hide Count, SumLen, HasBit, Win, Open, Gated, Waiting, Pow2;
    var s' := SendFirst(s);
    WaitingTail(s.outgoing, total, next);
    var w0 := Window16(Seq16(next + 1));
    forall u: nat ensures Open(s', ById(u)) == Open(s, ById(u)) + if u == next + 1 then 1 else 0 {
      SendCounts(s, ById(u));
    }
    forall w: nat ensures Open(s', ByWindow(w)) == Open(s, ByWindow(w)) + if w == w0 then 1 else 0 {
      SendCounts(s, ByWindow(w));
    }
    forall u: nat | Open(s', ById(u)) > 0 ensures Win(u) + 6 >= Win(next + 1) {
      if u != next + 1 {
        GateKeepsClose(s, total, next, u);
      }
    }
    BitsAfterSet(s.used, w0);
    SumLenSend(s);
    assert Waiting(s'.outgoing, total, next + 1);
    assert next < total by {
      WaitingTotal(s.outgoing, total, next);
    }
  }

  lemma WaitingTotal(cs: seq<OutCmd>, total: nat, next: nat)
    requires Waiting(cs, total, next) && cs != [] && Resends(cs) == 0
    ensures next < total
  {
  }

  // ---------------------------------------------------------------- acknowledgement

  /** An acknowledgement no staler than fifteen windows can only mean one command. */
  lemma OneMeaning(a: nat, u: nat, next: nat)
    requires Seq16(a) == Seq16(u) && a <= next && u <= next
    requires Win(a) + 15 >= Win(next) && Win(u) + 6 >= Win(next)
    ensures a == u
  {
  }

  lemma {:induction false} ResendsRemove(cs: seq<OutCmd>, j: nat)
    requires j < Resends(cs)
    ensures Resends(Remove(cs, j)) == Resends(cs) - 1
    decreases |cs|
  {
    if j == 0 {
      assert Remove(cs, 0) == cs[1..];
    } else {
      ResendsRemove(cs[1..], j - 1);
      RemoveTail(cs, j);
    }
  }

  lemma RemoveTail(cs: seq<OutCmd>, j: nat)
    requires 0 < j < |cs|
    ensures Remove(cs, j) != [] && Remove(cs, j)[0] == cs[0] && Remove(cs, j)[1..] == Remove(cs[1..], j - 1)
  {
  }

  lemma RemoveFront(cs: seq<OutCmd>, j: nat, m: nat)
    requires j < m <= |cs|
    ensures Remove(cs, j)[..m - 1] == Remove(cs[..m], j)
    ensures forall i :: m - 1 <= i < |cs| - 1 ==> Remove(cs, j)[i] == cs[i + 1]
  {
  }

  lemma WaitingRemove(cs: seq<OutCmd>, j: nat, total: nat, next: nat)
    requires Waiting(cs, total, next) && j < Resends(cs)
    ensures Waiting(Remove(cs, j), total, next)
  {
    hide Resends;
    var m, ds := Resends(cs), Remove(cs, j);
    ResendsRemove(cs, j);
    RemoveFront(cs, j, m);
    forall i | m - 1 <= i < |ds| ensures ds[i].attempts == 0 && ds[i].id == next + 1 + (i - (m - 1)) {
      assert ds[i] == cs[i + 1];
    }
  }

  /** The counters after one command of window `w` has gone. */
  lemma ReleaseOk(s: Sender, q: seq16, counts: nat -> nat, counts': nat -> nat)
    requires |s.windows| == WINDOWS && s.used < Pow2(WINDOWS)
    requires forall w: nat :: w < WINDOWS ==> s.windows[w] == counts(w) && (HasBit(s.used, w) <==> s.windows[w] > 0)
    requires forall w: nat :: w < WINDOWS ==> counts'(w) + (if w == Window16(q) then 1 else 0) == counts(w)
    ensures
      var s' := Release(s, q);
      && |s'.windows| == WINDOWS && s'.used < Pow2(WINDOWS) && s'.outSeq == s.outSeq
      && (forall w: nat :: w < WINDOWS ==> s'.windows[w] == counts'(w))
      && (forall w: nat :: w < WINDOWS ==> (HasBit(s'.used, w) <==> s'.windows[w] > 0))
  {
    hide HasBit, Pow2, ClearBit;
    BitsAfterClear(s.used, Window16(q));
  }

  /** Dropping the command in `k` of the commands in flight, or in `j` of those to be sent again. */
  lemma AckCounts(s: Sender, s': Sender, c: OutCmd, p: OutCmd -> bool)
    requires
      || (exists k: nat :: k < |s.sent| && c == s.sent[k] && s'.sent == Remove(s.sent, k) && s'.outgoing == s.outgoing)
      || (exists j: nat :: j < Resends(s.outgoing) && c == s.outgoing[j] && s'.sent == s.sent && s'.outgoing == Remove(s.outgoing, j))
    ensures Open(s', p) + (if p(c) then 1 else 0) == Open(s, p)
  {
    hide Open, Resends, Count, Remove;
    if k: nat :| k < |s.sent| && c == s.sent[k] && s'.sent == Remove(s.sent, k) && s'.outgoing == s.outgoing {
      DropSent(s, s', k, p);
    } else {
      var j: nat :| j < Resends(s.outgoing) && c == s.outgoing[j] && s'.sent == s.sent && s'.outgoing == Remove(s.outgoing, j);
      DropWaiting(s, s', j, p);
    }
  }

  lemma DropSent(s: Sender, s': Sender, k: nat, p: OutCmd -> bool)
    requires k < |s.sent| && s'.sent == Remove(s.sent, k) && s'.outgoing == s.outgoing
    ensures Open(s', p) + (if p(s.sent[k]) then 1 else 0) == Open(s, p)
  {
    hide Resends, Count, Remove;
    CountRemove(s.sent, k, p);
  }

  lemma DropWaiting(s: Sender, s': Sender, j: nat, p: OutCmd -> bool)
    requires j < Resends(s.outgoing) && s'.sent == s.sent && s'.outgoing == Remove(s.outgoing, j)
    ensures Open(s', p) + (if p(s.outgoing[j]) then 1 else 0) == Open(s, p)
  {
    hide Resends, Count, Remove;
    ResendsRemove(s.outgoing, j);
    RemoveFront(s.outgoing, j, Resends(s.outgoing));
    CountRemove(s.outgoing[..Resends(s.outgoing)], j, p);
  }

  /** A command among the unacknowledged ones that carries the number of a fresh acknowledgement is the one meant. */
  lemma AckedIsMeant(s: Sender, total: nat, next: nat, a: nat, c: OutCmd)
    requires SenderOk(s, total, next) && 1 <= a <= next && Win(a) + 15 >= Win(next)
    requires Seq16(c.id) == Seq16(a)
    requires (exists k: nat :: k < |s.sent| && c == s.sent[k]) || (exists j: nat :: j < Resends(s.outgoing) && c == s.outgoing[j])
    ensures c.id == a && Open(s, ById(a)) == 1
  {
    hide HasBit, SumLen, Waiting, Win;
    if k: nat :| k < |s.sent| && c == s.sent[k] {
      CountAt(s.sent, k, ById(c.id));
    } else {
      var j: nat :| j < Resends(s.outgoing) && c == s.outgoing[j];
      CountAt(s.outgoing[..Resends(s.outgoing)], j, ById(c.id));
    }
    assert Open(s, ById(c.id)) > 0;
    OneMeaning(a, c.id, next);
  }

  /** Nobody carries the number of a command that is already acknowledged. */
  lemma NotFound(s: Sender, a: nat)
    requires IndexOf(s.sent, Seq16(a)) == |s.sent| && IndexOf(s.outgoing, Seq16(a)) >= Resends(s.outgoing)
    ensures Open(s, ById(a)) == 0
  {
    var r := s.outgoing[..Resends(s.outgoing)];
    if Count(s.sent, ById(a)) > 0 {
      var k := CountFind(s.sent, ById(a));
    }
    if Count(r, ById(a)) > 0 {
      var k := CountFind(r, ById(a));
    }
  }

  /** A fresh acknowledgement removes exactly the command it names, or nothing if that is already acknowledged. */
  lemma AckOk(s: Sender, total: nat, next: nat, a: nat)
    requires SenderOk(s, total, next) && 1 <= a <= next && Win(a) + 15 >= Win(next)
    ensures SenderOk(Acknowledge(s, Seq16(a)), total, next)
    ensures forall u: nat :: Open(Acknowledge(s, Seq16(a)), ById(u)) == if u == a then 0 else Open(s, ById(u))
  {
    var q := Seq16(a);
    var k, j := IndexOf(s.sent, q), IndexOf(s.outgoing, q);
    if k < |s.sent| {
      AckedIsMeant(s, total, next, a, s.sent[k]);
      SumLenRemove(s.sent, k);
      AckFound(s, Acknowledge(s, q), total, next, a, s.sent[k]);
    } else if j < Resends(s.outgoing) {
      AckedIsMeant(s, total, next, a, s.outgoing[j]);
      WaitingRemove(s.outgoing, j, total, next);
      AckFound(s, Acknowledge(s, q), total, next, a, s.outgoing[j]);
    } else {
      NotFound(s, a);
    }
  }

  lemma AckFound(s: Sender, s': Sender, total: nat, next: nat, a: nat, c: OutCmd)
    requires SenderOk(s, total, next) && c.id == a && Open(s, ById(a)) == 1
    requires s' == Release(s, Seq16(a)).(sent := s'.sent, outgoing := s'.outgoing, inTransit := s'.inTransit)
    requires
      || (exists k: nat :: k < |s.sent| && c == s.sent[k] && s'.sent == Remove(s.sent, k) && s'.outgoing == s.outgoing)
      || (exists j: nat :: j < Resends(s.outgoing) && c == s.outgoing[j] && s'.sent == s.sent && s'.outgoing == Remove(s.outgoing, j))
    requires Waiting(s'.outgoing, total, next) && s'.inTransit == SumLen(s'.sent) <= MAX_WINDOW_SIZE
    ensures SenderOk(s', total, next)
    ensures forall u: nat :: Open(s', ById(u)) == if u == a then 0 else Open(s, ById(u))
  {
    hide HasBit, Count, SumLen, Waiting, Win, Open, Release, Resends;
    forall u: nat ensures Open(s', ById(u)) + (if u == a then 1 else 0) == Open(s, ById(u)) {
      AckCounts(s, s', c, ById(u));
    }
    forall w: nat ensures Open(s', ByWindow(w)) + (if w == Window16(Seq16(a)) then 1 else 0) == Open(s, ByWindow(w)) {
      AckCounts(s, s', c, ByWindow(w));
    }
    forall j | 0 <= j < |s'.sent| ensures s'.sent[j].attempts >= 1 {
      assert s'.sent[j] in s.sent;
    }
    ReleaseOk(s, Seq16(a), w => Open(s, ByWindow(w)), w => Open(s', ByWindow(w)));
  }

  /** Acknowledgements at most `d` windows old are taken for the command they were sent for. */
  ghost predicate AcksMeant(d: nat) {
    forall s: Sender, total: nat, next: nat, a: nat ::
      SenderOk(s, total, next) && 1 <= a <= next && Win(next) <= Win(a) + d ==> AckMeant(s, a)
  }

  /** The acknowledgement closes no command but its own. */
  ghost predicate AckMeant(s: Sender, a: nat)
    requires |s.windows| == WINDOWS
  {
    forall u: nat :: u != a ==> Open(Acknowledge(s, Seq16(a)), ById(u)) == Open(s, ById(u))
  }

  /** That is so exactly up to fifteen windows. */
  lemma FifteenExactly(d: nat)
    ensures AcksMeant(d) <==> d <= 15
  {
    hide Win, Open, SenderOk, Acknowledge, Seq16;
    if d <= 15 {
      forall s: Sender, total: nat, next: nat, a: nat | SenderOk(s, total, next) && 1 <= a <= next && Win(next) <= Win(a) + d
        ensures |s.windows| == WINDOWS && AckMeant(s, a)
      {
        AckOk(s, total, next, a);
        HasWindows(s, total, next);
      }
    } else {
      AroundOnce();
      assert !AckMeant(LAPPED, 1);
    }
  }

  lemma HasWindows(s: Sender, total: nat, next: nat)
    requires SenderOk(s, total, next)
    ensures |s.windows| == WINDOWS
  {
  }

  /** Only command 65537 is unacknowledged: it has the 16-bit number of the first. */
  const LAPPED: Sender := Sender(1, [], [OutCmd(65537, 1, 1)], [1, 0, 0, 0, 0, 0, 0, 0, 0, 0, 0, 0, 0, 0, 0, 0], 1, 1)

  lemma AroundOnce()
    ensures SenderOk(LAPPED, 65537, 65537) && |LAPPED.windows| == WINDOWS && Win(65537) == Win(1) + 16
    ensures Open(LAPPED, ById(65537)) == 1 && Open(Acknowledge(LAPPED, Seq16(1)), ById(65537)) == 0
  {
    hide Acknowledge, Open, SenderOk;
    LappedOk();
    LappedOpen(ById(65537));
    AckOk(LAPPED, 65537, 65537, 65537);
    assert Seq16(65537) == Seq16(1);
  }

  lemma LappedOpen(p: OutCmd -> bool)
    ensures Open(LAPPED, p) == if p(OutCmd(65537, 1, 1)) then 1 else 0
  {
    CountOne(OutCmd(65537, 1, 1), p);
    CountNone(LAPPED.outgoing[..0], p);
  }

  lemma LappedOk()
    ensures SenderOk(LAPPED, 65537, 65537)
  {
    hide SumLen, Count, HasBit, Pow2, Open;
    forall p: OutCmd -> bool ensures Open(LAPPED, p) == if p(OutCmd(65537, 1, 1)) then 1 else 0 {
      LappedOpen(p);
    }
    SumLenOne(OutCmd(65537, 1, 1));
    forall w: nat ensures HasBit(1, w) <==> w == 0 {
      OneBit(w);
    }
    Pow2Monotone(0, WINDOWS);
  }

  lemma OneBit(w: nat)
    ensures HasBit(1, w) <==> w == 0
  {
    ZeroBit(w);
  }

  // ---------------------------------------------------------------- time-out

  lemma {:induction false} PickAttempts(cs: seq<OutCmd>, due: seq<bool>, want: bool)
    requires |due| == |cs| && forall j :: 0 <= j < |cs| ==> cs[j].attempts >= 1
    ensures forall j :: 0 <= j < |Pick(cs, due, want)| ==> Pick(cs, due, want)[j].attempts >= 1
  {
    if cs != [] {
      PickAttempts(cs[..|cs| - 1], due[..|cs| - 1], want);
    }
  }

  lemma TimeOutCounts(s: Sender, due: seq<bool>, p: OutCmd -> bool)
    requires |due| == |s.sent| && forall j :: 0 <= j < |s.sent| ==> s.sent[j].attempts >= 1
    ensures Open(TimeOut(s, due), p) == Open(s, p)
  {
    var moved := Pick(s.sent, due, true);
    PickAttempts(s.sent, due, true);
    ResendsAppend(moved, s.outgoing);
    CountPick(s.sent, due, p);
    var m := Resends(s.outgoing);
    assert (moved + s.outgoing)[..|moved| + m] == moved + s.outgoing[..m];
    CountConcat(moved, s.outgoing[..m], p);
  }

  lemma TimeOutLists(s: Sender, total: nat, next: nat, due: seq<bool>)
    requires SenderOk(s, total, next) && |due| == |s.sent|
    ensures Waiting(TimeOut(s, due).outgoing, total, next)
    ensures forall j :: 0 <= j < |TimeOut(s, due).sent| ==> TimeOut(s, due).sent[j].attempts >= 1
    ensures TimeOut(s, due).inTransit == SumLen(TimeOut(s, due).sent) <= s.inTransit
  {
    hide Count, HasBit, Win, Open, Pick, SumLen, Resends;
    SumLenPick(s.sent, due);
    PickAttempts(s.sent, due, false);
    PickAttempts(s.sent, due, true);
    ResendsAppend(Pick(s.sent, due, true), s.outgoing);
  }

  /** Commands that time out wait to be sent again; they stay unacknowledged. */
  lemma TimeOutOk(s: Sender, total: nat, next: nat, due: seq<bool>)
    requires SenderOk(s, total, next) && |due| == |s.sent|
    ensures SenderOk(TimeOut(s, due), total, next)
    ensures forall u: nat :: Open(TimeOut(s, due), ById(u)) == Open(s, ById(u))
  {
    hide HasBit, Count, SumLen, Waiting, Win, Open, Resends, Pick;
    var s' := TimeOut(s, due);
    TimeOutLists(s, total, next, due);
    forall u: nat ensures Open(s', ById(u)) == Open(s, ById(u)) {
      TimeOutCounts(s, due, ById(u));
    }
    forall w: nat ensures Open(s', ByWindow(w)) == Open(s, ByWindow(w)) {
      TimeOutCounts(s, due, ByWindow(w));
    }
  }

  // ---------------------------------------------------------------- progress

  lemma {:induction false} ZeroAnd(b: nat)
    ensures BitAnd(0, b) == 0
  {
    AndAtMost(0, b);
  }

  lemma NoBits(x: nat, n: nat)
    requires x < Pow2(n) && forall k: nat :: k < n ==> !HasBit(x, k)
    ensures x == 0
  {
    if x != 0 {
      var k := SomeBit(x);
      BitBelow(x, n, k);
    }
  }

  /** With nothing in flight, the first waiting command may go out, new or not, if the limit allows its length. */
  lemma NeverStuck(s: Sender, total: nat, next: nat, limit: nat)
    requires SenderOk(s, total, next) && s.sent == [] && s.outgoing != [] && s.outgoing[0].len <= limit
    ensures CanSend(s, limit)
  {
    hide HasBit, BitAnd, GateMask, Win, Pow2, Window16;
    if Resends(s.outgoing) == 0 {
      forall p: OutCmd -> bool ensures Open(s, p) == 0 {
        CountNone(s.outgoing[..0], p);
      }
      forall w: nat | w < WINDOWS ensures s.windows[w] == 0 {
        assert Open(s, ByWindow(w)) == 0;
      }
      NoBits(s.used, WINDOWS);
      forall b: nat ensures BitAnd(s.used, b) == 0 {
        ZeroAnd(b);
      }
    }
  }

  /** So once everything in flight has timed out, sending goes on. */
  lemma TimeOutFrees(s: Sender, total: nat, next: nat, limit: nat)
    requires SenderOk(s, total, next) && |s.sent| + |s.outgoing| > 0
    requires forall c :: c in s.sent + s.outgoing ==> c.len <= limit
    ensures CanSend(TimeOut(s, seq(|s.sent|, _ => true)), limit)
    ensures TimeOut(s, seq(|s.sent|, _ => true)).outgoing == s.sent + s.outgoing
  {
    hide SenderOk, CanSend;
    var due := seq(|s.sent|, _ => true);
    PickAll(s.sent, due);
    TimeOutOk(s, total, next, due);
    NeverStuck(TimeOut(s, due), total, next, limit);
  }

  lemma {:induction false} PickAll(cs: seq<OutCmd>, due: seq<bool>)
    requires |due| == |cs| && forall j :: 0 <= j < |due| ==> due[j]
    ensures Pick(cs, due, true) == cs && Pick(cs, due, false) == []
  {
    if cs != [] {
      PickAll(cs[..|cs| - 1], due[..|cs| - 1]);
    }
  }
}
