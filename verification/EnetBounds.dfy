/** What the receiving half keeps whatever arrives, be it from a peer that follows the protocol or not. */
module EnetBounds {
  import opened Bits
  import opened EnetSequence
  import opened EnetReceive

  /** No entry is longer than a packet may be, or has more fragments; the counter of missing fragments is exact. */
  ghost predicate EntryOk(e: Incoming, maximumPacketSize: nat) {
    && |e.data| <= maximumPacketSize && e.count <= MAX_FRAGMENTS && e.count <= |e.data|
    && e.remaining + |e.got| == e.count && forall n :: n in e.got ==> n < e.count
  }

  ghost predicate Bounded(r: Receiver, maximumPacketSize: nat) {
    && (forall i :: 0 <= i < |r.pending| ==> EntryOk(r.pending[i], maximumPacketSize))
    && (forall i :: 0 <= i < |r.dispatched| ==> |r.dispatched[i]| <= maximumPacketSize)
  }

  lemma {:induction false} DrainBounded(r: Receiver, maximumPacketSize: nat)
    requires Bounded(r, maximumPacketSize)
    ensures Bounded(Drain(r), maximumPacketSize)
    decreases |r.pending|
  {
    if r.pending != [] && Ready(r.pending[0], r.inSeq) {
      var e := r.pending[0];
      assert EntryOk(e, maximumPacketSize);
      DrainBounded(Receiver(SeqAfter(e), r.pending[1..], r.dispatched + [e.data]), maximumPacketSize);
    }
  }

  lemma InsertBounded(r: Receiver, k: nat, e: Incoming, maximumPacketSize: nat)
    requires Bounded(r, maximumPacketSize) && EntryOk(e, maximumPacketSize) && k <= |r.pending|
    ensures Bounded(r.(pending := Insert(r.pending, k, e)), maximumPacketSize)
  {
    hide EntryOk;
  }

  /** Different numbers below `n` are at most `n`; if they are so many, they are all of them. */
  lemma {:induction false} NumbersBelow(s: set<nat>, n: nat)
    requires forall x :: x in s ==> x < n
    ensures |s| <= n && (|s| == n ==> forall x: nat :: x < n ==> x in s)
    decreases n
  {
    if n == 0 {
      assert s == {};
    } else {
      NumbersBelow(s - {n - 1}, n - 1);
      if n - 1 in s {
        assert |s| == |s - {n - 1}| + 1;
      } else {
        assert s - {n - 1} == s;
      }
      if |s| == n {
        forall x: nat | x < n ensures x in s {
          assert x == n - 1 || x in s - {n - 1};
        }
      }
    }
  }

  /** A fragment is only ever counted once: the counter does not wrap. */
  lemma StoreBounded(e: Incoming, f: Wire, maximumPacketSize: nat)
    requires f.Fragment? && EntryOk(e, maximumPacketSize) && f.number < e.count && f.offset + |f.data| <= |e.data|
    ensures EntryOk(Store(e, f.number, f.offset, f.data), maximumPacketSize)
    ensures Store(e, f.number, f.offset, f.data).remaining == e.remaining - if f.number in e.got then 0 else 1
  {
    if f.number !in e.got {
      NumbersBelow(e.got + {f.number}, e.count);
      assert |e.got + {f.number}| == |e.got| + 1;
    }
  }

  lemma StoreAtBounded(r: Receiver, k: nat, f: Wire, maximumPacketSize: nat)
    requires f.Fragment? && Bounded(r, maximumPacketSize) && k < |r.pending|
    requires f.number < r.pending[k].count && f.offset + |f.data| <= |r.pending[k].data|
    ensures Bounded(StoreAt(r, k, f), maximumPacketSize)
  {
    hide EntryOk, Store, Drain;
    StoreBounded(r.pending[k], f, maximumPacketSize);
    var e := Store(r.pending[k], f.number, f.offset, f.data);
    var r' := r.(pending := r.pending[k := e]);
    assert Bounded(r', maximumPacketSize);
    DrainBounded(r', maximumPacketSize);
  }

  lemma FragmentBounded(r: Receiver, f: Wire, maximumPacketSize: nat, refuse: bool)
    requires f.Fragment? && Bounded(r, maximumPacketSize)
    ensures Bounded(ReceiveFragment(r, f, maximumPacketSize, refuse).0, maximumPacketSize)
  {
    hide EntryOk, Drain, StoreAt, Scan, Insert;
    if f.data == [] || |f.data| > maximumPacketSize || !InWindow(f.start, r.inSeq) || !FragmentOk(f, maximumPacketSize) {
      return;
    }
    var (k, found) := Scan(r.pending, f.start, r.inSeq);
    if found {
      var e := r.pending[k];
      if !(e.count == 0 || f.total != |e.data| || f.count != e.count) {
        StoreAtBounded(r, k, f, maximumPacketSize);
      }
    } else if !(f.start == r.inSeq || refuse) {
      var e := Incoming(f.start, f.count, f.count, {}, seq(f.total, _ => 0));
      NewEntry(f, maximumPacketSize);
      InsertBounded(r, k, e, maximumPacketSize);
      var r0 := r.(pending := Insert(r.pending, k, e));
      InsertedAt(r.pending, k, e);
      DrainKeeps(r0, k);
      DrainBounded(r0, maximumPacketSize);
      StoreAtBounded(Drain(r0), k - (|r0.pending| - |Drain(r0).pending|), f, maximumPacketSize);
    }
  }

  lemma InsertedAt(p: seq<Incoming>, k: nat, e: Incoming)
    requires k <= |p|
    ensures |Insert(p, k, e)| == |p| + 1 && Insert(p, k, e)[k] == e
  {
  }

  lemma NewEntry(f: Wire, maximumPacketSize: nat)
    requires f.Fragment? && FragmentOk(f, maximumPacketSize)
    ensures EntryOk(Incoming(f.start, f.count, f.count, {}, seq(f.total, _ => 0)), maximumPacketSize) && f.count > 0
  {
  }

  /** Any datagram at all keeps the bounds, ... */
  lemma AnyArrival(r: Receiver, w: Wire, maximumPacketSize: nat, refuse: bool)
    requires Bounded(r, maximumPacketSize)
    ensures Bounded(Receive(r, w, maximumPacketSize, refuse).0, maximumPacketSize)
  {
    hide EntryOk, Drain, Scan, Insert;
    match w
    case Reliable(s, data) =>
      if |data| <= maximumPacketSize {
        var (k, found) := Scan(r.pending, s, r.inSeq);
        var e := Incoming(s, 0, 0, {}, data);
        assert EntryOk(e, maximumPacketSize) by {
          PlainEntry(s, data, maximumPacketSize);
        }
        InsertBounded(r, k, e, maximumPacketSize);
        DrainBounded(r.(pending := Insert(r.pending, k, e)), maximumPacketSize);
      }
    case _ => FragmentBounded(r, w, maximumPacketSize, refuse);
  }

  lemma PlainEntry(s: seq16, data: seq<byte>, maximumPacketSize: nat)
    requires |data| <= maximumPacketSize
    ensures EntryOk(Incoming(s, 0, 0, {}, data), maximumPacketSize)
  {
  }

  /** A datagram, and whether the limit on waiting data refuses it. */
  datatype Arrival = Arrival(wire: Wire, refuse: bool)

  function ReceiveAll(r: Receiver, ws: seq<Arrival>, maximumPacketSize: nat): Receiver {
    if ws == [] then r
    else Receive(ReceiveAll(r, ws[..|ws| - 1], maximumPacketSize), ws[|ws| - 1].wire, maximumPacketSize, ws[|ws| - 1].refuse).0
  }

  /** ... and so does any run: no packet held or dispatched is longer than allowed, and an entry that counts as complete has had
      each of its fragments. */
  lemma {:induction false} AnyRun(ws: seq<Arrival>, maximumPacketSize: nat)
    ensures Bounded(ReceiveAll(Receiver(0, [], []), ws, maximumPacketSize), maximumPacketSize)
    ensures
      var r := ReceiveAll(Receiver(0, [], []), ws, maximumPacketSize);
      forall i, n: nat :: 0 <= i < |r.pending| && r.pending[i].remaining == 0 && n < r.pending[i].count ==> n in r.pending[i].got
    decreases |ws|
  {
    hide Receive;
    if ws != [] {
      AnyRun(ws[..|ws| - 1], maximumPacketSize);
      AnyArrival(ReceiveAll(Receiver(0, [], []), ws[..|ws| - 1], maximumPacketSize), ws[|ws| - 1].wire, maximumPacketSize, ws[|ws| - 1].refuse);
    }
    var r := ReceiveAll(Receiver(0, [], []), ws, maximumPacketSize);
    forall i, n: nat | 0 <= i < |r.pending| && r.pending[i].remaining == 0 && n < r.pending[i].count ensures n in r.pending[i].got {
      assert EntryOk(r.pending[i], maximumPacketSize);
      NumbersBelow(r.pending[i].got, r.pending[i].count);
    }
  }
}
