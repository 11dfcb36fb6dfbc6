/** The receiving half of a reliable channel: the reorder queue, fragment reassembly, in-order dispatch.
    The functions say what a command does to the channel; the class does it in place. */
module EnetReceive {
  import opened Bits
  import opened EnetSequence

  /** ENET_PROTOCOL_MAXIMUM_FRAGMENT_COUNT */
  const MAX_FRAGMENTS: nat := 1024 * 1024

  /** A queued command: a whole packet (`count` zero) or a group of `count` fragments being put together. */
  datatype Incoming = Incoming(sn: seq16, count: nat, remaining: nat, got: set<nat>, data: seq<byte>)

  datatype Receiver = Receiver(inSeq: seq16, pending: seq<Incoming>, dispatched: seq<seq<byte>>)

  /** What a datagram says; all sequence numbers are 16 bits wide. */
  datatype Wire =
    | Reliable(sn: seq16, data: seq<byte>)
    | Fragment(sn: seq16, start: seq16, number: nat, count: nat, offset: nat, total: nat, data: seq<byte>)

  // ---------------------------------------------------------------- the queue

  /** Walks the queue from its end: where `s` belongs, or where it already is. */
  function Scan(p: seq<Incoming>, s: seq16, current: seq16): (r: (nat, bool))
    ensures r.0 <= |p| && (r.1 ==> r.0 < |p| && p[r.0].sn == s)
  {
    if p == [] then (0, false)
    else
      var n := |p| - 1;
      if p[n].sn == s then (n, true)
      else if Before(p[n].sn, s, current) then (n + 1, false)
      else Scan(p[..n], s, current)
  }

  function Insert(p: seq<Incoming>, k: nat, e: Incoming): seq<Incoming>
    requires k <= |p|
  {
    p[..k] + [e] + p[k..]
  }

  predicate Ready(e: Incoming, inSeq: seq16) {
    e.remaining == 0 && e.sn == Seq16(inSeq + 1)
  }

  /** The channel's number once `e` has been dispatched. */
  function SeqAfter(e: Incoming): seq16 {
    if e.count > 0 then Seq16(e.sn + e.count - 1) else e.sn
  }

  /** `__enet_peer_dispatch_incoming_reliable_commands` */
  function Drain(r: Receiver): Receiver
    decreases |r.pending|
  {
    if r.pending != [] && Ready(r.pending[0], r.inSeq) then
      var e := r.pending[0];
      Drain(Receiver(SeqAfter(e), r.pending[1..], r.dispatched + [e.data]))
    else r
  }

  lemma DrainNext(inSeq: seq16, p: seq<Incoming>, i: nat, d: seq<seq<byte>>)
    requires i < |p| && Ready(p[i], inSeq)
    ensures Drain(Receiver(inSeq, p[i..], d)) == Drain(Receiver(SeqAfter(p[i]), p[i + 1..], d + [p[i].data]))
  {
    assert p[i..][0] == p[i] && p[i..][1..] == p[i + 1..];
  }

  lemma DrainStops(r: Receiver)
    requires r.pending == [] || !Ready(r.pending[0], r.inSeq)
    ensures Drain(r) == r
  {
  }

  /** Dispatching stops in front of a group that is not complete. */
  lemma {:induction false} DrainKeeps(r: Receiver, k: nat)
    requires k < |r.pending| && r.pending[k].remaining > 0
    ensures
      var moved := |r.pending| - |Drain(r).pending|;
      0 <= moved <= k && Drain(r).pending == r.pending[moved..]
    decreases |r.pending|
  {
    if Ready(r.pending[0], r.inSeq) {
      var e := r.pending[0];
      DrainKeeps(Receiver(SeqAfter(e), r.pending[1..], r.dispatched + [e.data]), k - 1);
    }
  }

  // ---------------------------------------------------------------- commands

  /** `__enet_protocol_handle_send_reliable`; false is a command error.  `refuse` stands for the limit on waiting data. */
  function ReceiveReliable(r: Receiver, s: seq16, data: seq<byte>, refuse: bool): (Receiver, bool) {
    if !InWindow(s, r.inSeq) || s == r.inSeq then (r, true)
    else
      var (k, found) := Scan(r.pending, s, r.inSeq);
      if found then (r, true)
      else if refuse then (r, false)
      else (Drain(r.(pending := Insert(r.pending, k, Incoming(s, 0, 0, {}, data)))), true)
  }

  /** Stores a fragment that has not been seen yet. */
  function Store(e: Incoming, number: nat, offset: nat, data: seq<byte>): Incoming
    requires offset + |data| <= |e.data|
  {
    if number in e.got then e
    else
      Incoming(e.sn, e.count, (e.remaining + 0xFFFF_FFFF) % 0x1_0000_0000, e.got + {number},
               e.data[..offset] + data + e.data[offset + |data|..])
  }

  function StoreAt(r: Receiver, k: nat, f: Wire): Receiver
    requires f.Fragment? && k < |r.pending| && f.offset + |f.data| <= |r.pending[k].data|
  {
    var e := Store(r.pending[k], f.number, f.offset, f.data);
    var r' := r.(pending := r.pending[k := e]);
    if f.number !in r.pending[k].got && e.remaining == 0 then Drain(r') else r'
  }

  predicate FragmentOk(f: Wire, maximumPacketSize: nat)
    requires f.Fragment?
  {
    f.count <= MAX_FRAGMENTS && f.number < f.count && f.total <= maximumPacketSize && f.count <= f.total
    && f.offset < f.total && |f.data| <= f.total - f.offset
  }

  /** `__enet_protocol_handle_send_fragment` */
  function ReceiveFragment(r: Receiver, f: Wire, maximumPacketSize: nat, refuse: bool): (Receiver, bool)
    requires f.Fragment?
  {
    if f.data == [] || |f.data| > maximumPacketSize then (r, false)
    else if !InWindow(f.start, r.inSeq) then (r, true)
    else if !FragmentOk(f, maximumPacketSize) then (r, false)
    else
      var (k, found) := Scan(r.pending, f.start, r.inSeq);
      if found then
        var e := r.pending[k];
        if e.count == 0 || f.total != |e.data| || f.count != e.count then (r, false)
        else (StoreAt(r, k, f), true)
      else if f.start == r.inSeq || refuse then (r, false)
      else
        var e := Incoming(f.start, f.count, f.count, {}, seq(f.total, _ => 0));
        var r0 := r.(pending := Insert(r.pending, k, e));
        DrainKeeps(r0, k);
        (StoreAt(Drain(r0), k - (|r0.pending| - |Drain(r0).pending|), f), true)
  }

  /** One datagram: the new channel, and whether its number is acknowledged. */
  function Receive(r: Receiver, w: Wire, maximumPacketSize: nat, refuse: bool): (Receiver, bool) {
    var (r', ok) :=
      if w.Reliable? then
        if |w.data| > maximumPacketSize then (r, false) else ReceiveReliable(r, w.sn, w.data, refuse)
      else ReceiveFragment(r, w, maximumPacketSize, refuse);
    (r', ok && MayAck(w.sn, r'.inSeq))
  }

  // ---------------------------------------------------------------- in place

  datatype Queued = Queued(at: nat) | Discarded | Refused

  /** A channel of a connected peer. */
  class Channel {
    var inSeq: seq16
    var pending: seq<Incoming>
    var dispatched: seq<seq<byte>>

    constructor ()
      ensures View() == Receiver(0, [], [])
    {
      inSeq, pending, dispatched := 0, [], [];
    }

    ghost function View(): Receiver
      reads this
    {
      Receiver(inSeq, pending, dispatched)
    }

    /** `__enet_peer_dispatch_incoming_reliable_commands` */
    method Dispatch()
      modifies this
      ensures View() == Drain(old(View()))
    {
      hide Drain;
      var i := 0;
      var p := pending;
      ghost var d := dispatched;
      ghost var moved: seq<seq<byte>> := [];
      assert p[0..] == p && d + moved == d;
      while i < |pending|
        invariant 0 <= i <= |pending| && pending == p && dispatched == d
        invariant |moved| == i && forall j :: 0 <= j < i ==> moved[j] == p[j].data
        invariant Drain(Receiver(inSeq, p[i..], d + moved)) == Drain(old(View()))
      {
        var e := pending[i];
        if e.remaining > 0 || e.sn != Seq16(inSeq + 1) {
          break;
        }
        DrainNext(inSeq, p, i, d + moved);
        assert d + moved + [e.data] == d + (moved + [e.data]);
        inSeq := e.sn;
        if e.count > 0 {
          inSeq := Seq16(inSeq + (e.count - 1));
        }
        moved := moved + [e.data];
        i := i + 1;
      }
      DrainStops(Receiver(inSeq, p[i..], d + moved));
      dispatched := dispatched + seq(i, j requires 0 <= j < |p| => p[j].data);
      assert dispatched == d + moved;
      pending := pending[i..];
    }

    /** The position for `s`, found from the end of the queue. */
    method Place(s: seq16) returns (k: nat, found: bool)
      ensures (k, found) == Scan(pending, s, inSeq)
    {
      k, found := |pending|, false;
      assert pending[..k] == pending;
      while k > 0
        invariant 0 <= k <= |pending|
        invariant Scan(pending, s, inSeq) == Scan(pending[..k], s, inSeq)
      {
        var e := pending[k - 1];
        assert pending[..k][k - 1] == e && pending[..k][..k - 1] == pending[..k - 1];
        if s >= inSeq {
          if e.sn < inSeq {
            k := k - 1;
            continue;
          }
        } else if e.sn >= inSeq {
          return k, false;
        }
        if e.sn <= s {
          if e.sn < s {
            return k, false;
          }
          return k - 1, true;
        }
        k := k - 1;
      }
    }

    /** `__enet_peer_queue_incoming_command` for reliable commands. */
    method QueueIncoming(s: seq16, data: seq<byte>, count: nat, refuse: bool) returns (q: Queued)
      modifies this
      ensures q.Discarded? || q.Refused? ==> View() == old(View())
      ensures q.Discarded? || q.Refused? <==>
        !InWindow(s, old(inSeq)) || s == old(inSeq) || Scan(old(pending), s, old(inSeq)).1 || refuse
      ensures q.Discarded? <==>
        count == 0 && (!InWindow(s, old(inSeq)) || s == old(inSeq) || Scan(old(pending), s, old(inSeq)).1)
      ensures q.Queued? ==>
        var k := Scan(old(pending), s, old(inSeq)).0;
        var r0 := old(View()).(pending := Insert(old(pending), k, Incoming(s, count, count, {}, data)));
        View() == Drain(r0) && (count > 0 ==> q.at == k - (|r0.pending| - |pending|) < |pending|)
    {
      if !InWindow(s, inSeq) || s == inSeq {
        return if count > 0 then Refused else Discarded;
      }
      var k, found := Place(s);
      if found {
        return if count > 0 then Refused else Discarded;
      }
      if refuse {
        return Refused;
      }
      pending := Insert(pending, k, Incoming(s, count, count, {}, data));
      ghost var r0 := View();
      var before := |pending|;
      if count > 0 {
        DrainKeeps(r0, k);
      }
      Dispatch();
      return Queued(if count > 0 then k - (before - |pending|) else 0);
    }

    /** `__enet_protocol_handle_send_reliable` */
    method HandleReliable(s: seq16, data: seq<byte>, refuse: bool) returns (ok: bool)
      modifies this
      ensures (View(), ok) == ReceiveReliable(old(View()), s, data, refuse)
    {
      var q := QueueIncoming(s, data, 0, refuse);
      return !q.Refused?;
    }

    /** `__enet_protocol_handle_send_fragment` */
    method HandleFragment(f: Wire, maximumPacketSize: nat, refuse: bool) returns (ok: bool)
      requires f.Fragment?
      modifies this
      ensures (View(), ok) == ReceiveFragment(old(View()), f, maximumPacketSize, refuse)
    {
      if |f.data| == 0 || |f.data| > maximumPacketSize {
        return false;
      }
      if !InWindow(f.start, inSeq) {
        return true;
      }
      if !FragmentOk(f, maximumPacketSize) {
        return false;
      }
      var k, found := Place(f.start);
      if found {
        var e := pending[k];
        if e.count == 0 || f.total != |e.data| || f.count != e.count {
          return false;
        }
      } else {
        var q := QueueIncoming(f.start, seq(f.total, _ => 0), f.count, refuse);
        if !q.Queued? {
          return false;
        }
        ghost var r0 := old(View()).(pending := Insert(old(pending), k, Incoming(f.start, f.count, f.count, {}, seq(f.total, _ => 0))));
        DrainKeeps(r0, k);
        k := q.at;
      }
      StoreFragment(k, f);
      return true;
    }

    /** A fragment is put into its place, and if it was the last one missing, what is ready is dispatched. */
    method StoreFragment(k: nat, f: Wire)
      requires f.Fragment? && k < |pending| && f.offset + |f.data| <= |pending[k].data|
      modifies this
      ensures View() == StoreAt(old(View()), k, f)
    {
      if f.number !in pending[k].got {
        var e := Store(pending[k], f.number, f.offset, f.data);
        pending := pending[k := e];
        if e.remaining == 0 {
          Dispatch();
        }
      } else {
        assert pending[k := pending[k]] == pending;
      }
    }
  }
}
