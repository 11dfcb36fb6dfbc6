/** The sending half of a reliable channel: commands waiting, commands in flight, the window gate, flow control,
    acknowledgement and time-out.  The functions say what each step does; the class does it in place. */
module EnetSend {
  import opened Bits
  import opened EnetSequence
  import opened EnetGate
  import opened Masks

  /** A command of the channel.  `id` is its place in the history of the channel; the code only sees `Seq16(id)`. */
  datatype OutCmd = OutCmd(id: nat, len: nat, attempts: nat)

  datatype Sender = Sender(outSeq: seq16, outgoing: seq<OutCmd>, sent: seq<OutCmd>, windows: seq<nat>, used: nat, inTransit: int)

  /** ENET_PEER_PACKET_THROTTLE_SCALE, ENET_PROTOCOL_MINIMUM_WINDOW_SIZE, ENET_PROTOCOL_MAXIMUM_WINDOW_SIZE */
  const THROTTLE_SCALE: nat := 32
  const MIN_WINDOW_SIZE: nat := 4096
  const MAX_WINDOW_SIZE: nat := 65536
  /** ENET_PROTOCOL_MINIMUM_MTU, ENET_PROTOCOL_MAXIMUM_MTU */
  const MIN_MTU: nat := 576
  const MAX_MTU: nat := 4096

  function Window16(s: seq16): (w: nat)
    ensures w < WINDOWS
  {
    s / WINDOW_SIZE
  }

  // ---------------------------------------------------------------- steps

  /** `__enet_peer_setup_outgoing_command` for a reliable command with a packet */
  function Queue(s: Sender, id: nat, len: nat): Sender {
    s.(outSeq := Seq16(s.outSeq + 1), outgoing := s.outgoing + [OutCmd(id, len, 0)])
  }

  /** The first command of a window waits until the previous window has begun to be acknowledged and ten windows are free. */
  predicate Gated(s: Sender, c: OutCmd)
    requires |s.windows| == WINDOWS
  {
    var q := Seq16(c.id);
    var w := Window16(q);
    && c.attempts < 1 && q % WINDOW_SIZE == 0
    && (s.windows[(w + WINDOWS - 1) % WINDOWS] >= WINDOW_SIZE || BitAnd(s.used, GateMask(w)) != 0)
  }

  function TransitLimit(windowSize: nat, throttle: nat, mtu: nat): nat {
    var w := throttle * windowSize / THROTTLE_SCALE;
    if w > mtu then w else mtu
  }

  /** What flow control computes its limit from: window size, packet throttle and mtu of the peer. */
  datatype Flow = Flow(window: nat, throttle: nat, mtu: nat)

  predicate FlowOk(f: Flow) {
    && MIN_WINDOW_SIZE <= f.window <= MAX_WINDOW_SIZE && f.throttle <= THROTTLE_SCALE
    && MIN_MTU <= f.mtu <= MAX_MTU
  }

  function LimitOf(f: Flow): nat {
    TransitLimit(f.window, f.throttle, f.mtu)
  }

  /** The limit never falls below one mtu, nor rises above the largest window. */
  lemma LimitRange(f: Flow)
    requires FlowOk(f)
    ensures f.mtu <= LimitOf(f) <= MAX_WINDOW_SIZE
  {
    MulMonotone(f.throttle, THROTTLE_SCALE, f.window);
    assert f.throttle * f.window <= 32 * f.window;
  }

  /** The throttle takes its part of the window, in thirty-seconds and rounded down, but one mtu is always allowed. */
  lemma LimitMeaning(f: Flow)
    ensures f.throttle == THROTTLE_SCALE && f.window >= f.mtu ==> LimitOf(f) == f.window
    ensures f.throttle == 0 ==> LimitOf(f) == f.mtu
    ensures LimitOf(f) >= f.mtu
    ensures LimitOf(f) > f.mtu ==> THROTTLE_SCALE * LimitOf(f) <= f.throttle * f.window < THROTTLE_SCALE * (LimitOf(f) + 1)
    ensures LimitOf(f) == f.mtu <==> f.throttle * f.window < THROTTLE_SCALE * (f.mtu + 1)
  {
    var x := f.throttle * f.window;
    assert f.throttle == THROTTLE_SCALE ==> x == 32 * f.window;
    assert f.throttle == 0 ==> x == 0;
    assert 32 * (x / 32) <= x < 32 * (x / 32) + 32;
  }

  /** A larger throttle, window or mtu never lowers the limit. */
  lemma LimitMonotone(f: Flow, g: Flow)
    requires f.throttle <= g.throttle && f.window <= g.window && f.mtu <= g.mtu
    ensures LimitOf(f) <= LimitOf(g)
  {
    MulMonotone(f.throttle, g.throttle, f.window);
    MulMonotone(f.window, g.window, g.throttle);
    assert f.throttle * f.window <= g.throttle * g.window;
  }

  /** The first waiting command may be sent. */
  predicate CanSend(s: Sender, limit: nat)
    requires |s.windows| == WINDOWS
  {
    && s.outgoing != []
    && !Gated(s, s.outgoing[0])
    && s.inTransit + s.outgoing[0].len <= limit
  }

  /** The first waiting command goes out. */
  function SendFirst(s: Sender): Sender
    requires s.outgoing != [] && |s.windows| == WINDOWS
  {
    var c := s.outgoing[0];
    var w := Window16(Seq16(c.id));
    var s1 := if c.attempts < 1 then s.(used := SetBit(s.used, w), windows := s.windows[w := s.windows[w] + 1]) else s;
    s1.(outgoing := s.outgoing[1..], sent := s.sent + [c.(attempts := c.attempts + 1)], inTransit := s.inTransit + c.len)
  }

  /** The position of the first command numbered `q`, if there is one. */
  function IndexOf(cs: seq<OutCmd>, q: seq16): (k: nat)
    ensures k <= |cs| && (k < |cs| ==> Seq16(cs[k].id) == q)
    ensures forall j :: 0 <= j < k ==> Seq16(cs[j].id) != q
  {
    if cs == [] then 0 else if Seq16(cs[0].id) == q then 0 else 1 + IndexOf(cs[1..], q)
  }

  /** The number of commands at the front that have been sent before. */
  function Resends(cs: seq<OutCmd>): (m: nat)
    ensures m <= |cs| && forall j :: 0 <= j < m ==> cs[j].attempts >= 1
    ensures m < |cs| ==> cs[m].attempts < 1
  {
    if cs == [] || cs[0].attempts < 1 then 0 else 1 + Resends(cs[1..])
  }

  function Remove<T>(cs: seq<T>, k: nat): seq<T>
    requires k < |cs|
  {
    cs[..k] + cs[k + 1..]
  }

  /** One command less in its window. */
  function Release(s: Sender, q: seq16): Sender
    requires |s.windows| == WINDOWS
  {
    var w := Window16(q);
    if s.windows[w] > 0 then
      var n := s.windows[w] - 1;
      s.(windows := s.windows[w := n], used := if n == 0 then ClearBit(s.used, w) else s.used)
    else s
  }

  /** `__enet_protocol_remove_sent_reliable_command` */
  function Acknowledge(s: Sender, q: seq16): Sender
    requires |s.windows| == WINDOWS
  {
    var k := IndexOf(s.sent, q);
    if k < |s.sent| then
      Release(s, q).(sent := Remove(s.sent, k), inTransit := s.inTransit - s.sent[k].len)
    else
      var j := IndexOf(s.outgoing, q);
      if j < Resends(s.outgoing) then Release(s, q).(outgoing := Remove(s.outgoing, j)) else s
  }

  /** The commands of `cs` that `due` marks, or those it does not mark. */
  function Pick(cs: seq<OutCmd>, due: seq<bool>, want: bool): seq<OutCmd>
    requires |due| == |cs|
  {
    if cs == [] then []
    else Pick(cs[..|cs| - 1], due[..|cs| - 1], want) + if due[|cs| - 1] == want then [cs[|cs| - 1]] else []
  }

  function SumLen(cs: seq<OutCmd>): nat {
    if cs == [] then 0 else SumLen(cs[..|cs| - 1]) + cs[|cs| - 1].len
  }

  /** `__enet_protocol_check_timeouts`, while the connection lasts */
  function TimeOut(s: Sender, due: seq<bool>): Sender
    requires |due| == |s.sent|
  {
    s.(outgoing := Pick(s.sent, due, true) + s.outgoing, sent := Pick(s.sent, due, false),
       inTransit := s.inTransit - SumLen(Pick(s.sent, due, true)))
  }

  /** `n` commands go out in a row, each of them allowed. */
  ghost predicate SendRun(s: Sender, limit: nat, n: nat, s': Sender)
    decreases n
  {
    if n == 0 then s' == s
    else exists t: Sender :: SendRun(s, limit, n - 1, t) && |t.windows| == WINDOWS && CanSend(t, limit) && s' == SendFirst(t)
  }

  // ---------------------------------------------------------------- in place

  class Outgoing {
    var outSeq: seq16
    var outgoing: seq<OutCmd>
    var sent: seq<OutCmd>
    const windows: array<nat>
    var used: nat
    var inTransit: int

    ghost function View(): Sender
      reads this, windows
    {
      Sender(outSeq, outgoing, sent, windows[..], used, inTransit)
    }

    constructor ()
      ensures fresh(windows) && windows.Length == WINDOWS
      ensures View() == Sender(0, [], [], seq(WINDOWS, _ => 0), 0, 0)
    {
      outSeq, outgoing, sent, used, inTransit := 0, [], [], 0, 0;
      windows := new nat[WINDOWS](_ => 0);
      new;
      assert windows[..] == seq(WINDOWS, _ => 0);
    }

    method SetupOutgoing(id: nat, len: nat)
      modifies this
      ensures View() == Queue(old(View()), id, len)
    {
      outSeq := Seq16(outSeq + 1);
      outgoing := outgoing + [OutCmd(id, len, 0)];
    }

    /** Whether the first waiting command may go out. */
    method MaySend(limit: nat) returns (may: bool)
      requires windows.Length == WINDOWS && outgoing != []
      ensures may <==> CanSend(View(), limit)
    {
      var c := outgoing[0];
      var q := Seq16(c.id);
      var w := Window16(q);
      if c.attempts < 1 && q % WINDOW_SIZE == 0
        && (windows[(w + WINDOWS - 1) % WINDOWS] >= WINDOW_SIZE || BitAnd(used, GateMask(w)) != 0) {
        return false;
      }
      return inTransit + c.len <= limit;
    }

    method SendHead()
      requires windows.Length == WINDOWS && outgoing != []
      modifies this, windows
      ensures View() == SendFirst(old(View()))
    {
      ghost var before := windows[..];
      var c := outgoing[0];
      if c.attempts < 1 {
        var w := Window16(Seq16(c.id));
        used := SetBit(used, w);
        windows[w] := windows[w] + 1;
        assert windows[..] == before[w := before[w] + 1];
      }
      sent := sent + [c.(attempts := c.attempts + 1)];
      outgoing := outgoing[1..];
      inTransit := inTransit + c.len;
    }

    /** `__enet_protocol_check_outgoing_commands` for one datagram with room for `room` commands. */
    method CheckOutgoing(windowSize: nat, throttle: nat, mtu: nat, room: nat) returns (out: nat)
      requires windows.Length == WINDOWS
      modifies this, windows
      ensures out <= room && SendRun(old(View()), TransitLimit(windowSize, throttle, mtu), out, View())
      ensures out == room || !CanSend(View(), TransitLimit(windowSize, throttle, mtu))
    {
      var limit := TransitLimit(windowSize, throttle, mtu);
      out := 0;
      while outgoing != [] && out < room
        invariant out <= room && SendRun(old(View()), limit, out, View())
        decreases room - out
      {
        var may := MaySend(limit);
        if !may {
          return;
        }
        ghost var t := View();
        SendHead();
        out := out + 1;
        assert SendRun(old(View()), limit, out - 1, t);
      }
    }

    /** `__enet_protocol_remove_sent_reliable_command` */
    method RemoveSent(q: seq16)
      requires windows.Length == WINDOWS
      modifies this, windows
      ensures View() == Acknowledge(old(View()), q)
    {
      var k := FindIn(sent, q, false);
      var j := |outgoing|;
      if k == |sent| {
        j := FindIn(outgoing, q, true);
        if j == |outgoing| {
          return;
        }
      }
      ReleaseWindow(q);
      if k < |sent| {
        inTransit := inTransit - sent[k].len;
        sent := Remove(sent, k);
      } else {
        outgoing := Remove(outgoing, j);
      }
    }

    /** The first command numbered `q`; with `onlySent`, the search ends at commands that were never sent. */
    method FindIn(cs: seq<OutCmd>, q: seq16, onlySent: bool) returns (k: nat)
      ensures k == if !onlySent || IndexOf(cs, q) < Resends(cs) then IndexOf(cs, q) else |cs|
    {
      k := 0;
      while k < |cs|
        invariant k <= |cs| && IndexOf(cs, q) == k + IndexOf(cs[k..], q)
        invariant onlySent ==> Resends(cs) == k + Resends(cs[k..])
      {
        assert cs[k..][0] == cs[k] && cs[k..][1..] == cs[k + 1..];
        if onlySent && cs[k].attempts < 1 {
          return |cs|;
        }
        if Seq16(cs[k].id) == q {
          return;
        }
        k := k + 1;
      }
    }

    method ReleaseWindow(q: seq16)
      requires windows.Length == WINDOWS
      modifies this`used, windows
      ensures View() == Release(old(View()), q)
    {
      ghost var before := windows[..];
      var w := Window16(q);
      if windows[w] > 0 {
        windows[w] := windows[w] - 1;
        assert windows[..] == before[w := before[w] - 1];
        if windows[w] == 0 {
          used := ClearBit(used, w);
        }
      }
    }

    /** `__enet_protocol_check_timeouts`: `due` says whose round-trip time-out has passed. */
    method CheckTimeouts(due: seq<bool>)
      requires |due| == |sent|
      modifies this
      ensures View() == TimeOut(old(View()), due)
    {
      hide Pick, SumLen;
      var cs, rest := sent, outgoing;
      var i := 0;
      var moved: seq<OutCmd> := [];
      sent := [];
      PickNone(cs, due);
      while i < |cs|
        invariant i <= |cs| && outSeq == old(outSeq) && used == old(used) && |due| == |cs|
        invariant moved == Pick(cs[..i], due[..i], true) && outgoing == moved + rest
        invariant sent == Pick(cs[..i], due[..i], false)
        invariant inTransit == old(inTransit) - SumLen(moved)
      {
        PickNext(cs, due, i, true);
        PickNext(cs, due, i, false);
        if due[i] {
          inTransit := inTransit - cs[i].len;
          SumSnoc(moved, cs[i]);
          moved := moved + [cs[i]];
          outgoing := moved + rest;
        } else {
          sent := sent + [cs[i]];
        }
        i := i + 1;
      }
      assert cs[..i] == cs && due[..i] == due;
    }
  }

  lemma PickNone(cs: seq<OutCmd>, due: seq<bool>)
    requires |due| == |cs|
    ensures Pick(cs[..0], due[..0], true) == Pick(cs[..0], due[..0], false) == [] && SumLen([]) == 0
  {
  }

  lemma PickNext(cs: seq<OutCmd>, due: seq<bool>, i: nat, want: bool)
    requires |due| == |cs| && i < |cs|
    ensures Pick(cs[..i + 1], due[..i + 1], want) == Pick(cs[..i], due[..i], want) + if due[i] == want then [cs[i]] else []
  {
    assert cs[..i + 1][..i] == cs[..i] && due[..i + 1][..i] == due[..i];
  }

  lemma SumSnoc(cs: seq<OutCmd>, c: OutCmd)
    ensures SumLen(cs + [c]) == SumLen(cs) + c.len
  {
    assert (cs + [c])[..|cs|] == cs;
  }
}
