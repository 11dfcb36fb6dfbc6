/** The peers of a host: connection states and the host's counters over them, and each peer's throttle and window. */
module EnetHost {
  import opened EnetSend

  datatype State =
    | Disconnected | Connecting | AcknowledgingConnect | ConnectionPending | ConnectionSucceeded
    | Connected | DisconnectLater | Disconnecting | AcknowledgingDisconnect | Zombie

  datatype Peer = Peer(state: State, incoming: nat, outgoing: nat, inEpoch: nat, outEpoch: nat, total: nat,
                       throttle: nat, limit: nat, acceleration: nat, deceleration: nat, window: nat, mtu: nat)

  const U32: nat := 0x1_0000_0000
  /** ENET_PEER_WINDOW_SIZE_SCALE */
  const WINDOW_SIZE_SCALE: nat := 65536
  /** ENET_HOST_DEFAULT_MTU */
  const DEFAULT_MTU: nat := 1392

  predicate Live(p: Peer) {
    p.state == Connected || p.state == DisconnectLater
  }

  predicate PeerOk(p: Peer) {
    && p.throttle <= p.limit <= THROTTLE_SCALE && MIN_WINDOW_SIZE <= p.window <= MAX_WINDOW_SIZE
    && MIN_MTU <= p.mtu <= MAX_MTU
  }

  function FlowOf(p: Peer): Flow {
    Flow(p.window, p.throttle, p.mtu)
  }

  /** So the limit on the data in transit to any peer lies between its mtu and the largest window. */
  lemma PeerLimit(p: Peer)
    requires PeerOk(p)
    ensures FlowOk(FlowOf(p)) && p.mtu <= LimitOf(FlowOf(p)) <= MAX_WINDOW_SIZE
  {
    LimitRange(FlowOf(p));
  }

  // ---------------------------------------------------------------- sums over the peers

  function Sum<T>(xs: seq<T>, f: T -> nat): nat {
    if xs == [] then 0 else Sum(xs[..|xs| - 1], f) + f(xs[|xs| - 1])
  }

  function LiveOne(p: Peer): nat {
    if Live(p) then 1 else 0
  }

  function LimitedOne(p: Peer): nat {
    if Live(p) && p.incoming != 0 then 1 else 0
  }

  lemma {:induction false} SumUpdate<T>(xs: seq<T>, i: nat, x: T, f: T -> nat)
    requires i < |xs|
    ensures Sum(xs[i := x], f) + f(xs[i]) == Sum(xs, f) + f(x)
  {
    var n := |xs| - 1;
    if i < n {
      assert xs[i := x][..n] == xs[..n][i := x];
      SumUpdate(xs[..n], i, x, f);
    } else {
      assert xs[i := x][..n] == xs[..n];
    }
  }

  lemma {:induction false} SumAtLeast<T>(xs: seq<T>, i: nat, f: T -> nat)
    requires i < |xs|
    ensures Sum(xs, f) >= f(xs[i])
  {
    if i < |xs| - 1 {
      SumAtLeast(xs[..|xs| - 1], i, f);
    }
  }

  lemma {:induction false} SumMonotone<T>(xs: seq<T>, ys: seq<T>, f: T -> nat, g: T -> nat)
    requires |xs| == |ys| && forall i :: 0 <= i < |xs| ==> f(xs[i]) <= g(ys[i])
    ensures Sum(xs, f) <= Sum(ys, g)
  {
    if xs != [] {
      SumMonotone(xs[..|xs| - 1], ys[..|ys| - 1], f, g);
    }
  }

  // ---------------------------------------------------------------- what happens to a peer

  /** The window for a connection between bandwidths, zero meaning unlimited. */
  function WindowFor(a: nat, b: nat): (w: nat)
    ensures MIN_WINDOW_SIZE <= w <= MAX_WINDOW_SIZE
  {
    var most, least := if a > b then a else b, if a < b then a else b;
    if a == 0 && b == 0 then MAX_WINDOW_SIZE
    else
      var w := (if a == 0 || b == 0 then most else least) / WINDOW_SIZE_SCALE * MIN_WINDOW_SIZE;
      if w < MIN_WINDOW_SIZE then MIN_WINDOW_SIZE else if w > MAX_WINDOW_SIZE then MAX_WINDOW_SIZE else w
  }

  /** 4 KiB of window for each 64 KiB a second, between the bounds; the smaller bandwidth decides, and an unlimited one does
      not count. */
  lemma WindowMeaning(a: nat, b: nat)
    ensures WindowFor(a, b) == WindowFor(b, a) && WindowFor(0, 0) == MAX_WINDOW_SIZE && WindowFor(a, 0) == WindowFor(a, a)
    ensures a != 0 && b != 0 ==> WindowFor(a, b) == Least(WindowFor(a, a), WindowFor(b, b))
    ensures MIN_WINDOW_SIZE < WindowFor(a, a) < MAX_WINDOW_SIZE ==>
      WindowFor(a, a) % MIN_WINDOW_SIZE == 0 && 16 * WindowFor(a, a) <= a < 16 * (WindowFor(a, a) + MIN_WINDOW_SIZE)
    ensures WindowFor(a, a) == MIN_WINDOW_SIZE <==> 0 < a < 2 * 16 * MIN_WINDOW_SIZE
    ensures WindowFor(a, a) == MAX_WINDOW_SIZE <==> a == 0 || a >= 16 * MAX_WINDOW_SIZE
  {
    var m := if a < b then a / WINDOW_SIZE_SCALE else b / WINDOW_SIZE_SCALE;
    assert (if a < b then a else b) / WINDOW_SIZE_SCALE == m;
  }

  function Least(a: nat, b: nat): nat {
    if a < b then a else b
  }

  /** The window that a server tells a client which has told its own: as much as the server's bandwidth allows. */
  function OfferedWindow(incomingBandwidth: nat, windowSize: nat): nat {
    var w := if incomingBandwidth == 0 then MAX_WINDOW_SIZE else incomingBandwidth / WINDOW_SIZE_SCALE * MIN_WINDOW_SIZE;
    var least := if w > windowSize then windowSize else w;
    if least < MIN_WINDOW_SIZE then MIN_WINDOW_SIZE else if least > MAX_WINDOW_SIZE then MAX_WINDOW_SIZE else least
  }

  /** The value between the bounds that is nearest to `x`. */
  function Within(lo: nat, x: nat, hi: nat): (w: nat)
    requires lo <= hi
    ensures lo <= w <= hi && (lo <= x <= hi ==> w == x)
  {
    if x < lo then lo else if x > hi then hi else x
  }

  /** Whatever the other side tells, a window or an mtu never grows, and what was told counts as far as it is within the bounds;
      and a server offers no more than it was told, nor than suits its bandwidth. */
  lemma NarrowMeaning(own: nat, told: nat, incomingBandwidth: nat)
    ensures NarrowWindow(own, told) == Least(own, Within(MIN_WINDOW_SIZE, told, MAX_WINDOW_SIZE))
    ensures NarrowMtu(own, told) == Least(own, Within(MIN_MTU, told, MAX_MTU))
    ensures OfferedWindow(incomingBandwidth, told) == Least(WindowFor(incomingBandwidth, 0), Within(MIN_WINDOW_SIZE, told, MAX_WINDOW_SIZE))
  {
  }

  /** After the handshake the client's window is the smaller of its own and the one for the server's bandwidth, and both
      ends have the same mtu, the smaller of the two. */
  lemma Handshake(window: nat, incomingBandwidth: nat, clientMtu: nat, serverMtu: nat)
    requires MIN_WINDOW_SIZE <= window <= MAX_WINDOW_SIZE
    requires MIN_MTU <= clientMtu <= MAX_MTU && MIN_MTU <= serverMtu <= MAX_MTU
    ensures NarrowWindow(window, OfferedWindow(incomingBandwidth, window)) == Least(window, WindowFor(incomingBandwidth, 0))
    ensures NarrowMtu(clientMtu, NarrowMtu(serverMtu, clientMtu)) == NarrowMtu(serverMtu, clientMtu) == Least(serverMtu, clientMtu)
  {
  }

  function ResetPeer(p: Peer): Peer {
    Peer(Disconnected, 0, 0, 0, 0, 0, THROTTLE_SCALE, THROTTLE_SCALE, 2, 2, MAX_WINDOW_SIZE, DEFAULT_MTU)
  }

  /** The window after the server has answered with its own. */
  function NarrowWindow(own: nat, offered: nat): nat {
    var w := if offered < MIN_WINDOW_SIZE then MIN_WINDOW_SIZE else if offered > MAX_WINDOW_SIZE then MAX_WINDOW_SIZE else offered;
    if w < own then w else own
  }

  /** The mtu when the other side has told its own. */
  function NarrowMtu(own: nat, offered: nat): nat {
    var m := if offered < MIN_MTU then MIN_MTU else if offered > MAX_MTU then MAX_MTU else offered;
    if m < own then m else own
  }

  /** `__enet_peer_throttle`; the acceleration comes from the other side, and the sum wraps. */
  function Throttled(p: Peer, rtt: nat, lastRtt: nat, lastVariance: nat): Peer {
    if lastRtt <= lastVariance then p.(throttle := p.limit)
    else if rtt <= lastRtt then
      var t := (p.throttle + p.acceleration) % U32;
      p.(throttle := if t > p.limit then p.limit else t)
    else if rtt > lastRtt + 2 * lastVariance then
      p.(throttle := if p.throttle > p.deceleration then p.throttle - p.deceleration else 0)
    else p
  }

  /** What a call of `__enet_peer_throttle` goes by. */
  datatype Trip = Trip(rtt: nat, lastRtt: nat, lastVariance: nat)

  predicate Good(t: Trip) {
    t.lastVariance < t.lastRtt && t.rtt <= t.lastRtt
  }

  predicate Bad(t: Trip) {
    t.lastVariance < t.lastRtt && t.rtt > t.lastRtt + 2 * t.lastVariance
  }

  /** A bad round trip never raises the throttle.  A good one never lowers it, exactly if the sum with the acceleration,
      which the other side has chosen, does not wrap; and when times vary as much as they last, the throttle is lifted. */
  lemma ThrottleMoves(p: Peer, t: Trip)
    requires PeerOk(p) && p.acceleration < U32
    ensures Throttled(p, t.rtt, t.lastRtt, t.lastVariance) == p.(throttle := Throttled(p, t.rtt, t.lastRtt, t.lastVariance).throttle)
    ensures
      var now := Throttled(p, t.rtt, t.lastRtt, t.lastVariance).throttle;
      && (Good(t) ==> (p.throttle <= now <= p.limit <==> p.throttle + p.acceleration < U32))
      && (Bad(t) ==> now <= p.throttle && (now == p.throttle <==> p.throttle == 0 || p.deceleration == 0))
      && (t.lastRtt <= t.lastVariance ==> now == p.limit)
      && (t.lastVariance < t.lastRtt && !Good(t) && !Bad(t) ==> now == p.throttle)
  {
  }

  /** A run of calls. */
  function ThrottledBy(p: Peer, ts: seq<Trip>): Peer {
    if ts == [] then p
    else
      var q, t := ThrottledBy(p, ts[..|ts| - 1]), ts[|ts| - 1];
      Throttled(q, t.rtt, t.lastRtt, t.lastVariance)
  }

  lemma GoodStep(p: Peer, t: Trip)
    requires PeerOk(p) && p.acceleration + THROTTLE_SCALE < U32 && Good(t)
    ensures Throttled(p, t.rtt, t.lastRtt, t.lastVariance) == p.(throttle := Least(p.limit, p.throttle + p.acceleration))
  {
  }

  /** Good round trips lift the throttle by equal steps up to its limit, ... */
  lemma {:induction false} GoodRun(p: Peer, ts: seq<Trip>)
    requires PeerOk(p) && p.acceleration + THROTTLE_SCALE < U32 && forall i :: 0 <= i < |ts| ==> Good(ts[i])
    ensures ThrottledBy(p, ts) == p.(throttle := Least(p.limit, p.throttle + |ts| * p.acceleration))
  {
    hide Throttled;
    if ts != [] {
      var n := |ts| - 1;
      var x := n * p.acceleration;
      GoodRun(p, ts[..n]);
      GoodStep(p.(throttle := Least(p.limit, p.throttle + x)), ts[n]);
      assert |ts| * p.acceleration == x + p.acceleration;
    }
  }

  lemma BadStep(p: Peer, t: Trip)
    requires Bad(t)
    ensures Throttled(p, t.rtt, t.lastRtt, t.lastVariance) == p.(throttle := p.throttle - Least(p.throttle, p.deceleration))
  {
  }

  /** ... and bad ones lower it by equal steps down to zero. */
  lemma {:induction false} BadRun(p: Peer, ts: seq<Trip>)
    requires PeerOk(p) && forall i :: 0 <= i < |ts| ==> Bad(ts[i])
    ensures ThrottledBy(p, ts) == p.(throttle := p.throttle - Least(p.throttle, |ts| * p.deceleration))
  {
    hide Throttled;
    if ts != [] {
      var n := |ts| - 1;
      var x := n * p.deceleration;
      BadRun(p, ts[..n]);
      BadStep(p.(throttle := p.throttle - Least(p.throttle, x)), ts[n]);
      assert |ts| * p.deceleration == x + p.deceleration;
    }
  }

  /** Whatever it was before, a reset peer starts without limits, data or throttle; sixteen good round trips make up for a
      collapse of its throttle, no fewer, and as many bad ones make it collapse. */
  lemma ResetStarts(p: Peer, ts: seq<Trip>)
    ensures !Live(ResetPeer(p)) && LimitOf(FlowOf(ResetPeer(p))) == MAX_WINDOW_SIZE && ResetPeer(p).mtu == DEFAULT_MTU
    ensures ResetPeer(p).incoming == ResetPeer(p).outgoing == ResetPeer(p).total == ResetPeer(p).inEpoch == ResetPeer(p).outEpoch == 0
    ensures (forall i :: 0 <= i < |ts| ==> Good(ts[i])) ==>
      (ThrottledBy(ResetPeer(p).(throttle := 0), ts) == ResetPeer(p) <==> |ts| >= 16)
    ensures (forall i :: 0 <= i < |ts| ==> Bad(ts[i])) ==>
      (ThrottledBy(ResetPeer(p), ts) == ResetPeer(p).(throttle := 0) <==> |ts| >= 16)
  {
    LimitMeaning(FlowOf(ResetPeer(p)));
    if forall i :: 0 <= i < |ts| ==> Good(ts[i]) {
      GoodRun(ResetPeer(p).(throttle := 0), ts);
    }
    if forall i :: 0 <= i < |ts| ==> Bad(ts[i]) {
      BadRun(ResetPeer(p), ts);
    }
  }

  // ---------------------------------------------------------------- the host

  class Host {
    const peers: array<Peer>
    var connectedPeers: nat
    var bandwidthLimitedPeers: nat
    var outgoingBandwidth: nat
    var incomingBandwidth: nat
    var recalculate: bool

    /** The counters count the live peers, and the limited ones among them. */
    ghost predicate Valid()
      reads this, peers
    {
      && connectedPeers == Sum(peers[..], LiveOne)
      && bandwidthLimitedPeers == Sum(peers[..], LimitedOne)
      && forall i :: 0 <= i < peers.Length ==> PeerOk(peers[i])
    }

    constructor (count: nat, incoming: nat, outgoing: nat)
      ensures Valid() && fresh(peers) && peers.Length == count
      ensures forall i, p :: 0 <= i < count ==> peers[i] == ResetPeer(p)
      ensures incomingBandwidth == incoming && outgoingBandwidth == outgoing
    {
      peers := new Peer[count](_ => Peer(Disconnected, 0, 0, 0, 0, 0, THROTTLE_SCALE, THROTTLE_SCALE, 2, 2, MAX_WINDOW_SIZE, DEFAULT_MTU));
      connectedPeers, bandwidthLimitedPeers, recalculate := 0, 0, false;
      incomingBandwidth, outgoingBandwidth := incoming, outgoing;
      new;
      NoneLive(peers[..]);
    }

    /** A peer changes without leaving or entering the live states, and without changing its limit. */
    method Put(i: nat, p: Peer)
      requires Valid() && i < peers.Length && PeerOk(p)
      requires LiveOne(p) == LiveOne(peers[i]) && LimitedOne(p) == LimitedOne(peers[i])
      modifies peers
      ensures Valid() && peers[..] == old(peers[..])[i := p]
    {
      hide Sum, PeerOk, LiveOne, LimitedOne;
      SumUpdate(peers[..], i, p, LiveOne);
      SumUpdate(peers[..], i, p, LimitedOne);
      ghost var before := peers[..];
      peers[i] := p;
      assert peers[..] == before[i := p];
    }

    /** `__enet_peer_on_connect`, `__enet_peer_on_disconnect` and the assignment that follows them. */
    method ChangeState(i: nat, state: State)
      requires Valid() && i < peers.Length
      modifies this`connectedPeers, this`bandwidthLimitedPeers, peers
      ensures Valid() && peers[..] == old(peers[..])[i := old(peers[i]).(state := state)]
    {
      hide Sum;
      var p := peers[i];
      var p' := p.(state := state);
      SumUpdate(peers[..], i, p', LiveOne);
      SumUpdate(peers[..], i, p', LimitedOne);
      SumAtLeast(peers[..], i, LiveOne);
      SumAtLeast(peers[..], i, LimitedOne);
      if state == Connected || state == DisconnectLater {
        if p.state != Connected && p.state != DisconnectLater {
          if p.incoming != 0 {
            bandwidthLimitedPeers := bandwidthLimitedPeers + 1;
          }
          connectedPeers := connectedPeers + 1;
        }
      } else if p.state == Connected || p.state == DisconnectLater {
        if p.incoming != 0 {
          bandwidthLimitedPeers := bandwidthLimitedPeers - 1;
        }
        connectedPeers := connectedPeers - 1;
      }
      ghost var before := peers[..];
      peers[i] := p';
      assert peers[..] == before[i := p'];
    }

    /** `__enet_peer_reset` */
    method Reset(i: nat)
      requires Valid() && i < peers.Length
      modifies this`connectedPeers, this`bandwidthLimitedPeers, peers
      ensures Valid() && peers[..] == old(peers[..])[i := ResetPeer(old(peers[i]))]
    {
      hide Valid;
      ChangeState(i, Disconnected);
      Put(i, ResetPeer(peers[i]));
    }

    /** `__enet_host_connect`, for the free peer it has found */
    method Connect(i: nat)
      requires Valid() && i < peers.Length && peers[i].state == Disconnected
      modifies peers
      ensures Valid()
      ensures peers[..] == old(peers[..])[i := old(peers[i]).(state := Connecting, mtu := DEFAULT_MTU,
                window := WindowFor(outgoingBandwidth, outgoingBandwidth))]
    {
      Put(i, peers[i].(state := Connecting, mtu := DEFAULT_MTU, window := WindowFor(outgoingBandwidth, outgoingBandwidth)));
    }

    /** `__enet_protocol_handle_connect`, for the free peer it has found; `told` is the window it answers with. */
    method HandleConnect(i: nat, incoming: nat, outgoing: nat, acceleration: nat, deceleration: nat, mtu: nat, windowSize: nat)
      returns (told: nat)
      requires Valid() && i < peers.Length && peers[i].state == Disconnected
      modifies peers
      ensures Valid()
      ensures peers[..] == old(peers[..])[i := old(peers[i]).(state := AcknowledgingConnect, incoming := incoming, outgoing := outgoing,
                acceleration := acceleration, deceleration := deceleration, window := WindowFor(outgoingBandwidth, incoming),
                mtu := NarrowMtu(DEFAULT_MTU, mtu))]
      ensures told == OfferedWindow(incomingBandwidth, windowSize)
    {
      Put(i, peers[i].(state := AcknowledgingConnect, incoming := incoming, outgoing := outgoing,
                       acceleration := acceleration, deceleration := deceleration, window := WindowFor(outgoingBandwidth, incoming),
                       mtu := NarrowMtu(DEFAULT_MTU, mtu)));
      told := OfferedWindow(incomingBandwidth, windowSize);
    }

    /** `__enet_protocol_handle_verify_connect`; `agreed` says whether the server's parameters are the ones proposed. */
    method VerifyConnect(i: nat, agreed: bool, windowSize: nat, mtu: nat, incoming: nat, outgoing: nat, event: bool)
      requires Valid() && i < peers.Length
      modifies this`connectedPeers, this`bandwidthLimitedPeers, this`recalculate, peers
      ensures Valid()
      ensures peers[..] ==
        if old(peers[i]).state != Connecting then old(peers[..])
        else if !agreed then old(peers[..])[i := old(peers[i]).(state := Zombie)]
        else old(peers[..])[i := old(peers[i]).(window := NarrowWindow(old(peers[i]).window, windowSize),
               mtu := NarrowMtu(old(peers[i]).mtu, mtu), incoming := incoming, outgoing := outgoing, state := if event then Connected else ConnectionSucceeded)]
      ensures recalculate <==> old(recalculate) || (old(peers[i]).state == Connecting && agreed)
    {
      hide Valid;
      if peers[i].state != Connecting {
        return;
      }
      if !agreed {
        ChangeState(i, Zombie);
        return;
      }
      OkAt(i);
      Put(i, peers[i].(window := NarrowWindow(peers[i].window, windowSize), mtu := NarrowMtu(peers[i].mtu, mtu), incoming := incoming, outgoing := outgoing));
      NotifyConnect(i, event);
    }

    lemma OkAt(i: nat)
      requires Valid() && i < peers.Length
      ensures PeerOk(peers[i])
    {
    }

    /** `__enet_protocol_notify_connect` */
    method NotifyConnect(i: nat, event: bool)
      requires Valid() && i < peers.Length
      modifies this`connectedPeers, this`bandwidthLimitedPeers, this`recalculate, peers
      ensures Valid() && recalculate
      ensures peers[..] == old(peers[..])[i := old(peers[i]).(state :=
        if event then Connected else if old(peers[i]).state == Connecting then ConnectionSucceeded else ConnectionPending)]
    {
      recalculate := true;
      ChangeState(i, if event then Connected else if peers[i].state == Connecting then ConnectionSucceeded else ConnectionPending);
    }

    /** `__enet_protocol_dispatch_incoming_commands`, for the peer at the front of the queue */
    method DispatchPeer(i: nat)
      requires Valid() && i < peers.Length
      modifies this`connectedPeers, this`bandwidthLimitedPeers, this`recalculate, peers
      ensures Valid()
      ensures
        var p := old(peers[i]);
        peers[..] ==
          if p.state == ConnectionPending || p.state == ConnectionSucceeded then old(peers[..])[i := p.(state := Connected)]
          else if p.state == Zombie then old(peers[..])[i := ResetPeer(p)]
          else old(peers[..])
      ensures recalculate <==> old(recalculate) || old(peers[i]).state == Zombie
    {
      match peers[i].state
      case ConnectionPending => ChangeState(i, Connected);
      case ConnectionSucceeded => ChangeState(i, Connected);
      case Zombie =>
        recalculate := true;
        Reset(i);
      case _ =>
    }

    /** `__enet_protocol_notify_disconnect` and `__enet_protocol_notify_disconnect_timeout` */
    method NotifyDisconnect(i: nat, event: bool)
      requires Valid() && i < peers.Length
      modifies this`connectedPeers, this`bandwidthLimitedPeers, this`recalculate, peers
      ensures Valid()
      ensures
        var p := old(peers[i]);
        var early := p.state == Disconnected || p.state == AcknowledgingConnect || p.state == ConnectionPending;
        peers[..] == old(peers[..])[i := if early || event then ResetPeer(p) else p.(state := Zombie)]
      ensures
        var s := old(peers[i]).state;
        recalculate <==> old(recalculate) || !(s == Disconnected || s == Connecting || s == AcknowledgingConnect)
    {
      var state := peers[i].state;
      if state != Disconnected && state != Connecting && state != AcknowledgingConnect {
        recalculate := true;
      }
      if state == Disconnected || state == AcknowledgingConnect || state == ConnectionPending {
        Reset(i);
      } else if event {
        Reset(i);
      } else {
        ChangeState(i, Zombie);
      }
    }

    /** `__enet_protocol_handle_disconnect` */
    method HandleDisconnect(i: nat, acknowledge: bool)
      requires Valid() && i < peers.Length
      modifies this`connectedPeers, this`bandwidthLimitedPeers, this`recalculate, peers
      ensures Valid()
      ensures
        var p := old(peers[i]);
        peers[..] == old(peers[..])[i :=
          match p.state
          case Disconnected | Zombie | AcknowledgingDisconnect => p
          case ConnectionSucceeded | Disconnecting | Connecting => p.(state := Zombie)
          case Connected | DisconnectLater => p.(state := if acknowledge then AcknowledgingDisconnect else Zombie)
          case AcknowledgingConnect | ConnectionPending => ResetPeer(p)]
      ensures recalculate <==> old(recalculate) || old(peers[i]).state == ConnectionPending
    {
      var state := peers[i].state;
      if state == Disconnected || state == Zombie || state == AcknowledgingDisconnect {
        assert peers[..] == peers[..][i := peers[i]];
        return;
      }
      if state == ConnectionSucceeded || state == Disconnecting || state == Connecting {
        ChangeState(i, Zombie);
      } else if state != Connected && state != DisconnectLater {
        if state == ConnectionPending {
          recalculate := true;
        }
        Reset(i);
      } else if acknowledge {
        ChangeState(i, AcknowledgingDisconnect);
      } else {
        ChangeState(i, Zombie);
      }
    }

    /** `__enet_peer_disconnect` */
    method Disconnect(i: nat)
      requires Valid() && i < peers.Length
      modifies this`connectedPeers, this`bandwidthLimitedPeers, peers
      ensures Valid()
      ensures
        var p := old(peers[i]);
        peers[..] == old(peers[..])[i :=
          match p.state
          case Disconnecting | Disconnected | AcknowledgingDisconnect | Zombie => p
          case Connected | DisconnectLater => p.(state := Disconnecting)
          case _ => ResetPeer(p)]
    {
      var state := peers[i].state;
      if state == Disconnecting || state == Disconnected || state == AcknowledgingDisconnect || state == Zombie {
        assert peers[..] == peers[..][i := peers[i]];
        return;
      }
      if state == Connected || state == DisconnectLater {
        ChangeState(i, Disconnecting);
      } else {
        Reset(i);
      }
    }

    /** `__enet_peer_disconnect_later`; `pending` says whether the peer has outgoing commands. */
    method DisconnectAfter(i: nat, pending: bool)
      requires Valid() && i < peers.Length
      modifies this`connectedPeers, this`bandwidthLimitedPeers, peers
      ensures Valid()
      ensures
        var p := old(peers[i]);
        peers[..] == old(peers[..])[i :=
          match p.state
          case Disconnecting | Disconnected | AcknowledgingDisconnect | Zombie => p
          case Connected | DisconnectLater => p.(state := if pending then DisconnectLater else Disconnecting)
          case _ => ResetPeer(p)]
    {
      if (peers[i].state == Connected || peers[i].state == DisconnectLater) && pending {
        Put(i, peers[i].(state := DisconnectLater));
      } else {
        Disconnect(i);
      }
    }

    /** `__enet_protocol_handle_bandwidth_limit` */
    method HandleBandwidthLimit(i: nat, incoming: nat, outgoing: nat) returns (ok: bool)
      requires Valid() && i < peers.Length
      modifies this`bandwidthLimitedPeers, peers
      ensures Valid() && (ok <==> Live(old(peers[i])))
      ensures peers[..] ==
        if ok then old(peers[..])[i := old(peers[i]).(incoming := incoming, outgoing := outgoing, window := WindowFor(incoming, outgoingBandwidth))]
        else old(peers[..])
    {
      hide Sum;
      var p := peers[i];
      if p.state != Connected && p.state != DisconnectLater {
        return false;
      }
      var p' := p.(incoming := incoming, outgoing := outgoing, window := WindowFor(incoming, outgoingBandwidth));
      SumUpdate(peers[..], i, p', LiveOne);
      SumUpdate(peers[..], i, p', LimitedOne);
      SumAtLeast(peers[..], i, LimitedOne);
      if p.incoming != 0 {
        bandwidthLimitedPeers := bandwidthLimitedPeers - 1;
      }
      if incoming != 0 {
        bandwidthLimitedPeers := bandwidthLimitedPeers + 1;
      }
      ghost var before := peers[..];
      peers[i] := p';
      assert peers[..] == before[i := p'];
      return true;
    }

    /** `__enet_peer_throttle` */
    method PeerThrottle(i: nat, rtt: nat, lastRtt: nat, lastVariance: nat)
      requires Valid() && i < peers.Length
      modifies peers
      ensures Valid() && peers[..] == old(peers[..])[i := Throttled(old(peers[i]), rtt, lastRtt, lastVariance)]
    {
      Put(i, Throttled(peers[i], rtt, lastRtt, lastVariance));
    }
  }

  lemma {:induction false} NoneLive(ps: seq<Peer>)
    requires forall i :: 0 <= i < |ps| ==> !Live(ps[i])
    ensures Sum(ps, LiveOne) == Sum(ps, LimitedOne) == 0
  {
    if ps != [] {
      NoneLive(ps[..|ps| - 1]);
    }
  }
}
