/** Sharing a host's bandwidth among its peers: peers that cannot take the common share get what they can take,
    the rest is shared out again. */
module EnetBandwidth {
  import opened Bits
  import opened EnetSend
  import opened EnetHost

  // ---------------------------------------------------------------- outgoing

  predicate Due(p: Peer, now: nat) {
    Live(p) && p.outEpoch != now
  }

  function DueTotal(now: nat): Peer -> nat {
    (p: Peer) => if Due(p, now) then p.total else 0
  }

  function DueOne(now: nat): Peer -> nat {
    (p: Peer) => if Due(p, now) then 1 else 0
  }

  function LiveTotal(p: Peer): nat {
    if Live(p) then p.total else 0
  }

  function Id(n: nat): nat {
    n
  }

  /** What a peer may be sent in the elapsed time, by its own limit: bytes a second, milliseconds, and whole bytes. */
  function OwnBandwidth(p: Peer, elapsed: nat): (b: nat)
    ensures 1000 * b <= p.incoming * elapsed < 1000 * (b + 1)
  {
    p.incoming * elapsed / 1000
  }

  /** All of the throttle, or as much of it as keeps the data within the bandwidth and not a step less. */
  predicate LargestShare(t: nat, dataTotal: nat, bandwidth: nat) {
    && t <= THROTTLE_SCALE && t * dataTotal <= THROTTLE_SCALE * bandwidth
    && (t == THROTTLE_SCALE || (t + 1) * dataTotal > THROTTLE_SCALE * bandwidth)
  }

  /** The common throttle: all of it, or the share of the bandwidth in the data. */
  function Share(dataTotal: nat, bandwidth: nat): (t: nat)
    ensures t <= THROTTLE_SCALE && LargestShare(t, dataTotal, bandwidth)
  {
    if dataTotal <= bandwidth then THROTTLE_SCALE
    else
      DivBound(bandwidth * THROTTLE_SCALE, dataTotal);
      ShareBound(bandwidth, dataTotal);
      bandwidth * THROTTLE_SCALE / dataTotal
  }

  lemma DivBound(a: nat, d: nat)
    requires d > 0
    ensures a / d * d <= a < a / d * d + d
  {
  }

  lemma ShareBound(b: nat, d: nat)
    requires b < d
    ensures b * THROTTLE_SCALE / d <= THROTTLE_SCALE
  {
    var q := b * THROTTLE_SCALE / d;
    DivBound(b * THROTTLE_SCALE, d);
    if q > THROTTLE_SCALE {
      MulMonotone(THROTTLE_SCALE + 1, q, d);
    }
  }

  /** A peer limited to its own bandwidth. */
  function Adjusted(p: Peer, elapsed: nat, now: nat): Peer
    requires p.total > 0
  {
    var l := OwnBandwidth(p, elapsed) * THROTTLE_SCALE / p.total;
    var limit := if l == 0 then 1 else l;
    p.(limit := limit, throttle := if p.throttle > limit then limit else p.throttle, outEpoch := now, total := 0)
  }

  /** A peer that gets the common throttle. */
  function Common(p: Peer, throttle: nat): Peer {
    p.(limit := throttle, throttle := if p.throttle > throttle then throttle else p.throttle, total := 0)
  }

  /** A peer whose own bandwidth is too small for any throttle but is not cut off altogether. */
  predicate Raised(p: Peer, elapsed: nat) {
    OwnBandwidth(p, elapsed) * THROTTLE_SCALE < p.total
  }

  /** The peer would be sent more than it can take. */
  predicate TooMuch(p: Peer, throttle: nat, elapsed: nat) {
    p.incoming != 0 && throttle * p.total / THROTTLE_SCALE > OwnBandwidth(p, elapsed)
  }

  /** A peer's own limit is the largest that keeps its data within its own bandwidth, but one step is always left to it;
      its throttle is lowered to the limit, and it does not count again. */
  lemma AdjustedMeaning(p: Peer, elapsed: nat, now: nat)
    requires p.total > 0
    ensures
      var q, own := Adjusted(p, elapsed, now), OwnBandwidth(p, elapsed);
      && q == p.(limit := q.limit, throttle := q.throttle, outEpoch := now, total := 0) && !Due(q, now)
      && q.limit >= 1 && (q.limit * p.total > THROTTLE_SCALE * own <==> Raised(p, elapsed))
      && (q.limit + 1) * p.total > THROTTLE_SCALE * own && (Raised(p, elapsed) ==> q.limit == 1)
      && q.throttle <= p.throttle && q.throttle <= q.limit && (q.throttle == p.throttle || q.throttle == q.limit)
  {
    hide OwnBandwidth;
    var own := OwnBandwidth(p, elapsed);
    LimitBound(own, p.total);
    DivBound(own * THROTTLE_SCALE, p.total);
    var l := own * THROTTLE_SCALE / p.total;
    assert (l + 1) * p.total == l * p.total + p.total;
  }

  /** The same throttle for all that are left. */
  lemma CommonMeaning(p: Peer, throttle: nat)
    ensures
      var q := Common(p, throttle);
      && q == p.(limit := throttle, throttle := q.throttle, total := 0)
      && q.throttle <= p.throttle && q.throttle <= throttle && (q.throttle == p.throttle || q.throttle == throttle)
  {
  }

  /** Too much is a byte or more above what the peer can take. */
  lemma TooMuchMeaning(p: Peer, throttle: nat, elapsed: nat)
    ensures TooMuch(p, throttle, elapsed) <==> p.incoming != 0 && throttle * p.total >= THROTTLE_SCALE * (OwnBandwidth(p, elapsed) + 1)
  {
    hide OwnBandwidth;
    var x := throttle * p.total;
    assert THROTTLE_SCALE * (x / THROTTLE_SCALE) <= x < THROTTLE_SCALE * (x / THROTTLE_SCALE) + THROTTLE_SCALE;
  }

  /** How a peer stands during the rounds; `a` is 32 times the data it has been allotted. */
  ghost predicate Standing(was: Peer, p: Peer, a: nat, elapsed: nat, now: nat) {
    || (p == was && a == 0)
    || (&& Due(was, now) && 0 < was.total && was.incoming != 0 && OwnBandwidth(was, elapsed) < was.total
        && p == Adjusted(was, elapsed, now) && a == if Raised(was, elapsed) then 0 else p.limit * was.total)
  }

  ghost predicate AllStanding(was: seq<Peer>, ps: seq<Peer>, alloc: seq<nat>, elapsed: nat, now: nat) {
    |was| == |ps| == |alloc| && forall i :: 0 <= i < |ps| ==> Standing(was[i], ps[i], alloc[i], elapsed, now)
  }

  /** The books: nothing is promised that is not there. */
  ghost predicate Balanced(ps: seq<Peer>, alloc: seq<nat>, now: nat, throttle: nat, data: int, bandwidth: int, remaining: int, budget: nat) {
    && bandwidth >= 0 && data >= Sum(ps, DueTotal(now)) && remaining >= Sum(ps, DueOne(now))
    && throttle * Sum(ps, DueTotal(now)) <= THROTTLE_SCALE * bandwidth
    && Sum<nat>(alloc, Id) + THROTTLE_SCALE * bandwidth <= THROTTLE_SCALE * budget
  }

  /** A peer that takes less than its share leaves enough for the others. */
  lemma TakeOwn(throttle: nat, total: nat, own: nat, rest: nat, bandwidth: nat)
    requires throttle <= THROTTLE_SCALE && throttle * total / THROTTLE_SCALE > own && total <= rest
    requires throttle * rest <= THROTTLE_SCALE * bandwidth
    ensures own < total && own <= bandwidth
    ensures throttle * (rest - total) <= THROTTLE_SCALE * (bandwidth - own)
  {
    assert THROTTLE_SCALE * own <= throttle * total;
    MulMonotone(throttle, THROTTLE_SCALE, total);
    assert throttle * (rest - total) == throttle * rest - throttle * total;
    MulMonotone(total, rest, throttle);
  }

  lemma LimitBound(own: nat, total: nat)
    requires 0 < total
    ensures own * THROTTLE_SCALE / total * total <= THROTTLE_SCALE * own
    ensures own * THROTTLE_SCALE / total == 0 <==> own * THROTTLE_SCALE < total
    ensures own < total ==> own * THROTTLE_SCALE / total <= THROTTLE_SCALE
  {
    DivBound(own * THROTTLE_SCALE, total);
    if own < total {
      ShareBound(own, total);
    }
    var q := own * THROTTLE_SCALE / total;
    if q > 0 {
      MulMonotone(1, q, total);
    }
  }

  lemma TotalPositive(throttle: nat, p: Peer, elapsed: nat)
    requires TooMuch(p, throttle, elapsed)
    ensures p.total > 0
  {
  }

  /** One peer is given its own bandwidth. */
  lemma AdjustOne(was: seq<Peer>, ps: seq<Peer>, alloc: seq<nat>, i: nat, elapsed: nat, now: nat,
                  throttle: nat, data: int, bandwidth: int, remaining: int, budget: nat) returns (a: nat)
    requires AllStanding(was, ps, alloc, elapsed, now) && i < |ps| && throttle <= THROTTLE_SCALE
    requires Balanced(ps, alloc, now, throttle, data, bandwidth, remaining, budget)
    requires Due(ps[i], now) && TooMuch(ps[i], throttle, elapsed)
    ensures ps[i].total > 0 && (PeerOk(ps[i]) ==> PeerOk(Adjusted(ps[i], elapsed, now)))
    ensures |alloc| == |ps|
    ensures
      var own, ps' := OwnBandwidth(ps[i], elapsed), ps[i := Adjusted(ps[i], elapsed, now)];
      && own <= bandwidth && own <= data && remaining >= 1
      && AllStanding(was, ps', alloc[i := a], elapsed, now)
      && Balanced(ps', alloc[i := a], now, throttle, data - own, bandwidth - own, remaining - 1, budget)
  {
    hide Sum, OwnBandwidth;
    var p, own := ps[i], OwnBandwidth(ps[i], elapsed);
    TotalPositive(throttle, p, elapsed);
    var p' := Adjusted(p, elapsed, now);
    a := if Raised(p, elapsed) then 0 else p'.limit * p.total;
    SumUpdate(ps, i, p', DueTotal(now));
    SumUpdate(ps, i, p', DueOne(now));
    SumUpdate<nat>(alloc, i, a, Id);
    SumAtLeast(ps, i, DueTotal(now));
    TakeOwn(throttle, p.total, own, Sum(ps, DueTotal(now)), bandwidth);
    LimitBound(own, p.total);
  }

  /** What the peers that were given their own bandwidth, and so have a new epoch, take together. */
  ghost function Taken(was: seq<Peer>, ps: seq<Peer>, elapsed: nat): nat
    requires |was| == |ps|
  {
    if was == [] then 0
    else
      var n := |was| - 1;
      Taken(was[..n], ps[..n], elapsed) + if ps[n].outEpoch == was[n].outEpoch then 0 else OwnBandwidth(was[n], elapsed)
  }

  lemma {:induction false} TakenMore(was: seq<Peer>, ps: seq<Peer>, i: nat, p: Peer, elapsed: nat)
    requires i < |was| == |ps| && ps[i].outEpoch == was[i].outEpoch != p.outEpoch
    ensures Taken(was, ps[i := p], elapsed) == Taken(was, ps, elapsed) + OwnBandwidth(was[i], elapsed)
    decreases |was|
  {
    hide OwnBandwidth;
    var n := |was| - 1;
    if i < n {
      assert ps[i := p][..n] == ps[..n][i := p];
      TakenMore(was[..n], ps[..n], i, p, elapsed);
    } else {
      assert ps[i := p][..n] == ps[..n];
    }
  }

  lemma {:induction false} TakenSame(was: seq<Peer>, ps: seq<Peer>, qs: seq<Peer>, elapsed: nat)
    requires |was| == |ps| == |qs| && forall i :: 0 <= i < |ps| ==> ps[i].outEpoch == qs[i].outEpoch
    ensures Taken(was, ps, elapsed) == Taken(was, qs, elapsed)
    decreases |was|
  {
    hide OwnBandwidth;
    if was != [] {
      var n := |was| - 1;
      TakenSame(was[..n], ps[..n], qs[..n], elapsed);
    }
  }

  lemma {:induction false} TakenNone(was: seq<Peer>, elapsed: nat)
    ensures Taken(was, was, elapsed) == 0
    decreases |was|
  {
    if was != [] {
      TakenNone(was[..|was| - 1], elapsed);
    }
  }

  /** A peer that is due stands as it was. */
  lemma StillThere(was: seq<Peer>, ps: seq<Peer>, alloc: seq<nat>, i: nat, elapsed: nat, now: nat)
    requires AllStanding(was, ps, alloc, elapsed, now) && i < |ps| && Due(ps[i], now)
    ensures |was| == |ps| && was[i] == ps[i]
  {
  }

  /** One round over the peers. */
  method Round(h: Host, now: nat, elapsed: nat, throttle: nat, data: nat, bandwidth: nat, remaining: nat,
               ghost was: seq<Peer>, ghost alloc: seq<nat>, ghost budget: nat, ghost total: nat)
      returns (data': nat, bandwidth': nat, remaining': nat, again: bool, ghost alloc': seq<nat>)
    requires h.Valid() && throttle <= THROTTLE_SCALE
    requires AllStanding(was, h.peers[..], alloc, elapsed, now)
    requires Balanced(h.peers[..], alloc, now, throttle, data, bandwidth, remaining, budget)
    requires |was| == h.peers.Length && data + Taken(was, h.peers[..], elapsed) == total
    requires bandwidth + Taken(was, h.peers[..], elapsed) == budget
    modifies h.peers
    ensures h.Valid()
    ensures AllStanding(was, h.peers[..], alloc', elapsed, now)
    ensures Balanced(h.peers[..], alloc', now, throttle, data', bandwidth', remaining', budget)
    ensures data' + Taken(was, h.peers[..], elapsed) == total && bandwidth' + Taken(was, h.peers[..], elapsed) == budget
    ensures again ==> remaining' < remaining
    ensures !again ==> h.peers[..] == old(h.peers[..]) && alloc' == alloc && (data', bandwidth', remaining') == (data, bandwidth, remaining)
    ensures !again ==> forall i :: 0 <= i < h.peers.Length ==> Due(h.peers[i], now) ==> !TooMuch(h.peers[i], throttle, elapsed)
  {
    hide Balanced, AllStanding, PeerOk, Sum, OwnBandwidth, Taken;
    data', bandwidth', remaining', again, alloc' := data, bandwidth, remaining, false, alloc;
    var i := 0;
    while i < h.peers.Length
      invariant 0 <= i <= h.peers.Length && h.Valid()
      invariant AllStanding(was, h.peers[..], alloc', elapsed, now)
      invariant Balanced(h.peers[..], alloc', now, throttle, data', bandwidth', remaining', budget)
      invariant data' + Taken(was, h.peers[..], elapsed) == total && bandwidth' + Taken(was, h.peers[..], elapsed) == budget
      invariant remaining' <= remaining && (again ==> remaining' < remaining)
      invariant !again ==> h.peers[..] == old(h.peers[..]) && alloc' == alloc && (data', bandwidth', remaining') == (data, bandwidth, remaining)
      invariant !again ==> forall j :: 0 <= j < i ==> Due(h.peers[j], now) ==> !TooMuch(h.peers[j], throttle, elapsed)
    {
      var p := h.peers[i];
      if Live(p) && p.incoming != 0 && p.outEpoch != now {
        var own := OwnBandwidth(p, elapsed);
        if throttle * p.total / THROTTLE_SCALE > own {
          ghost var a := AdjustOne(was, h.peers[..], alloc', i, elapsed, now, throttle, data', bandwidth', remaining', budget);
          AdjustedCounts(p, elapsed, now);
          StillThere(was, h.peers[..], alloc', i, elapsed, now);
          TakenMore(was, h.peers[..], i, Adjusted(p, elapsed, now), elapsed);
          h.Put(i, Adjusted(p, elapsed, now));
          alloc' := alloc'[i := a];
          again, remaining', bandwidth', data' := true, remaining' - 1, bandwidth' - own, data' - own;
        }
      }
      i := i + 1;
    }
  }

  lemma AdjustedCounts(p: Peer, elapsed: nat, now: nat)
    requires p.total > 0
    ensures LiveOne(Adjusted(p, elapsed, now)) == LiveOne(p) && LimitedOne(Adjusted(p, elapsed, now)) == LimitedOne(p)
  {
  }

  /** The outcome for one peer: its own bandwidth, or the common throttle if that is not too much for it. */
  ghost predicate Allotted(was: Peer, p: Peer, a: nat, throttle: nat, elapsed: nat, now: nat) {
    if !Due(was, now) then p == was && a == 0
    else
      || (&& 0 < was.total && was.incoming != 0 && OwnBandwidth(was, elapsed) < was.total && p == Adjusted(was, elapsed, now)
          && a == if Raised(was, elapsed) then 0 else p.limit * was.total)
      || (p == Common(was, throttle) && !TooMuch(was, throttle, elapsed) && a == throttle * was.total)
  }

  /** The budget for the elapsed time; without a limit, all that 32 bits can count. */
  function Budget(outgoingBandwidth: nat, elapsed: nat): (b: nat)
    ensures outgoingBandwidth != 0 ==> 1000 * b <= outgoingBandwidth * elapsed < 1000 * (b + 1)
  {
    if outgoingBandwidth == 0 then U32 - 1 else outgoingBandwidth * elapsed / 1000
  }

  lemma ShareSuits(ps: seq<Peer>, alloc: seq<nat>, now: nat, throttle: nat, data: nat, bandwidth: nat, remaining: int, budget: nat)
    requires Balanced(ps, alloc, now, throttle, data, bandwidth, remaining, budget)
    ensures Balanced(ps, alloc, now, Share(data, bandwidth), data, bandwidth, remaining, budget)
  {
    hide Sum, Share;
    MulMonotone(Sum(ps, DueTotal(now)), data, Share(data, bandwidth));
  }

  lemma {:induction false} ZeroSum(n: nat)
    ensures Sum<nat>(seq<nat>(n, _ => 0), Id) == 0
  {
    if n > 0 {
      assert seq<nat>(n, _ => 0)[..n - 1] == seq<nat>(n - 1, _ => 0);
      ZeroSum(n - 1);
    }
  }

  /** The peers still due are live; at the start, when none has been given the new epoch, they are all the live ones. */
  lemma DueOrLive(ps: seq<Peer>, now: nat)
    ensures Sum(ps, DueTotal(now)) <= Sum(ps, LiveTotal) && Sum(ps, DueOne(now)) <= Sum(ps, LiveOne)
    ensures (forall i :: 0 <= i < |ps| ==> ps[i].outEpoch != now) ==>
      Sum(ps, DueTotal(now)) == Sum(ps, LiveTotal) && Sum(ps, DueOne(now)) == Sum(ps, LiveOne)
  {
    SumMonotone(ps, ps, DueTotal(now), LiveTotal);
    SumMonotone(ps, ps, DueOne(now), LiveOne);
    if forall i :: 0 <= i < |ps| ==> ps[i].outEpoch != now {
      SumMonotone(ps, ps, LiveTotal, DueTotal(now));
      SumMonotone(ps, ps, LiveOne, DueOne(now));
    }
  }

  lemma NoneLimited(ps: seq<Peer>, throttle: nat, elapsed: nat, now: nat)
    requires Sum(ps, LimitedOne) == 0
    ensures forall i :: 0 <= i < |ps| ==> Due(ps[i], now) ==> !TooMuch(ps[i], throttle, elapsed)
  {
    hide Sum;
    forall i | 0 <= i < |ps| ensures Due(ps[i], now) ==> !TooMuch(ps[i], throttle, elapsed) {
      SumAtLeast(ps, i, LimitedOne);
    }
  }

  method DataTotal(h: Host) returns (data: nat)
    ensures data == Sum(h.peers[..], LiveTotal)
  {
    data := 0;
    var i := 0;
    while i < h.peers.Length
      invariant 0 <= i <= h.peers.Length && data == Sum(h.peers[..i], LiveTotal)
    {
      assert h.peers[..i + 1][..i] == h.peers[..i];
      if Live(h.peers[i]) {
        data := data + h.peers[i].total;
      }
      i := i + 1;
    }
    assert h.peers[..i] == h.peers[..];
  }

  /** The data that is counted; without a limit it does not matter. */
  ghost function Counted(outgoingBandwidth: nat, ps: seq<Peer>): nat {
    if outgoingBandwidth == 0 then U32 - 1 else Sum(ps, LiveTotal)
  }

  /** The outgoing half of `__enet_host_bandwidth_throttle`.  `alloc` is 32 times the data each peer has been allotted:
      together never more than the budget, peers raised to the lowest throttle apart.  The common throttle is the largest
      share that what is left allows, when those that take their own bandwidth have taken it. */
  method ThrottleOutgoing(h: Host, now: nat, elapsed: nat) returns (throttle: nat, ghost alloc: seq<nat>)
    requires h.Valid() && (h.outgoingBandwidth == 0 ==> Sum(h.peers[..], LiveTotal) < U32)
    modifies h.peers
    ensures h.Valid() && |alloc| == h.peers.Length
    ensures forall i :: 0 <= i < h.peers.Length ==> Allotted(old(h.peers[i]), h.peers[i], alloc[i], throttle, elapsed, now)
    ensures Sum<nat>(alloc, Id) <= THROTTLE_SCALE * Budget(h.outgoingBandwidth, elapsed)
    ensures
      var taken := Taken(old(h.peers[..]), h.peers[..], elapsed);
      var data, bandwidth := Counted(h.outgoingBandwidth, old(h.peers[..])) - taken, Budget(h.outgoingBandwidth, elapsed) - taken;
      data >= 0 && bandwidth >= 0 && LargestShare(throttle, data, bandwidth)
    ensures h.outgoingBandwidth == 0 ==> throttle == THROTTLE_SCALE
  {
    hide Sum, AllStanding, PeerOk, OwnBandwidth, Allotted, Balanced, Share, TooMuch, Standing, Taken, LargestShare;
    ghost var was := h.peers[..];
    ghost var budget := Budget(h.outgoingBandwidth, elapsed);
    alloc := seq<nat>(h.peers.Length, _ => 0);
    var remaining := h.connectedPeers;
    var data: nat, bandwidth: nat := U32 - 1, U32 - 1;
    if h.outgoingBandwidth != 0 {
      data := DataTotal(h);
      bandwidth := h.outgoingBandwidth * elapsed / 1000;
    }
    var again := h.bandwidthLimitedPeers > 0;
    throttle := Share(data, bandwidth);
    ghost var total := data;
    TakenNone(was, elapsed);
    AllStart(was, elapsed, now);
    BalancedStart(was, now, data, bandwidth, remaining);
    if !again {
      NoneLimited(was, throttle, elapsed, now);
    }
    while remaining > 0 && again
      invariant h.Valid() && AllStanding(was, h.peers[..], alloc, elapsed, now) && |alloc| == |was| == h.peers.Length
      invariant throttle == Share(data, bandwidth)
      invariant Balanced(h.peers[..], alloc, now, throttle, data, bandwidth, remaining, budget)
      invariant data + Taken(was, h.peers[..], elapsed) == total && bandwidth + Taken(was, h.peers[..], elapsed) == budget
      invariant !again ==> forall i :: 0 <= i < h.peers.Length ==> Due(h.peers[i], now) ==> !TooMuch(h.peers[i], throttle, elapsed)
      decreases remaining, again
    {
      data, bandwidth, remaining, again, alloc := Round(h, now, elapsed, throttle, data, bandwidth, remaining, was, alloc, budget, total);
      StandingLength(was, h.peers[..], alloc, elapsed, now);
      ShareSuits(h.peers[..], alloc, now, throttle, data, bandwidth, remaining, budget);
      throttle := Share(data, bandwidth);
    }
    ghost var rounds := h.peers[..];
    if remaining > 0 {
      alloc := ApplyCommon(h, now, elapsed, throttle, data, bandwidth, remaining, was, alloc, budget);
    } else {
      NoneDue(was, h.peers[..], alloc, throttle, data, bandwidth, elapsed, now, budget);
    }
    TakenSame(was, rounds, h.peers[..], elapsed);
    if data <= bandwidth {
      FullShare(data, bandwidth);
    }
  }

  /** Where there is enough for all, nobody is throttled. */
  lemma FullShare(data: nat, bandwidth: nat)
    ensures Share(data, bandwidth) == THROTTLE_SCALE <==> data <= bandwidth
  {
    if data > bandwidth {
      MulMonotone(bandwidth + 1, data, THROTTLE_SCALE);
    }
  }

  lemma BalancedStart(ps: seq<Peer>, now: nat, data: nat, bandwidth: nat, remaining: nat)
    requires Sum(ps, LiveTotal) <= data && Sum(ps, LiveOne) <= remaining
    ensures Balanced(ps, seq<nat>(|ps|, _ => 0), now, Share(data, bandwidth), data, bandwidth, remaining, bandwidth)
  {
    hide Sum, Share;
    DueOrLive(ps, now);
    ZeroSum(|ps|);
    MulMonotone(Sum(ps, DueTotal(now)), data, Share(data, bandwidth));
  }

  lemma AllStart(was: seq<Peer>, elapsed: nat, now: nat)
    ensures AllStanding(was, was, seq<nat>(|was|, _ => 0), elapsed, now)
  {
  }

  lemma StandingLength(was: seq<Peer>, ps: seq<Peer>, alloc: seq<nat>, elapsed: nat, now: nat)
    requires AllStanding(was, ps, alloc, elapsed, now)
    ensures |was| == |ps| == |alloc|
  {
  }

  /** When no peer remains, all have got their own bandwidth. */
  lemma NoneDue(was: seq<Peer>, ps: seq<Peer>, alloc: seq<nat>, throttle: nat, data: nat, bandwidth: nat, elapsed: nat, now: nat, budget: nat)
    requires AllStanding(was, ps, alloc, elapsed, now) && Balanced(ps, alloc, now, throttle, data, bandwidth, 0, budget)
    ensures |alloc| == |ps| == |was| && Sum<nat>(alloc, Id) <= THROTTLE_SCALE * budget
    ensures forall i :: 0 <= i < |ps| ==> Allotted(was[i], ps[i], alloc[i], throttle, elapsed, now)
  {
    hide Sum, OwnBandwidth;
    forall i | 0 <= i < |ps| ensures Allotted(was[i], ps[i], alloc[i], throttle, elapsed, now) {
      SumAtLeast(ps, i, DueOne(now));
    }
  }

  /** The peers that remain get the common throttle. */
  method ApplyCommon(h: Host, now: nat, elapsed: nat, throttle: nat, ghost data: nat, ghost bandwidth: nat, ghost remaining: nat,
                     ghost was: seq<Peer>, ghost alloc: seq<nat>, ghost budget: nat) returns (ghost alloc': seq<nat>)
    requires h.Valid() && throttle <= THROTTLE_SCALE
    requires AllStanding(was, h.peers[..], alloc, elapsed, now)
    requires Balanced(h.peers[..], alloc, now, throttle, data, bandwidth, remaining, budget)
    requires forall i :: 0 <= i < h.peers.Length ==> Due(h.peers[i], now) ==> !TooMuch(h.peers[i], throttle, elapsed)
    modifies h.peers
    ensures h.Valid() && |alloc'| == |was| == h.peers.Length
    ensures forall i :: 0 <= i < h.peers.Length ==> Allotted(was[i], h.peers[i], alloc'[i], throttle, elapsed, now)
    ensures Sum<nat>(alloc', Id) <= THROTTLE_SCALE * budget
    ensures forall i :: 0 <= i < h.peers.Length ==> h.peers[i].outEpoch == old(h.peers[i]).outEpoch
  {
    hide Applied, Live, Sum, PeerOk, Common, Balanced, AllStanding, LiveOne, LimitedOne, DueTotal, TooMuch;
    alloc' := alloc;
    ghost var ps0 := h.peers[..];
    var i := 0;
    ApplyStart(was, ps0, alloc, throttle, elapsed, now, data, bandwidth, remaining, budget);
    while i < h.peers.Length
      invariant 0 <= i <= h.peers.Length == |was| == |alloc'| && h.Valid()
      invariant Applied(was, ps0, h.peers[..], alloc', i, throttle, elapsed, now, budget)
    {
      var p := h.peers[i];
      ghost var ps := h.peers[..];
      if Live(p) && p.outEpoch != now {
        ApplyOne(was, ps0, ps, alloc', i, throttle, elapsed, now, budget);
        alloc' := alloc'[i := throttle * p.total];
        h.OkAt(i);
        h.Put(i, Common(p, throttle));
      } else {
        ApplyNone(was, ps0, ps, alloc', i, throttle, elapsed, now, budget);
      }
      i := i + 1;
    }
    ApplyEnd(was, ps0, h.peers[..], alloc', throttle, elapsed, now, budget);
  }

  /** Peers up to `i` have what is allotted to them, the others still stand as after the rounds. */
  ghost predicate Applied(was: seq<Peer>, ps0: seq<Peer>, ps: seq<Peer>, alloc: seq<nat>, i: nat, throttle: nat, elapsed: nat, now: nat, budget: nat) {
    && |was| == |ps0| == |ps| == |alloc| && i <= |ps|
    && (forall j :: 0 <= j < i ==> Allotted(was[j], ps[j], alloc[j], throttle, elapsed, now))
    && (forall j :: i <= j < |ps| ==> Standing(was[j], ps[j], alloc[j], elapsed, now))
    && (forall j :: i <= j < |ps| ==> Due(ps[j], now) ==> !TooMuch(ps[j], throttle, elapsed))
    && (forall j :: 0 <= j < |ps| ==> ps[j].outEpoch == ps0[j].outEpoch)
    && Sum<nat>(alloc, Id) + throttle * Sum(ps, DueTotal(now)) <= THROTTLE_SCALE * budget
  }

  lemma ApplyStart(was: seq<Peer>, ps: seq<Peer>, alloc: seq<nat>, throttle: nat, elapsed: nat, now: nat, data: nat, bandwidth: nat, remaining: nat, budget: nat)
    requires AllStanding(was, ps, alloc, elapsed, now) && Balanced(ps, alloc, now, throttle, data, bandwidth, remaining, budget)
    requires forall i :: 0 <= i < |ps| ==> Due(ps[i], now) ==> !TooMuch(ps[i], throttle, elapsed)
    ensures |was| == |ps| == |alloc| && Applied(was, ps, ps, alloc, 0, throttle, elapsed, now, budget)
  {
    hide Sum, Due, TooMuch, Standing, OwnBandwidth;
  }

  lemma ApplyOne(was: seq<Peer>, ps0: seq<Peer>, ps: seq<Peer>, alloc: seq<nat>, i: nat, throttle: nat, elapsed: nat, now: nat, budget: nat)
    requires Applied(was, ps0, ps, alloc, i, throttle, elapsed, now, budget) && i < |ps| && throttle <= THROTTLE_SCALE && Due(ps[i], now)
    ensures |alloc| == |ps|
    ensures Applied(was, ps0, ps[i := Common(ps[i], throttle)], alloc[i := throttle * ps[i].total], i + 1, throttle, elapsed, now, budget)
    ensures LiveOne(Common(ps[i], throttle)) == LiveOne(ps[i]) && LimitedOne(Common(ps[i], throttle)) == LimitedOne(ps[i])
    ensures PeerOk(ps[i]) ==> PeerOk(Common(ps[i], throttle))
  {
    hide Sum, OwnBandwidth, TooMuch, Standing, Allotted, PeerOk;
    var p, ds := ps[i], Sum(ps, DueTotal(now));
    Redistribute(throttle, p.total, ds);
    CommonOne(was[i], p, alloc[i], throttle, elapsed, now);
    SumUpdate(ps, i, Common(p, throttle), DueTotal(now));
    SumUpdate<nat>(alloc, i, throttle * p.total, Id);
  }

  lemma ApplyNone(was: seq<Peer>, ps0: seq<Peer>, ps: seq<Peer>, alloc: seq<nat>, i: nat, throttle: nat, elapsed: nat, now: nat, budget: nat)
    requires Applied(was, ps0, ps, alloc, i, throttle, elapsed, now, budget) && i < |ps| && !Due(ps[i], now)
    ensures Applied(was, ps0, ps, alloc, i + 1, throttle, elapsed, now, budget)
  {
    hide Sum, OwnBandwidth, TooMuch, Standing, Allotted;
    AlreadyAllotted(was[i], ps[i], alloc[i], throttle, elapsed, now);
  }

  lemma ApplyEnd(was: seq<Peer>, ps0: seq<Peer>, ps: seq<Peer>, alloc: seq<nat>, throttle: nat, elapsed: nat, now: nat, budget: nat)
    requires Applied(was, ps0, ps, alloc, |ps|, throttle, elapsed, now, budget)
    ensures |was| == |ps0| == |ps| == |alloc| && Sum<nat>(alloc, Id) <= THROTTLE_SCALE * budget
    ensures forall j :: 0 <= j < |ps| ==> Allotted(was[j], ps[j], alloc[j], throttle, elapsed, now) && ps[j].outEpoch == ps0[j].outEpoch
  {
    hide Sum, Allotted;
  }

  lemma Redistribute(t: nat, total: nat, rest: nat)
    ensures t * (rest - total) == t * rest - t * total
  {
  }

  lemma CommonOne(was: Peer, p: Peer, a: nat, throttle: nat, elapsed: nat, now: nat)
    requires Standing(was, p, a, elapsed, now) && Due(p, now) && !TooMuch(p, throttle, elapsed) && throttle <= THROTTLE_SCALE
    ensures a == 0 && Allotted(was, Common(p, throttle), throttle * p.total, throttle, elapsed, now)
    ensures LiveOne(Common(p, throttle)) == LiveOne(p) && LimitedOne(Common(p, throttle)) == LimitedOne(p)
    ensures PeerOk(p) ==> PeerOk(Common(p, throttle))
    ensures DueTotal(now)(Common(p, throttle)) == 0
  {
    hide OwnBandwidth;
  }

  lemma AlreadyAllotted(was: Peer, p: Peer, a: nat, throttle: nat, elapsed: nat, now: nat)
    requires Standing(was, p, a, elapsed, now) && !Due(p, now)
    ensures Allotted(was, p, a, throttle, elapsed, now)
  {
    hide OwnBandwidth;
  }

  // ---------------------------------------------------------------- incoming

  predicate Unmarked(p: Peer, now: nat) {
    Live(p) && p.inEpoch != now
  }

  function UnmarkedOne(now: nat): Peer -> nat {
    (p: Peer) => if Unmarked(p, now) then 1 else 0
  }

  /** What the marked peers ask for. */
  function MarkedOut(now: nat): Peer -> nat {
    (p: Peer) => if Live(p) && p.inEpoch == now then p.outgoing else 0
  }

  /** What a peer is told: what it asks for, up to the limit. */
  function Told(limit: nat): Peer -> nat {
    (p: Peer) => if !Live(p) then 0 else if p.outgoing <= limit then p.outgoing else limit
  }

  /** Each marked peer asks for no more than the limit. */
  ghost predicate Marks(ps: seq<Peer>, now: nat, limit: nat, bandwidth: int, remaining: int, budget: nat) {
    && remaining == Sum(ps, UnmarkedOne(now)) && bandwidth + Sum(ps, MarkedOut(now)) == budget
    && remaining * limit <= bandwidth
    && forall i :: 0 <= i < |ps| ==> Live(ps[i]) && ps[i].inEpoch == now ==> ps[i].outgoing <= limit
  }

  predicate SamePeer(p: Peer, q: Peer, now: nat) {
    q == p || q == p.(inEpoch := now)
  }

  /** Every peer is told what it asks for or the limit, according to its mark. */
  ghost predicate Levelled(ps: seq<Peer>, now: nat, limit: nat) {
    forall i :: 0 <= i < |ps| ==> Unmarked(ps[i], now) ==> ps[i].outgoing >= limit
  }

  lemma MarkOne(ps: seq<Peer>, i: nat, now: nat, limit: nat, bandwidth: int, remaining: int, budget: nat)
    requires Marks(ps, now, limit, bandwidth, remaining, budget) && i < |ps| && Unmarked(ps[i], now) && ps[i].outgoing <= limit
    ensures ps[i].outgoing <= bandwidth && remaining >= 1
    ensures Marks(ps[i := ps[i].(inEpoch := now)], now, limit, bandwidth - ps[i].outgoing, remaining - 1, budget)
  {
    hide Sum;
    var p := ps[i].(inEpoch := now);
    SumUpdate(ps, i, p, UnmarkedOne(now));
    SumUpdate(ps, i, p, MarkedOut(now));
    SumAtLeast(ps, i, UnmarkedOne(now));
    assert (remaining - 1) * limit == remaining * limit - limit;
    MulMonotone(1, remaining, limit);
  }

  method MarkRound(h: Host, now: nat, limit: nat, bandwidth: nat, remaining: nat, ghost was: seq<Peer>)
      returns (bandwidth': nat, remaining': nat, again: bool)
    requires h.Valid() && Marks(h.peers[..], now, limit, bandwidth, remaining, h.incomingBandwidth)
    requires |was| == h.peers.Length && forall i :: 0 <= i < |was| ==> SamePeer(was[i], h.peers[i], now)
    modifies h.peers
    ensures h.Valid() && Marks(h.peers[..], now, limit, bandwidth', remaining', h.incomingBandwidth)
    ensures forall i :: 0 <= i < |was| ==> SamePeer(was[i], h.peers[i], now)
    ensures again ==> remaining' < remaining
    ensures !again ==> Levelled(h.peers[..], now, limit) && (bandwidth', remaining') == (bandwidth, remaining)
  {
    hide Sum, Marks, PeerOk;
    bandwidth', remaining', again := bandwidth, remaining, false;
    var i := 0;
    while i < h.peers.Length
      invariant 0 <= i <= h.peers.Length && h.Valid()
      invariant Marks(h.peers[..], now, limit, bandwidth', remaining', h.incomingBandwidth)
      invariant forall j :: 0 <= j < |was| ==> SamePeer(was[j], h.peers[j], now)
      invariant remaining' <= remaining && (again ==> remaining' < remaining)
      invariant !again ==> (bandwidth', remaining') == (bandwidth, remaining)
      invariant !again ==> forall j :: 0 <= j < i ==> Unmarked(h.peers[j], now) ==> h.peers[j].outgoing >= limit
    {
      var p := h.peers[i];
      if Live(p) && p.inEpoch != now && !(p.outgoing > 0 && p.outgoing >= limit) {
        MarkOne(h.peers[..], i, now, limit, bandwidth', remaining', h.incomingBandwidth);
        MarkCounts(p, now);
        h.Put(i, p.(inEpoch := now));
        again, remaining', bandwidth' := true, remaining' - 1, bandwidth' - p.outgoing;
      }
      i := i + 1;
    }
  }

  lemma MarkCounts(p: Peer, now: nat)
    ensures LiveOne(p.(inEpoch := now)) == LiveOne(p) && LimitedOne(p.(inEpoch := now)) == LimitedOne(p)
    ensures PeerOk(p) ==> PeerOk(p.(inEpoch := now))
  {
  }

  /** The limit never falls from one round to the next. */
  lemma NextLimit(ps: seq<Peer>, now: nat, limit: nat, bandwidth: nat, remaining: nat, budget: nat)
    requires Marks(ps, now, limit, bandwidth, remaining, budget) && remaining > 0
    ensures bandwidth / remaining >= limit && Marks(ps, now, bandwidth / remaining, bandwidth, remaining, budget)
  {
    hide Sum;
    DivBound(bandwidth, remaining);
    var q := bandwidth / remaining;
    assert remaining * limit == limit * remaining && remaining * q == q * remaining;
    assert remaining * (q + 1) == q * remaining + remaining;
    if q < limit {
      MulMonotone(q + 1, limit, remaining);
    }
  }

  /** What is told is what is left over for the unmarked, and the rest. */
  lemma {:induction false} ToldSum(ps: seq<Peer>, now: nat, limit: nat)
    requires Levelled(ps, now, limit) && forall i :: 0 <= i < |ps| ==> Live(ps[i]) && ps[i].inEpoch == now ==> ps[i].outgoing <= limit
    ensures Sum(ps, Told(limit)) == Sum(ps, MarkedOut(now)) + limit * Sum(ps, UnmarkedOne(now))
  {
    if ps != [] {
      var n := |ps| - 1;
      ToldSum(ps[..n], now, limit);
      var u := Sum(ps[..n], UnmarkedOne(now));
      assert limit * (u + 1) == limit * u + limit;
    }
  }

  /** The incoming half: `told[i]` is the bandwidth that peer `i` is told it may use.  Every peer gets what it asks for
      up to a common limit; together they never get more than the host has, and less than one unit a peer is left over. */
  method ShareIncoming(h: Host, now: nat) returns (told: seq<nat>, limit: nat)
    requires h.Valid()
    requires forall i :: 0 <= i < h.peers.Length ==> h.peers[i].inEpoch != now
    modifies h.peers
    ensures h.Valid() && |told| == h.peers.Length
    ensures forall i :: 0 <= i < |told| ==> told[i] == Told(limit)(old(h.peers[i]))
    ensures Sum(old(h.peers[..]), Told(limit)) <= h.incomingBandwidth
    ensures
      || Sum(old(h.peers[..]), Told(limit)) + h.connectedPeers > h.incomingBandwidth
      || forall i :: 0 <= i < |told| ==> Live(old(h.peers[i])) ==> told[i] == old(h.peers[i]).outgoing
  {
    hide Sum, Marks, PeerOk, Levelled;
    ghost var was := h.peers[..];
    var remaining: nat, bandwidth: nat := h.connectedPeers, h.incomingBandwidth;
    var again := true;
    limit := 0;
    if bandwidth == 0 {
      again := false;
      NothingToShare(was, now);
    }
    MarksStart(was, now, remaining, bandwidth);
    while remaining > 0 && again
      invariant h.Valid() && Marks(h.peers[..], now, limit, bandwidth, remaining, h.incomingBandwidth)
      invariant forall j :: 0 <= j < |was| ==> SamePeer(was[j], h.peers[j], now)
      invariant remaining <= h.connectedPeers
      invariant !again ==> Levelled(h.peers[..], now, limit) && (remaining > 0 ==> limit == bandwidth / remaining)
      decreases remaining, again
    {
      NextLimit(h.peers[..], now, limit, bandwidth, remaining, h.incomingBandwidth);
      limit := bandwidth / remaining;
      bandwidth, remaining, again := MarkRound(h, now, limit, bandwidth, remaining, was);
    }
    AllTold(was, h.peers[..], now, limit, bandwidth, remaining, h.incomingBandwidth, again);
    told := [];
    var i := 0;
    while i < h.peers.Length
      invariant 0 <= i <= h.peers.Length && |told| == i
      invariant forall j :: 0 <= j < i ==> told[j] == Told(limit)(was[j])
    {
      var p := h.peers[i];
      told := told + [if !Live(p) then 0 else if p.inEpoch == now then p.outgoing else limit];
      i := i + 1;
    }
  }

  lemma NothingToShare(ps: seq<Peer>, now: nat)
    ensures Levelled(ps, now, 0)
  {
  }

  lemma MarksStart(ps: seq<Peer>, now: nat, remaining: nat, bandwidth: nat)
    requires remaining == Sum(ps, LiveOne) && forall i :: 0 <= i < |ps| ==> ps[i].inEpoch != now
    ensures Marks(ps, now, 0, bandwidth, remaining, bandwidth)
  {
    hide Sum;
    SumMonotone(ps, ps, LiveOne, UnmarkedOne(now));
    SumMonotone(ps, ps, UnmarkedOne(now), LiveOne);
    NoneMarked(ps, now);
  }

  lemma {:induction false} NoneMarked(ps: seq<Peer>, now: nat)
    requires forall i :: 0 <= i < |ps| ==> ps[i].inEpoch != now
    ensures Sum(ps, MarkedOut(now)) == 0
  {
    if ps != [] {
      NoneMarked(ps[..|ps| - 1], now);
    }
  }

  /** How the rounds end: each peer is marked or has the limit, and the books balance. */
  lemma AllTold(was: seq<Peer>, ps: seq<Peer>, now: nat, limit: nat, bandwidth: nat, remaining: nat, budget: nat, again: bool)
    requires |was| == |ps| && Marks(ps, now, limit, bandwidth, remaining, budget)
    requires forall i :: 0 <= i < |ps| ==> SamePeer(was[i], ps[i], now)
    requires remaining == 0 || (!again && Levelled(ps, now, limit) && limit == bandwidth / remaining)
    ensures forall i :: 0 <= i < |ps| ==>
      Told(limit)(was[i]) == if !Live(ps[i]) then 0 else if ps[i].inEpoch == now then ps[i].outgoing else limit
    ensures Sum(was, Told(limit)) <= budget
    ensures Sum(was, Told(limit)) + remaining > budget
            || forall i :: 0 <= i < |ps| ==> Live(was[i]) ==> Told(limit)(was[i]) == was[i].outgoing
  {
    hide Sum;
    if remaining == 0 {
      forall i | 0 <= i < |ps| ensures !Unmarked(ps[i], now) {
        SumAtLeast(ps, i, UnmarkedOne(now));
      }
    } else {
      DivBound(bandwidth, remaining);
    }
    ToldSum(ps, now, limit);
    SumMonotone(ps, was, Told(limit), Told(limit));
    SumMonotone(was, ps, Told(limit), Told(limit));
    assert limit * remaining == remaining * limit;
  }
}
