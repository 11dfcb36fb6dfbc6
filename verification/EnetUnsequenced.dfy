/** Unsequenced packets: a bitmap of the newest 1024 group numbers lets each group through at most once. */
module EnetUnsequenced {
  import opened Bits
  import opened EnetSequence
  import opened Masks

  /** ENET_PEER_UNSEQUENCED_WINDOW_SIZE, ENET_PEER_FREE_UNSEQUENCED_WINDOWS */
  const GROUPS: nat := 1024
  const FREE_GROUPS: nat := 32 * GROUPS
  const WORDS: nat := 32

  /** The first group of the window, and the groups seen, counted from there. */
  datatype Window = Window(base: seq16, seen: set<nat>)

  datatype Outcome = Accepted | Dropped | Failed

  /** The 16-bit group `g`, as it is compared with the window. */
  function Wrapped(g: seq16, base: seq16): nat {
    if g < base then g + SEQ_MOD else g
  }

  /** `__enet_protocol_handle_send_unsequenced`; `queued` says whether the packet could be queued. */
  function Arrive(w: Window, g: seq16, queued: bool): (Window, Outcome) {
    if Wrapped(g, w.base) >= w.base + FREE_GROUPS then (w, Dropped)
    else
      var base := g - g % GROUPS;
      var w1 := if base != w.base then Window(base, {}) else w;
      if base == w.base && g % GROUPS in w.seen then (w, Dropped)
      else if !queued then (w1, Failed)
      else (Window(base, w1.seen + {g % GROUPS}), Accepted)
  }

  // ---------------------------------------------------------------- in place

  /** Bit `k` of the bitmap, which is an array of 32-bit words. */
  predicate SeenIn(words: seq<nat>, k: nat)
    requires |words| == WORDS && k < GROUPS
  {
    HasBit(words[k / 32], k % 32)
  }

  class Peer {
    var incomingUnsequencedGroup: seq16
    const unsequencedWindow: array<nat>

    ghost predicate Valid()
      reads this, unsequencedWindow
    {
      unsequencedWindow.Length == WORDS
    }

    ghost function View(): Window
      reads this, unsequencedWindow
      requires Valid()
    {
      Window(incomingUnsequencedGroup, set k: nat | k < GROUPS && SeenIn(unsequencedWindow[..], k))
    }

    constructor ()
      ensures Valid() && fresh(unsequencedWindow) && View() == Window(0, {})
    {
      incomingUnsequencedGroup := 0;
      unsequencedWindow := new nat[WORDS](_ => 0);
      new;
      NoneSeen(unsequencedWindow[..]);
    }

    method HandleSendUnsequenced(g: seq16, queued: bool) returns (outcome: Outcome)
      requires Valid()
      modifies this, unsequencedWindow
      ensures Valid() && (View(), outcome) == Arrive(old(View()), g, queued)
    {
      hide HasBit;
      var group: nat := g;
      var index := group % GROUPS;
      if group < incomingUnsequencedGroup {
        group := group + SEQ_MOD;
      }
      if group >= incomingUnsequencedGroup + FREE_GROUPS {
        return Dropped;
      }
      group := group % SEQ_MOD;
      assert group == g;
      if group - index != incomingUnsequencedGroup {
        incomingUnsequencedGroup := group - index;
        forall i | 0 <= i < WORDS {
          unsequencedWindow[i] := 0;
        }
        NoneSeen(unsequencedWindow[..]);
        assert View().seen == {};
      } else if Shr(unsequencedWindow[index / 32], index % 32) % 2 == 1 {
        IsBit(unsequencedWindow[index / 32], index % 32);
        return Dropped;
      }
      IsBit(unsequencedWindow[index / 32], index % 32);
      if !queued {
        return Failed;
      }
      ghost var before, seen := unsequencedWindow[..], View().seen;
      MarkSeen(before, index);
      unsequencedWindow[index / 32] := SetBit(unsequencedWindow[index / 32], index % 32);
      assert unsequencedWindow[..] == before[index / 32 := SetBit(before[index / 32], index % 32)];
      assert View().seen == seen + {index};
      return Accepted;
    }
  }

  lemma IsBit(x: nat, k: nat)
    ensures HasBit(x, k) <==> Shr(x, k) % 2 == 1
  {
  }

  lemma NoneSeen(words: seq<nat>)
    requires |words| == WORDS && forall i :: 0 <= i < WORDS ==> words[i] == 0
    ensures forall k: nat :: k < GROUPS ==> !SeenIn(words, k)
  {
    forall k: nat | k < GROUPS ensures !SeenIn(words, k) {
      ZeroBit(k % 32);
    }
  }

  /** Setting one bit adds one group. */
  lemma MarkSeen(words: seq<nat>, index: nat)
    requires |words| == WORDS && index < GROUPS
    ensures
      var words' := words[index / 32 := SetBit(words[index / 32], index % 32)];
      forall k: nat :: k < GROUPS ==> (SeenIn(words', k) <==> SeenIn(words, k) || k == index)
  {
    hide HasBit, SetBit;
    forall k: nat | k < GROUPS
      ensures SeenIn(words[index / 32 := SetBit(words[index / 32], index % 32)], k) <==> SeenIn(words, k) || k == index
    {
      SetBitBits(words[index / 32], index % 32, k % 32);
    }
  }

  // ---------------------------------------------------------------- at most once

  /** The window against unbounded group numbers: it records exactly the groups accepted from `base` on. */
  ghost predicate Records(w: Window, base: nat, accepted: set<nat>) {
    && w.base == Seq16(base) && base % GROUPS == 0
    && (forall u :: u in accepted ==> u < base + GROUPS)
    && (forall k: nat :: k in w.seen <==> k < GROUPS && base + k in accepted)
  }

  /** Neither too old nor too new to be told apart by 16 bits. */
  predicate Recent(u: nat, base: nat) {
    base <= u + FREE_GROUPS && u < base + SEQ_MOD
  }

  lemma GroupDistance(u: nat, base: nat)
    requires Recent(u, base)
    ensures Wrapped(Seq16(u), Seq16(base)) >= Seq16(base) + FREE_GROUPS <==> u < base || u >= base + FREE_GROUPS
  {
    var a, b := base / SEQ_MOD, u / SEQ_MOD;
    assert base == a * SEQ_MOD + Seq16(base) && u == b * SEQ_MOD + Seq16(u);
    assert b == a || b == a + 1 || b + 1 == a;
  }

  lemma GroupBase(u: nat)
    ensures Seq16(u) - Seq16(u) % GROUPS == Seq16(u - u % GROUPS) && Seq16(u) % GROUPS == u % GROUPS
    ensures (u - u % GROUPS) % GROUPS == 0
  {
    var a, s := u / SEQ_MOD, Seq16(u);
    var q, r := s / GROUPS, s % GROUPS;
    assert u == a * SEQ_MOD + s && s == q * GROUPS + r;
    ModUnique(u, GROUPS, 64 * a + q, r);
    ModUnique(u - r, GROUPS, 64 * a + q, 0);
    ModUnique(u - r, SEQ_MOD, a, s - r);
  }

  lemma SameBase(u: nat, base: nat)
    requires base <= u < base + FREE_GROUPS && base % GROUPS == 0
    ensures Seq16(u - u % GROUPS) == Seq16(base) <==> u - u % GROUPS == base
    ensures u - u % GROUPS >= base
    ensures u - u % GROUPS != base ==> u - u % GROUPS >= base + GROUPS
  {
    var v := u - u % GROUPS;
    assert v / GROUPS >= base / GROUPS;
    if v != base {
      AheadUnwrapped(v, base);
    }
  }

  /** The base after group `u` has been looked at. */
  function NewBase(base: nat, u: nat): nat {
    if base <= u < base + FREE_GROUPS then u - u % GROUPS else base
  }

  /** A recent group is accepted at most once, never after the window has passed it, and the window records it. */
  lemma ArriveOnce(w: Window, base: nat, accepted: set<nat>, u: nat, queued: bool)
    requires Records(w, base, accepted) && Recent(u, base)
    ensures
      var (w', outcome) := Arrive(w, Seq16(u), queued);
      && (outcome.Dropped? <==> u < base || u >= base + FREE_GROUPS || u in accepted)
      && (outcome.Accepted? <==> queued && base <= u < base + FREE_GROUPS && u !in accepted)
      && Records(w', NewBase(base, u), if outcome.Accepted? then accepted + {u} else accepted)
      && base <= NewBase(base, u)
  {
    hide Wrapped, Seq16;
    GroupDistance(u, base);
    if base <= u < base + FREE_GROUPS {
      GroupBase(u);
      SameBase(u, base);
    }
  }

  /** A group whose packet could not be queued is not recorded: when it comes again, it is accepted. */
  lemma RetryAccepted(w: Window, base: nat, accepted: set<nat>, u: nat)
    requires Records(w, base, accepted) && Recent(u, base) && base <= u < base + FREE_GROUPS && u !in accepted
    ensures
      var (w1, failed) := Arrive(w, Seq16(u), false);
      var (w2, outcome) := Arrive(w1, Seq16(u), true);
      failed.Failed? && Records(w1, NewBase(base, u), accepted)
      && outcome.Accepted? && Records(w2, NewBase(base, u), accepted + {u})
  {
    hide Arrive, Records, Seq16;
    ArriveOnce(w, base, accepted, u, false);
    var w1 := Arrive(w, Seq16(u), false).0;
    ArriveOnce(w1, NewBase(base, u), accepted, u, true);
    assert NewBase(NewBase(base, u), u) == NewBase(base, u);
  }

  /** A group too old for the window is taken for a new one. */
  lemma StaleGroup(u: nat, base: nat)
    requires u < base < u + SEQ_MOD
    ensures Wrapped(Seq16(u), Seq16(base)) < Seq16(base) + FREE_GROUPS <==> base > u + FREE_GROUPS
  {
    var a, b := base / SEQ_MOD, u / SEQ_MOD;
    assert base == a * SEQ_MOD + Seq16(base) && u == b * SEQ_MOD + Seq16(u);
    assert b == a || b + 1 == a;
  }

  /** Groups arrive one after the other; `delivered` are those accepted, in order. */
  ghost predicate Arrivals(w: Window, base: nat, us: seq<nat>, queued: seq<bool>, delivered: seq<nat>)
    requires |us| == |queued|
    decreases |us|
  {
    if us == [] then delivered == []
    else
      var (w', outcome) := Arrive(w, Seq16(us[0]), queued[0]);
      && Recent(us[0], base)
      && (outcome.Accepted? ==> delivered != [] && delivered[0] == us[0])
      && Arrivals(w', NewBase(base, us[0]), us[1..], queued[1..], if outcome.Accepted? then delivered[1..] else delivered)
  }

  /** No group is delivered twice. */
  lemma {:induction false} AtMostOnce(w: Window, base: nat, accepted: set<nat>, us: seq<nat>, queued: seq<bool>, delivered: seq<nat>)
    requires |us| == |queued| && Records(w, base, accepted) && Arrivals(w, base, us, queued, delivered)
    ensures forall i :: 0 <= i < |delivered| ==> delivered[i] !in accepted
    ensures forall i, j :: 0 <= i < j < |delivered| ==> delivered[i] != delivered[j]
    decreases |us|
  {
    hide Arrive, Records, Recent, NewBase;
    if us != [] {
      var u := us[0];
      var (w', outcome) := Arrive(w, Seq16(u), queued[0]);
      ArriveOnce(w, base, accepted, u, queued[0]);
      if outcome.Accepted? {
        var rest := delivered[1..];
        AtMostOnce(w', NewBase(base, u), accepted + {u}, us[1..], queued[1..], rest);
        assert forall i :: 1 <= i < |delivered| ==> delivered[i] == rest[i - 1];
      } else {
        AtMostOnce(w', NewBase(base, u), accepted, us[1..], queued[1..], delivered);
      }
    }
  }

  /** The base of the window after these groups. */
  function BaseAfter(base: nat, us: seq<nat>): nat
    decreases |us|
  {
    if us == [] then base else BaseAfter(NewBase(base, us[0]), us[1..])
  }

  /** Arrival `k` comes while its group is in or ahead of the window, and its packet can be queued. */
  predicate Welcome(base: nat, us: seq<nat>, queued: seq<bool>, k: nat)
    requires |us| == |queued|
  {
    && k < |us| && queued[k]
    && BaseAfter(base, us[..k]) <= us[k] < BaseAfter(base, us[..k]) + FREE_GROUPS
  }

  /** A new group is delivered exactly if one of its arrivals is welcome. */
  lemma {:induction false} DeliveredExactly(w: Window, base: nat, accepted: set<nat>, us: seq<nat>, queued: seq<bool>, delivered: seq<nat>, u: nat)
    requires |us| == |queued| && Records(w, base, accepted) && Arrivals(w, base, us, queued, delivered) && u !in accepted
    ensures u in delivered <==> exists k: nat :: Welcome(base, us, queued, k) && us[k] == u
    decreases |us|
  {
    hide Arrive, Records, Recent, NewBase, Welcome;
    if us == [] {
      forall k: nat ensures !Welcome(base, us, queued, k) {
        NotWelcome(base, us, queued, k);
      }
    } else {
      var (w', outcome) := Arrive(w, Seq16(us[0]), queued[0]);
      var base' := NewBase(base, us[0]);
      ArriveOnce(w, base, accepted, us[0], queued[0]);
      WelcomeFirst(base, us, queued);
      forall k: nat ensures Welcome(base, us, queued, k + 1) <==> Welcome(base', us[1..], queued[1..], k) {
        WelcomeLater(base, us, queued, k);
      }
      var later := outcome.Accepted? && us[0] == u;
      if !later {
        DeliveredExactly(w', base', if outcome.Accepted? then accepted + {us[0]} else accepted, us[1..], queued[1..],
                         if outcome.Accepted? then delivered[1..] else delivered, u);
        WelcomeShift(base, us, queued, u);
      }
    }
  }

  lemma NotWelcome(base: nat, us: seq<nat>, queued: seq<bool>, k: nat)
    requires us == [] && |us| == |queued|
    ensures !Welcome(base, us, queued, k)
  {
  }

  lemma WelcomeFirst(base: nat, us: seq<nat>, queued: seq<bool>)
    requires |us| == |queued| && us != []
    ensures Welcome(base, us, queued, 0) <==> queued[0] && base <= us[0] < base + FREE_GROUPS
  {
    assert us[..0] == [];
  }

  lemma WelcomeLater(base: nat, us: seq<nat>, queued: seq<bool>, k: nat)
    requires |us| == |queued| && us != []
    ensures Welcome(base, us, queued, k + 1) <==> Welcome(NewBase(base, us[0]), us[1..], queued[1..], k)
  {
    hide NewBase;
    if k + 1 < |us| {
      assert us[..k + 1][0] == us[0] && us[..k + 1][1..] == us[1..][..k];
    }
  }

  lemma WelcomeShift(base: nat, us: seq<nat>, queued: seq<bool>, u: nat)
    requires |us| == |queued| && us != [] && (Welcome(base, us, queued, 0) ==> us[0] != u)
    ensures (exists k: nat :: Welcome(base, us, queued, k) && us[k] == u) <==>
            exists k: nat :: Welcome(NewBase(base, us[0]), us[1..], queued[1..], k) && us[1..][k] == u
  {
    hide NewBase, BaseAfter;
    var base' := NewBase(base, us[0]);
    if k: nat :| Welcome(base, us, queued, k) && us[k] == u {
      assert k > 0;
      WelcomeLater(base, us, queued, k - 1);
      assert us[1..][k - 1] == u;
    }
    if k: nat :| Welcome(base', us[1..], queued[1..], k) && us[1..][k] == u {
      WelcomeLater(base, us, queued, k);
      assert us[k + 1] == u;
    }
  }

  /** In particular from a new connection on. */
  lemma DeliveredOnce(us: seq<nat>, queued: seq<bool>, delivered: seq<nat>)
    requires |us| == |queued| && Arrivals(Window(0, {}), 0, us, queued, delivered)
    ensures forall i, j :: 0 <= i < j < |delivered| ==> delivered[i] != delivered[j]
  {
    AtMostOnce(Window(0, {}), 0, {}, us, queued, delivered);
  }
}
