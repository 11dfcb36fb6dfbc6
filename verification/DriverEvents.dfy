/** The event slots of the Windows driver: a fixed table, a list through it, and a counter, kept in agreement. */
module DriverEvents {
  import opened Bits
  import opened Masks

  const MAX_EVENTS: nat := 32
  /** The vectors a 64-bit word can tell apart. */
  const VECTORS: nat := 64

  datatype Pointer = Null | Object(id: nat)

  /** `reg` is history: which registration the slot holds. */
  datatype Entry = Entry(owner: Pointer, event: Pointer, vector: nat, singleShot: bool, reg: nat)

  datatype Events = Events(buffer: seq<Entry>, list: seq<nat>, used: nat)

  datatype Status = Success | InsufficientResources | BugCheck

  /** The bit of a message or vector; the processor takes shift counts modulo 64. */
  function BitOf(n: nat): (k: nat)
    ensures k < VECTORS
  {
    n % VECTORS
  }

  // ---------------------------------------------------------------- slots and list

  function Selected(list: seq<nat>, p: nat -> bool): seq<nat> {
    if list == [] then []
    else Selected(list[..|list| - 1], p) + if p(list[|list| - 1]) then [list[|list| - 1]] else []
  }

  predicate InList(list: seq<nat>, i: nat) {
    exists k :: 0 <= k < |list| && list[k] == i
  }

  predicate Distinct(list: seq<nat>) {
    forall a, b :: 0 <= a < b < |list| ==> list[a] != list[b]
  }

  /** The counter counts the list, and the list holds exactly the slots in use. */
  ghost predicate Valid(e: Events) {
    && |e.buffer| == MAX_EVENTS && e.used == |e.list| && Distinct(e.list)
    && (forall k :: 0 <= k < |e.list| ==> e.list[k] < MAX_EVENTS && e.buffer[e.list[k]].event != Null)
    && (forall i :: 0 <= i < MAX_EVENTS ==> e.buffer[i].event != Null ==> InList(e.list, i))
  }

  function Blank(x: Entry): Entry {
    x.(owner := Null, event := Null, vector := 0)
  }

  lemma {:induction false} SelectedIs(list: seq<nat>, p: nat -> bool)
    ensures forall i: nat :: InList(Selected(list, p), i) <==> InList(list, i) && p(i)
    ensures Distinct(list) ==> Distinct(Selected(list, p))
    ensures |Selected(list, p)| <= |list|
    decreases |list|
  {
    if list != [] {
      var n := |list| - 1;
      SelectedIs(list[..n], p);
      SelectedStep(list[..n], Selected(list[..n], p), list[n], p);
      assert list == list[..n] + [list[n]];
    }
  }

  lemma SelectedStep(front: seq<nat>, out: seq<nat>, x: nat, p: nat -> bool)
    requires forall i: nat :: InList(out, i) <==> InList(front, i) && p(i)
    requires Distinct(front) ==> Distinct(out)
    ensures forall i: nat :: InList(out + if p(x) then [x] else [], i) <==> InList(front + [x], i) && p(i)
    ensures Distinct(front + [x]) ==> Distinct(out + if p(x) then [x] else [])
  {
    hide InList, Distinct;
    var out' := out + if p(x) then [x] else [];
    assert out' == if p(x) then out + [x] else out;
    InSnoc(front, x);
    InSnoc(out, x);
    DistinctSnoc(front, x);
    DistinctSnoc(out, x);
  }

  lemma InSnoc(list: seq<nat>, x: nat)
    ensures forall i: nat :: InList(list + [x], i) <==> InList(list, i) || i == x
  {
    forall i: nat ensures InList(list + [x], i) <==> InList(list, i) || i == x {
      if k :| 0 <= k < |list| && list[k] == i {
        assert (list + [x])[k] == i;
      }
      assert (list + [x])[|list|] == x;
    }
  }

  lemma DistinctSnoc(list: seq<nat>, x: nat)
    ensures Distinct(list + [x]) <==> Distinct(list) && !InList(list, x)
  {
    var l := list + [x];
    assert forall a :: 0 <= a < |list| ==> l[a] == list[a];
    if Distinct(list) && !InList(list, x) {
      assert Distinct(l);
    }
    if Distinct(l) {
      assert forall a :: 0 <= a < |list| ==> l[a] != l[|list|];
    }
  }

  // ---------------------------------------------------------------- registration

  /** The first free slot, or the size of the table. */
  function FreeSlot(buffer: seq<Entry>, i: nat): (k: nat)
    requires i <= |buffer|
    ensures i <= k <= |buffer| && (k < |buffer| ==> buffer[k].event == Null)
    ensures forall j :: i <= j < k ==> buffer[j].event != Null
    decreases |buffer| - i
  {
    if i == |buffer| || buffer[i].event == Null then i else FreeSlot(buffer, i + 1)
  }

  function Register(e: Events, x: Entry): (Events, Status) {
    if e.used == MAX_EVENTS then (e, InsufficientResources)
    else
      var k := FreeSlot(e.buffer, 0);
      if k == |e.buffer| then (e, BugCheck)
      else (Events(e.buffer[k := x], e.list + [k], e.used + 1), Success)
  }

  /** Fewer list entries than slots leave a slot that is not in the list. */
  lemma {:induction false} Pigeonhole(list: seq<nat>, n: nat)
    requires forall i: nat :: i < n ==> InList(list, i)
    ensures |list| >= n
    decreases n
  {
    if n > 0 {
      assert InList(list, n - 1);
      var k :| 0 <= k < |list| && list[k] == n - 1;
      var rest := list[..k] + list[k + 1..];
      forall i: nat | i < n - 1 ensures InList(rest, i) {
        assert InList(list, i);
        var j :| 0 <= j < |list| && list[j] == i;
        assert rest[if j < k then j else j - 1] == i;
      }
      Pigeonhole(rest, n - 1);
    }
  }

  /** A list of different slots is no longer than the table. */
  lemma {:induction false} DistinctBound(list: seq<nat>, n: nat)
    requires Distinct(list) && forall k :: 0 <= k < |list| ==> list[k] < n
    ensures |list| <= n
    decreases n
  {
    if list == [] {
      return;
    }
    assert list[0] < n;
    if InList(list, n - 1) {
      var k :| 0 <= k < |list| && list[k] == n - 1;
      var rest := list[..k] + list[k + 1..];
      assert forall j :: 0 <= j < |rest| ==> rest[j] == list[if j < k then j else j + 1];
      DistinctBound(rest, n - 1);
    } else {
      forall k | 0 <= k < |list| ensures list[k] < n - 1 {
        assert list[k] == n - 1 ==> InList(list, n - 1);
      }
      DistinctBound(list, n - 1);
    }
  }

  /** The bug check cannot be reached, and the table stays in agreement. */
  lemma RegisterOk(e: Events, x: Entry)
    requires Valid(e) && x.event != Null
    ensures Valid(Register(e, x).0)
    ensures Register(e, x).1 == if e.used == MAX_EVENTS then InsufficientResources else Success
  {
    DistinctBound(e.list, MAX_EVENTS);
    if e.used != MAX_EVENTS {
      var k := FreeSlot(e.buffer, 0);
      if k == |e.buffer| {
        forall i: nat | i < MAX_EVENTS ensures InList(e.list, i) {
          assert e.buffer[i].event != Null;
        }
        Pigeonhole(e.list, MAX_EVENTS);
      }
      var e' := Register(e, x).0;
      InSnoc(e.list, k);
      DistinctSnoc(e.list, k);
    }
  }

  // ---------------------------------------------------------------- removal

  /** The slots that `p` picks are taken off the list and cleared. */
  function Remove(e: Events, p: nat -> bool, q: nat -> bool): Events {
    Events(seq(|e.buffer|, i requires 0 <= i < |e.buffer| => if p(i) && InList(e.list, i) then Blank(e.buffer[i]) else e.buffer[i]),
           Selected(e.list, q), |Selected(e.list, q)|)
  }

  predicate Opposite(p: nat -> bool, q: nat -> bool, n: nat) {
    forall i: nat :: i < n ==> (q(i) <==> !p(i))
  }

  lemma RemoveOk(e: Events, p: nat -> bool, q: nat -> bool)
    requires Valid(e) && Opposite(p, q, MAX_EVENTS)
    ensures Valid(Remove(e, p, q))
  {
    var e' := Remove(e, p, q);
    SelectedIs(e.list, q);
    forall k | 0 <= k < |e'.list| ensures e'.list[k] < MAX_EVENTS && e'.buffer[e'.list[k]].event != Null {
      assert InList(e'.list, e'.list[k]);
    }
    forall i | 0 <= i < MAX_EVENTS && e'.buffer[i].event != Null ensures InList(e'.list, i) {
      assert InList(e.list, i);
    }
  }

  // ---------------------------------------------------------------- interrupts

  /** The slots whose vector is pending, ... */
  function Hit(buffer: seq<Entry>, mask: nat): nat -> bool {
    (i: nat) => i < |buffer| && HasBit(mask, BitOf(buffer[i].vector))
  }

  /** ... those of them that fire only once, and the others. */
  function Spent(buffer: seq<Entry>, mask: nat): nat -> bool {
    (i: nat) => i < |buffer| && HasBit(mask, BitOf(buffer[i].vector)) && buffer[i].singleShot
  }

  function Unspent(buffer: seq<Entry>, mask: nat): nat -> bool {
    (i: nat) => i < |buffer| && !(HasBit(mask, BitOf(buffer[i].vector)) && buffer[i].singleShot)
  }

  /** What the DPC does with the messages in `mask`: the new state, and the slots that are signalled, in order. */
  function Fire(e: Events, mask: nat): (Events, seq<nat>) {
    (Remove(e, Spent(e.buffer, mask), Unspent(e.buffer, mask)), Selected(e.list, Hit(e.buffer, mask)))
  }

  function OwnedBy(buffer: seq<Entry>, owner: Pointer): nat -> bool {
    (i: nat) => i < |buffer| && buffer[i].owner == owner
  }

  function NotOwnedBy(buffer: seq<Entry>, owner: Pointer): nat -> bool {
    (i: nat) => i < |buffer| && buffer[i].owner != owner
  }

  /** Cleanup when a file is closed: its events go. */
  function Close(e: Events, owner: Pointer): Events {
    Remove(e, OwnedBy(e.buffer, owner), NotOwnedBy(e.buffer, owner))
  }

  /** Cleanup when the hardware goes: all events go. */
  function Reset(e: Events): Events {
    Events(seq(|e.buffer|, i requires 0 <= i < |e.buffer| => if InList(e.list, i) then Blank(e.buffer[i]) else e.buffer[i]), [], 0)
  }

  lemma FireOk(e: Events, mask: nat)
    requires Valid(e)
    ensures Valid(Fire(e, mask).0)
    ensures forall i: nat :: InList(Fire(e, mask).1, i) <==> i < MAX_EVENTS && e.buffer[i].event != Null && HasBit(mask, BitOf(e.buffer[i].vector))
    ensures Distinct(Fire(e, mask).1)
  {
    hide HasBit;
    RemoveOk(e, Spent(e.buffer, mask), Unspent(e.buffer, mask));
    SelectedIs(e.list, Hit(e.buffer, mask));
  }

  lemma CloseOk(e: Events, owner: Pointer)
    requires Valid(e)
    ensures Valid(Close(e, owner))
    ensures owner != Null ==> forall i :: 0 <= i < MAX_EVENTS ==>
      Close(e, owner).buffer[i] == if e.buffer[i].event != Null && e.buffer[i].owner == owner then Blank(e.buffer[i]) else e.buffer[i]
  {
    RemoveOk(e, OwnedBy(e.buffer, owner), NotOwnedBy(e.buffer, owner));
  }

  /** A registered event takes a free slot, and every other slot keeps what it holds; from then on the slot is signalled
      exactly by the vector it was registered with, and cleared exactly by such a signal, if it fires once, or when the file
      that registered it is closed. */
  lemma RegisteredEvent(e: Events, x: Entry, mask: nat, owner: Pointer) returns (k: nat)
    requires Valid(e) && x.event != Null && e.used < MAX_EVENTS && owner != Null
    ensures k < MAX_EVENTS && e.buffer[k].event == Null && Valid(Register(e, x).0) && Register(e, x).0.list == e.list + [k]
    ensures forall i :: 0 <= i < MAX_EVENTS && i != k ==> Register(e, x).0.buffer[i] == e.buffer[i]
    ensures InList(Fire(Register(e, x).0, mask).1, k) <==> HasBit(mask, BitOf(x.vector))
    ensures Fire(Register(e, x).0, mask).0.buffer[k] == if HasBit(mask, BitOf(x.vector)) && x.singleShot then Blank(x) else x
    ensures Close(Register(e, x).0, owner).buffer[k] == if x.owner == owner then Blank(x) else x
    ensures Blank(x).event == Null
  {
    hide HasBit, Selected;
    k := FreeSlot(e.buffer, 0);
    RegisterOk(e, x);
    var e' := Register(e, x).0;
    assert e'.list == e.list + [k] && e'.buffer == e.buffer[k := x];
    FireOk(e', mask);
    CloseOk(e', owner);
    InSnoc(e.list, k);
  }

  lemma ResetOk(e: Events)
    requires Valid(e)
    ensures Valid(Reset(e)) && forall i :: 0 <= i < MAX_EVENTS ==> Reset(e).buffer[i].event == Null
  {
  }
}
