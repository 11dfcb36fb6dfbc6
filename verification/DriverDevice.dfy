/** The device context of the driver: its interrupt routines and its event operations, in place. */
module DriverDevice {
  import opened Bits
  import opened Masks
  import opened DriverEvents

  class Device {
    const eventBuffer: array<Entry>
    var eventList: seq<nat>
    var eventBufferUsed: nat
    var pendingISR: nat

    ghost function View(): Events
      reads this, eventBuffer
    {
      Events(eventBuffer[..], eventList, eventBufferUsed)
    }

    constructor ()
      ensures fresh(eventBuffer) && Valid(View()) && pendingISR == 0 && View().used == 0
    {
      eventBuffer := new Entry[MAX_EVENTS](_ => Entry(Null, Null, 0, false, 0));
      eventList, eventBufferUsed, pendingISR := [], 0, 0;
    }

    /** `IVSHMEMInterruptISR`; `queue` says whether it queues the DPC. */
    method InterruptIsr(messageId: nat) returns (queue: bool)
      modifies this`pendingISR
      ensures messageId > 64 ==> !queue && pendingISR == old(pendingISR)
      ensures messageId <= 64 ==> (queue <==> old(pendingISR) == 0) && pendingISR == SetBit(old(pendingISR), BitOf(messageId))
    {
      if messageId > 64 {
        return false;
      }
      queue := pendingISR == 0;
      pendingISR := BitOr(pendingISR, Pow2(BitOf(messageId)));
    }

    /** `IVSHMEMInterruptDPC`; `signals` are the events it sets, in order. */
    method InterruptDpc() returns (signals: seq<Pointer>)
      requires Valid(View())
      modifies this, eventBuffer
      ensures Valid(View()) && pendingISR == 0
      ensures View() == Fire(old(View()), old(pendingISR)).0
      ensures
        var slots := Fire(old(View()), old(pendingISR)).1;
        |signals| == |slots| && forall k :: 0 <= k < |slots| ==> slots[k] < MAX_EVENTS && signals[k] == old(eventBuffer[..])[slots[k]].event
    {
      hide HasBit, Fire, Valid;
      ghost var was := View();
      FireOk(was, pendingISR);
      ValidSize(was);
      var pending := pendingISR;
      pendingISR := 0;
      if pending == 0 {
        NothingFires(was);
        return [];
      }
      signals := WalkList(pending);
    }

    /** The DPC's way through the list, under the list lock. */
    method WalkList(pending: nat) returns (signals: seq<Pointer>)
      requires Valid(View())
      modifies this`eventList, this`eventBufferUsed, eventBuffer
      ensures View() == Fire(old(View()), pending).0
      ensures
        var slots := Fire(old(View()), pending).1;
        |signals| == |slots| && forall k :: 0 <= k < |slots| ==> slots[k] < MAX_EVENTS && signals[k] == old(eventBuffer[..])[slots[k]].event
    {
      hide HasBit, Blank, Selected, Valid, Walked, Signalled, Fire, BitAnd, Pow2, Remove;
      ghost var was := View();
      ValidSize(was);
      signals := [];
      var i := 0;
      ghost var k := 0;
      WalkStart(was, Spent(was.buffer, pending), Unspent(was.buffer, pending));
      SignalStart(was, pending);
      while i < |eventList|
        invariant Walked(was, View(), Spent(was.buffer, pending), Unspent(was.buffer, pending), k) && k <= |was.list|
        invariant i == |Selected(was.list[..k], Unspent(was.buffer, pending))|
        invariant Signalled(was, signals, pending, k)
        decreases |was.list| - k
      {
        WalkFacts(was, View(), Spent(was.buffer, pending), Unspent(was.buffer, pending), k);
        var entry := eventList[i];
        var event := eventBuffer[entry];
        MaskTest(pending, BitOf(event.vector));
        ghost var before := View();
        if BitAnd(pending, Pow2(BitOf(event.vector))) != 0 {
          signals := signals + [event.event];
          if event.singleShot {
            eventList := eventList[..i] + eventList[i + 1..];
            eventBuffer[entry] := event.(owner := Null, event := Null, vector := 0);
            eventBufferUsed := eventBufferUsed - 1;
            IsBlank(event);
            assert eventBuffer[..] == before.buffer[entry := Blank(event)];
          } else {
            i := i + 1;
          }
        } else {
          i := i + 1;
        }
        WalkStep(was, before, View(), Spent(was.buffer, pending), Unspent(was.buffer, pending), k);
        SignalStep(was, signals, pending, k);
        k := k + 1;
      }
      WalkEnd(was, View(), Spent(was.buffer, pending), Unspent(was.buffer, pending), k);
      FireIs(was, pending);
      SignalEnd(was, signals, pending, k);
    }

    /** `ioctl_register_event`, once its input has been checked and the event cleared; `reg` numbers the registration. */
    method RegisterEvent(owner: Pointer, event: Pointer, vector: nat, singleShot: bool, reg: nat) returns (status: Status)
      requires Valid(View()) && event != Null
      modifies this`eventList, this`eventBufferUsed, eventBuffer
      ensures Valid(View()) && (View(), status) == Register(old(View()), Entry(owner, event, vector, singleShot, reg))
      ensures status == if old(eventBufferUsed) == MAX_EVENTS then InsufficientResources else Success
    {
      hide Valid;
      ghost var was, x := View(), Entry(owner, event, vector, singleShot, reg);
      RegisterOk(was, x);
      ValidSize(was);
      if eventBufferUsed == MAX_EVENTS {
        return InsufficientResources;
      }
      var i := 0;
      while i < MAX_EVENTS
        invariant 0 <= i <= MAX_EVENTS && View() == was && FreeSlot(was.buffer, 0) == FreeSlot(was.buffer, i)
      {
        if eventBuffer[i].event == Null {
          eventBuffer[i] := Entry(owner, event, vector, singleShot, reg);
          eventBufferUsed := eventBufferUsed + 1;
          eventList := eventList + [i];
          assert eventBuffer[..] == was.buffer[i := x];
          return Success;
        }
        i := i + 1;
      }
      // the bug check
      assert false;
    }

    /** `IVSHMEMEvtDeviceFileCleanup`: the events of a session are removed. */
    method FileCleanup(owner: Pointer)
      requires Valid(View())
      modifies this`eventList, this`eventBufferUsed, eventBuffer
      ensures Valid(View()) && View() == Close(old(View()), owner)
    {
      hide Blank, Selected, Valid, Walked, Remove;
      ghost var was := View();
      CloseOk(was, owner);
      ValidSize(was);
      ghost var p, q := OwnedBy(was.buffer, owner), NotOwnedBy(was.buffer, owner);
      var i := 0;
      ghost var k := 0;
      WalkStart(was, p, q);
      while i < |eventList|
        invariant Walked(was, View(), p, q, k) && k <= |was.list| && i == |Selected(was.list[..k], q)|
        decreases |was.list| - k
      {
        WalkFacts(was, View(), p, q, k);
        ghost var before := View();
        var entry := eventList[i];
        var event := eventBuffer[entry];
        if event.owner != owner {
          i := i + 1;
        } else {
          eventList := eventList[..i] + eventList[i + 1..];
          eventBuffer[entry] := event.(owner := Null, event := Null, vector := 0);
          eventBufferUsed := eventBufferUsed - 1;
          IsBlank(event);
          assert eventBuffer[..] == before.buffer[entry := Blank(event)];
        }
        WalkStep(was, before, View(), p, q, k);
        k := k + 1;
      }
      WalkEnd(was, View(), p, q, k);
    }

    /** The end of `IVSHMEMEvtDeviceReleaseHardware`: all events go. */
    method ReleaseEvents()
      requires Valid(View())
      modifies this`eventList, this`eventBufferUsed, eventBuffer
      ensures Valid(View()) && View() == Reset(old(View()))
    {
      hide Valid, InList, Blank;
      ghost var was := View();
      ResetOk(was);
      ValidSize(was);
      ListBound(was);
      var i := 0;
      while i < |eventList|
        invariant 0 <= i <= |eventList| && eventList == was.list && eventBuffer.Length == MAX_EVENTS
        invariant forall j: nat :: j < MAX_EVENTS ==>
          eventBuffer[j] == if InList(was.list[..i], j) then Blank(was.buffer[j]) else was.buffer[j]
      {
        var entry := eventList[i];
        TakeNext(was.list, i);
        InSnoc(was.list[..i], entry);
        NotYet(was, i);
        IsBlank(eventBuffer[entry]);
        eventBuffer[entry] := eventBuffer[entry].(owner := Null, event := Null, vector := 0);
        i := i + 1;
      }
      assert was.list[..i] == was.list;
      eventList := [];
      eventBufferUsed := 0;
      assert eventBuffer[..] == Reset(was).buffer;
    }
  }

  lemma WalkStart(was: Events, p: nat -> bool, q: nat -> bool)
    requires Valid(was) && Opposite(p, q, MAX_EVENTS)
    ensures Walked(was, was, p, q, 0) && |Selected(was.list[..0], q)| == 0
  {
    hide Blank;
    assert was.list[..0] == [];
  }

  lemma SignalStart(was: Events, mask: nat)
    requires Valid(was)
    ensures Signalled(was, [], mask, 0)
  {
    hide HasBit;
    assert was.list[..0] == [];
  }

  lemma FireIs(was: Events, mask: nat)
    ensures Fire(was, mask).0 == Remove(was, Spent(was.buffer, mask), Unspent(was.buffer, mask))
  {
    hide HasBit, Remove, Selected;
  }

  lemma SignalEnd(was: Events, signals: seq<Pointer>, mask: nat, k: nat)
    requires Signalled(was, signals, mask, k) && was.list[..k] == was.list
    ensures
      var slots := Fire(was, mask).1;
      |signals| == |slots| && forall k :: 0 <= k < |slots| ==> slots[k] < MAX_EVENTS && signals[k] == was.buffer[slots[k]].event
    ensures |was.buffer| == MAX_EVENTS
  {
    hide HasBit, Blank, Remove;
  }

  lemma IsBlank(x: Entry)
    ensures Blank(x) == x.(owner := Null, event := Null, vector := 0)
  {
  }

  /** After `k` entries: those that stay, then those not looked at yet; the spent slots are cleared. */
  ghost predicate Walked(was: Events, e: Events, p: nat -> bool, q: nat -> bool, k: nat) {
    && Valid(was) && k <= |was.list| && |e.buffer| == MAX_EVENTS && e.used == |e.list|
    && Opposite(p, q, MAX_EVENTS) && e.list == Selected(was.list[..k], q) + was.list[k..]
    && forall j :: 0 <= j < MAX_EVENTS ==>
      e.buffer[j] == if InList(was.list[..k], j) && p(j) then Blank(was.buffer[j]) else was.buffer[j]
  }

  /** The events set so far. */
  ghost predicate Signalled(was: Events, signals: seq<Pointer>, mask: nat, k: nat) {
    && Valid(was) && k <= |was.list|
    && var slots := Selected(was.list[..k], Hit(was.buffer, mask));
       |signals| == |slots| && forall j :: 0 <= j < |slots| ==> slots[j] < MAX_EVENTS && signals[j] == was.buffer[slots[j]].event
  }

  lemma NothingFires(was: Events)
    requires Valid(was)
    ensures was == Fire(was, 0).0 && Fire(was, 0).1 == []
  {
    hide HasBit, Selected;
    forall k: nat ensures !HasBit(0, k) {
      ZeroBit(k);
    }
    SelectedAll(was.list, Unspent(was.buffer, 0));
    SelectedNone(was.list, Hit(was.buffer, 0));
    var b := Fire(was, 0).0.buffer;
    forall i | 0 <= i < MAX_EVENTS ensures b[i] == was.buffer[i] {
      assert !Spent(was.buffer, 0)(i);
    }
    assert was.buffer == b;
  }

  lemma {:induction false} SelectedAll(list: seq<nat>, p: nat -> bool)
    requires forall k :: 0 <= k < |list| ==> p(list[k])
    ensures Selected(list, p) == list
  {
    if list != [] {
      SelectedAll(list[..|list| - 1], p);
    }
  }

  lemma {:induction false} SelectedNone(list: seq<nat>, p: nat -> bool)
    requires forall k :: 0 <= k < |list| ==> !p(list[k])
    ensures Selected(list, p) == []
  {
    if list != [] {
      SelectedNone(list[..|list| - 1], p);
    }
  }

  /** The entry looked at next has not been touched. */
  lemma WalkFacts(was: Events, e: Events, p: nat -> bool, q: nat -> bool, k: nat)
    requires Walked(was, e, p, q, k) && k <= |was.list|
    requires |Selected(was.list[..k], q)| < |e.list|
    ensures Valid(was) && e.used == |e.list| && |e.buffer| == |was.buffer| == MAX_EVENTS && k < |was.list| && was.list[k] < MAX_EVENTS
    ensures e.list[|Selected(was.list[..k], q)|] == was.list[k]
    ensures e.buffer[was.list[k]] == was.buffer[was.list[k]]
  {
    hide HasBit, Blank;
    var x := was.list[k];
    assert !InList(was.list[..k], x);
  }

  lemma TakeNext(list: seq<nat>, k: nat)
    requires k < |list|
    ensures list[..k + 1] == list[..k] + [list[k]] && list[k..] == [list[k]] + list[k + 1..]
    ensures list[..k + 1][..k] == list[..k]
  {
  }

  lemma WalkStep(was: Events, e: Events, e': Events, p: nat -> bool, q: nat -> bool, k: nat)
    requires Walked(was, e, p, q, k) && k < |was.list| && was.list[k] < MAX_EVENTS && |e.buffer| == |was.buffer| == MAX_EVENTS && e.used >= 1
    requires
      var x, i := was.list[k], |Selected(was.list[..k], q)|;
      if p(x) then
        i < |e.list| && e' == Events(e.buffer[x := Blank(was.buffer[x])], e.list[..i] + e.list[i + 1..], e.used - 1)
      else e' == e
    ensures Walked(was, e', p, q, k + 1)
    ensures |Selected(was.list[..k + 1], q)|
      == |Selected(was.list[..k], q)| + if p(was.list[k]) then 0 else 1
  {
    hide HasBit, Blank, Valid;
    var x, kept := was.list[k], Selected(was.list[..k], q);
    assert |was.buffer| == MAX_EVENTS by {
      ValidSize(was);
    }
    TakeNext(was.list, k);
    InSnoc(was.list[..k], x);
    if p(x) {
      assert e.list[..|kept|] + e.list[|kept| + 1..] == kept + was.list[k + 1..];
      assert Selected(was.list[..k + 1], q) == kept;
    } else {
      assert kept + was.list[k..] == kept + [x] + was.list[k + 1..];
      assert Selected(was.list[..k + 1], q) == kept + [x];
    }
  }

  lemma ValidSize(e: Events)
    requires Valid(e)
    ensures |e.buffer| == MAX_EVENTS && e.used == |e.list|
  {
  }

  lemma SignalStep(was: Events, signals: seq<Pointer>, mask: nat, k: nat)
    requires Valid(was) && k < |was.list| && was.list[k] < MAX_EVENTS
    requires
      var x := was.list[k];
      if Hit(was.buffer, mask)(x) then signals != [] && signals[|signals| - 1] == was.buffer[x].event && Signalled(was, signals[..|signals| - 1], mask, k)
      else Signalled(was, signals, mask, k)
    ensures Signalled(was, signals, mask, k + 1)
  {
    hide HasBit, Valid;
    TakeNext(was.list, k);
  }

  lemma WalkEnd(was: Events, e: Events, p: nat -> bool, q: nat -> bool, k: nat)
    requires Walked(was, e, p, q, k) && k <= |was.list| && |e.list| <= |Selected(was.list[..k], q)|
    ensures k == |was.list| && was.list[..k] == was.list && e == Remove(was, p, q)
  {
    hide Blank;
    assert was.list[k..] == [];
    assert was.list[..k] == was.list;
    assert e.buffer == Remove(was, p, q).buffer;
  }

  lemma ListBound(e: Events)
    requires Valid(e)
    ensures forall k :: 0 <= k < |e.list| ==> e.list[k] < MAX_EVENTS
    ensures forall j: nat :: !InList(e.list[..0], j)
  {
  }

  lemma NotYet(e: Events, k: nat)
    requires Valid(e) && k < |e.list|
    ensures !InList(e.list[..k], e.list[k]) && e.list[..0] == []
  {
  }
}
