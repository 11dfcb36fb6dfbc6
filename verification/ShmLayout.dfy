/** The shared memory: global registers, a mailbox for each client, the stage; and how a client claims its slot. */
module ShmLayout {
  import opened Bits
  import opened Masks

  const SUBMIT: nat := 0
  const RETVAL: nat := 4
  const SHM_SLOT_MASK: nat := 8
  const LOCK: nat := 12
  const CLAIM_ID: nat := 16
  const CONNECT: nat := 20
  const FBSTART: nat := 24
  const MEMSIZE: nat := 32
  const SWAP_BUFFERS_SYNC: nat := 40
  const GLMAJ: nat := 44
  const GLMIN: nat := 48
  const RETVAL_V: nat := 52
  const STAGE_CLIENT_ID: nat := 56
  const STAGE_SIZE: nat := 60
  const FIFO_SIZE: nat := 64
  const MAX_CLIENTS_REGISTER: nat := 68

  const SLOT_SIZE: nat := 0x1000
  const MAX_CLIENTS: nat := 16
  const MAILBOXES_OFFSET: nat := 0x1000
  const STAGE_OFFSET: nat := MAILBOXES_OFFSET + SLOT_SIZE * MAX_CLIENTS

  const GLOBALS: set<nat> := {SHM_SLOT_MASK, LOCK, CLAIM_ID, CONNECT, FBSTART, MEMSIZE, SWAP_BUFFERS_SYNC, GLMAJ, GLMIN,
                              STAGE_CLIENT_ID, STAGE_SIZE, FIFO_SIZE, MAX_CLIENTS_REGISTER}

  function SlotOffset(id: nat): nat
    requires id >= 1
  {
    MAILBOXES_OFFSET + (id - 1) * SLOT_SIZE
  }

  /** `pb_resolve_offset`; a client without a slot has `id` zero. */
  function Resolve(id: nat, offs: nat): nat {
    if id > 0 && offs < SLOT_SIZE && offs !in GLOBALS then SlotOffset(id) + offs else offs
  }

  /** A client's own registers are in its mailbox, as far as the mailbox reaches. */
  lemma OwnMailbox(id: nat, offs: nat)
    requires 1 <= id <= MAX_CLIENTS && offs < SLOT_SIZE && offs !in GLOBALS
    ensures SlotOffset(id) <= Resolve(id, offs) < SlotOffset(id) + SLOT_SIZE <= STAGE_OFFSET
    ensures Resolve(id, SUBMIT) == SlotOffset(id) != Resolve(0, SUBMIT) == SUBMIT && Resolve(id, RETVAL) == SlotOffset(id) + RETVAL
    ensures SlotOffset(id) >= SLOT_SIZE && Resolve(id, RETVAL_V) + (SLOT_SIZE - RETVAL_V) == SlotOffset(id) + SLOT_SIZE
  {
  }

  /** Different clients never reach the same word through their own registers, nor a global register, nor the stage. */
  lemma MailboxesApart(a: nat, b: nat, x: nat, y: nat)
    requires 1 <= a <= MAX_CLIENTS && 1 <= b <= MAX_CLIENTS && x < SLOT_SIZE && x !in GLOBALS
    ensures y < SLOT_SIZE && y !in GLOBALS ==> (Resolve(a, x) == Resolve(b, y) <==> a == b && x == y)
    ensures y in GLOBALS ==> Resolve(a, x) != Resolve(b, y)
    ensures y >= STAGE_OFFSET ==> Resolve(a, x) < Resolve(b, y)
  {
    OwnMailbox(a, x);
    if y < SLOT_SIZE && y !in GLOBALS {
      OwnMailbox(b, y);
    }
  }

  // ---------------------------------------------------------------- slots

  /** Slots are numbered from one, their bits from zero. */
  predicate Taken(mask: nat, slot: nat)
    requires slot >= 1
  {
    HasBit(mask, slot - 1)
  }

  /** The first free slot from `slot` to `max`, or zero. */
  function FirstFree(mask: nat, slot: nat, max: nat): nat
    requires slot >= 1
    decreases max + 1 - slot
  {
    if slot > max then 0 else if Taken(mask, slot) then FirstFree(mask, slot + 1, max) else slot
  }

  lemma {:induction false} FirstFreeIs(mask: nat, slot: nat, max: nat)
    requires slot >= 1
    ensures
      var s := FirstFree(mask, slot, max);
      && (s != 0 ==> slot <= s <= max && !Taken(mask, s))
      && forall t :: slot <= t <= max && (s == 0 || t < s) ==> Taken(mask, t)
    decreases max + 1 - slot
  {
    hide Taken;
    if slot <= max && Taken(mask, slot) {
      FirstFreeIs(mask, slot + 1, max);
    }
  }

  /** `shm_claim_slot`: the slot, and the mask it writes back. */
  method ClaimSlot(mask: nat, maxClients: nat) returns (slot: nat, mask': nat)
    ensures slot == FirstFree(mask, 1, if maxClients > 32 then 32 else maxClients)
    ensures mask' == if slot == 0 then mask else SetBit(mask, slot - 1)
  {
    hide HasBit;
    var maxSlots := if maxClients > 32 then 32 else maxClients;
    slot := 1;
    while slot <= maxSlots
      invariant 1 <= slot && FirstFree(mask, 1, maxSlots) == FirstFree(mask, slot, maxSlots)
    {
      MaskTest(mask, slot - 1);
      if BitAnd(mask, Pow2(slot - 1)) == 0 {
        return slot, SetBit(mask, slot - 1);
      }
      slot := slot + 1;
    }
    return 0, mask;
  }

  /** A claimed slot was free; a released one is free again; the others do not change. */
  lemma ClaimAndRelease(mask: nat, slot: nat, t: nat)
    requires 1 <= slot <= 32 && 1 <= t <= 32
    ensures Taken(SetBit(mask, slot - 1), t) <==> Taken(mask, t) || t == slot
    ensures Taken(ClearBit(mask, slot - 1), t) <==> Taken(mask, t) && t != slot
  {
    hide HasBit, SetBit, ClearBit;
    SetBitBits(mask, slot - 1, t - 1);
    ClearBitBits(mask, slot - 1, t - 1);
  }
}
