/**
 The commanded object at the other end: sixteen priority slots, a relinquish
 default, and the write branch of its request handler (sections 19.2, 20.2.2 and
 20.2.6 of ANSI/ASHRAE 135).
 */
module Peer {
  import opened Wrappers
  import opened Framing
  import opened ActionDb
  import opened ActionHandoff
  import opened ActionRuns

  const SLOTS: nat := 16
  /** Priority eight. */
  const SLOT: nat := 7

  /** `20.0` and `24.0` as binary32; positive finite values are ordered like their bits. */
  const LOWEST: nat := 0x41A0_0000
  const HIGHEST: nat := 0x41C0_0000

  predicate Commissioned(bits: nat) { LOWEST <= bits <= HIGHEST }

  /** A binary32 from its tagged bytes. */
  function DecodeReal(value: seq<nat>): Option<Bits>
    requires forall i :: 0 <= i < |value| ==> value[i] < 0x100
  {
    if |value| == 5 && value[0] == 0x44
    then Some(((value[1] * 0x100 + value[2]) * 0x100 + value[3]) * 0x100 + value[4])
    else None
  }

  predicate AreBytes(value: seq<nat>) { forall i :: 0 <= i < |value| ==> value[i] < 0x100 }

  type Slots = seq<Option<Bits>>

  /** The table after one write; a value the peer does not accept changes nothing. */
  function Written(slots: Slots, value: seq<nat>): Slots
    requires |slots| == SLOTS && AreBytes(value)
  {
    if value == NULL_BYTES then slots[SLOT := None]
    else
      match DecodeReal(value)
      case Some(bits) => if Commissioned(bits) then slots[SLOT := Some(bits)] else slots
      case None => slots
  }

  /** The value in effect: the highest occupied priority, or the default. */
  function Effective(slots: Slots, relinquishDefault: Bits): Bits
  {
    if slots == [] then relinquishDefault
    else if slots[0].Some? then slots[0].value
    else Effective(slots[1..], relinquishDefault)
  }

  class PeerTable {
    const slots: array<Option<Bits>>
    const relinquishDefault: Bits

    ghost predicate Valid()
      reads this
    {
      slots.Length == SLOTS
    }

    constructor (relinquishDefault: Bits)
      ensures Valid() && fresh(slots) && slots[..] == seq(SLOTS, i => None)
      ensures this.relinquishDefault == relinquishDefault
    {
      slots := new Option<Bits>[SLOTS](i => None);
      this.relinquishDefault := relinquishDefault;
    }

    /** Overwrite slot eight in place. */
    method HandleWrite(value: seq<nat>)
      requires Valid() && AreBytes(value)
      modifies slots
      ensures slots[..] == Written(old(slots[..]), value)
    {
      if value == NULL_BYTES {
        slots[SLOT] := None;
      } else {
        var decoded := DecodeReal(value);
        if decoded.Some? && Commissioned(decoded.value) {
          slots[SLOT] := decoded;
        }
      }
    }

    method CurrentValue() returns (v: Bits)
      requires Valid()
      ensures v == Effective(slots[..], relinquishDefault)
    {
      assert slots[0..] == slots[..];
      for i := 0 to SLOTS
        invariant Effective(slots[i..], relinquishDefault) == Effective(slots[..], relinquishDefault)
      {
        assert slots[i..][1..] == slots[i + 1..];
        match slots[i] {
          case Some(bits) => return bits;
          case None =>
        }
      }
      return relinquishDefault;
    }
  }

  // ------------------------------------------------------------------- results

  /** The bytes of a permit decode to the bits they were made from. */
  lemma RealBytesReadBack(bits: Bits)
    ensures AreBytes(RealBytes(bits)) && DecodeReal(RealBytes(bits)) == Some(bits)
  {
  }

  /** Giving slot eight up leaves the value that the other fifteen slots command. */
  lemma {:induction false} RelinquishReveals(slots: Slots, at: nat, relinquishDefault: Bits)
    requires at < |slots|
    ensures Effective(slots[at := None], relinquishDefault)
         == Effective(slots[..at] + slots[at + 1..], relinquishDefault)
  {
    var others := slots[..at] + slots[at + 1..];
    if at == 0 {
      assert slots[0 := None][1..] == slots[1..] && others == slots[1..];
    } else {
      RelinquishReveals(slots[1..], at - 1, relinquishDefault);
      assert slots[at := None][1..] == slots[1..][at - 1 := None];
      assert others[1..] == slots[1..][..at - 1] + slots[1..][at..];
    }
  }

  /** Deliver permits in some order, dropping and repeating at will. */
  ghost function Delivered(slots: Slots, permits: seq<Permit>, order: seq<nat>): Slots
    requires |slots| == SLOTS
    requires forall k :: 0 <= k < |order| ==> order[k] < |permits| && AreBytes(permits[order[k]].write.value)
    ensures |Delivered(slots, permits, order)| == SLOTS
  {
    if order == [] then slots
    else
      var n := |order| - 1;
      Written(Delivered(slots, permits, order[..n]), permits[order[n]].write.value)
  }

  /** The bits of a delivered SET permit, which are those of its admitted row. */
  predicate SetBy(rows: seq<Row>, p: Permit, value: Option<Bits>)
  {
    p.kind.Set? && p.row in rows && p.row.identity.kind.Set? && value == Some(p.row.identity.bits)
  }

  /** Slot eight holds its start, nothing, or the exact bits of a SET that was delivered here. */
  predicate SlotExplained(start: Slots, rows: seq<Row>, permits: seq<Permit>, order: seq<nat>, value: Option<Bits>)
    requires |start| == SLOTS && forall k :: 0 <= k < |order| ==> order[k] < |permits|
  {
    value == start[SLOT] || value == None
    || exists k :: 0 <= k < |order| && SetBy(rows, permits[order[k]], value)
  }

  lemma PermitBytes(p: Permit)
    requires PermitOk(p)
    ensures AreBytes(p.write.value)
    ensures p.kind.Set? ==> DecodeReal(p.write.value) == Some(p.row.identity.bits) && p.write.value != NULL_BYTES
  {
    if p.kind.Set? {
      RealBytesReadBack(p.row.identity.bits);
    }
  }

  lemma {:induction false} DeliveriesExplained(start: Slots, rows: seq<Row>, permits: seq<Permit>, order: seq<nat>)
    requires |start| == SLOTS
    requires forall k :: 0 <= k < |permits| ==> PermitOk(permits[k]) && permits[k].row in rows
    requires forall k :: 0 <= k < |order| ==> order[k] < |permits| && AreBytes(permits[order[k]].write.value)
    ensures SlotExplained(start, rows, permits, order, Delivered(start, permits, order)[SLOT])
    ensures forall k :: 0 <= k < SLOTS && k != SLOT ==> Delivered(start, permits, order)[k] == start[k]
  {
    hide PermitOk, RealBytes, DecodeReal;
    if order != [] {
      var n := |order| - 1;
      DeliveriesExplained(start, rows, permits, order[..n]);
      var p := permits[order[n]];
      PermitBytes(p);
      PermitKind(p);
      var value := Delivered(start, permits, order)[SLOT];
      if k :| 0 <= k < n && SetBy(rows, permits[order[..n][k]], value) {
        assert SetBy(rows, permits[order[k]], value);
      } else if p.kind.Set? && value == Some(p.row.identity.bits) {
        assert SetBy(rows, permits[order[n]], value);
      }
    }
  }

  lemma PermitKind(p: Permit)
    requires PermitOk(p)
    ensures p.kind.Set? ==> p.row.identity.kind.Set?
    ensures p.kind.Release? ==> p.write.value == NULL_BYTES
  {
  }

  /** A slot explained by permits of one target holds the bits of one of that target's rows. */
  lemma ExplainedHere(start: Slots, rows: seq<Row>, permits: seq<Permit>, order: seq<nat>, slot: Option<Bits>,
                      target: Target)
    requires |start| == SLOTS && forall k :: 0 <= k < |order| ==> order[k] < |permits|
    requires forall k :: 0 <= k < |order| ==> permits[order[k]].row.target == target
    requires SlotExplained(start, rows, permits, order, slot)
    ensures slot == start[SLOT] || slot == None
            || exists r :: r in rows && r.target == target && r.identity.kind.Set? && slot == Some(r.identity.bits)
  {
    if slot != start[SLOT] && slot != None {
      var k :| 0 <= k < |order| && SetBy(rows, permits[order[k]], slot);
      assert permits[order[k]].row.target == target;
    }
  }

  /**
   End to end: whatever reaches the peer, in whatever order and however often,
   slot eight holds what it started with, nothing, or the bits of an admitted SET
   row of this peer's own target, and no other slot ever changes.
   */
  lemma PeerShowsOnlyAdmittedBits(steps: seq<Step>, start: Slots, order: seq<nat>, target: Target)
    requires |start| == SLOTS && forall k :: 0 <= k < |order| ==> order[k] < |After(steps).permits|
    requires forall k :: 0 <= k < |order| ==> After(steps).permits[order[k]].row.target == target
    ensures forall k :: 0 <= k < |order| ==> AreBytes(After(steps).permits[order[k]].write.value)
    ensures var slot := Delivered(start, After(steps).permits, order)[SLOT];
            slot == start[SLOT] || slot == None
            || exists r :: r in After(steps).db.rows && r.target == target && r.identity.kind.Set?
                        && slot == Some(r.identity.bits)
    ensures forall k :: 0 <= k < SLOTS && k != SLOT ==>
              Delivered(start, After(steps).permits, order)[k] == start[k]
  {
    hide After, DbOk, PermitOk, SlotExplained, AreBytes, Delivered;
    EveryRunIsOk(steps);
    var w := After(steps);
    forall k | 0 <= k < |order|
      ensures AreBytes(w.permits[order[k]].write.value)
    {
      PermitBytes(w.permits[order[k]]);
    }
    DeliveriesExplained(start, w.db.rows, w.permits, order);
    ExplainedHere(start, w.db.rows, w.permits, order, Delivered(start, w.permits, order)[SLOT], target);
  }
}
