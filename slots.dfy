/** Double booking. The booking handlers refuse a slot (doctor, date, time)
    that already holds an appointment which is not cancelled; the document
    schema (BackEnd/models/appointment.js:20-23) declares a unique index on
    the same three columns that ignores the status, so the store refuses any
    second appointment on a slot, cancelled or not. */
module Slots {
  import opened Schema
  import opened Tables

  /** The key of the compound index. */
  function SlotOf(a: Appointment): (nat, string, string) {
    (a.doctorId, a.date, a.time)
  }

  predicate SameSlot(a: Appointment, b: Appointment) {
    a.doctorId == b.doctorId && a.date == b.date && a.time == b.time
  }

  /** An appointment that still holds its slot. */
  predicate Active(a: Appointment) {
    a.status != Cancelled
  }

  /** The handlers' double-booking query: an appointment on this slot whose
      status is not `cancelled`. */
  predicate SlotTaken(appts: seq<Appointment>, doctorId: nat, date: string, time: string) {
    exists a :: a in appts && a.doctorId == doctorId && a.date == date && a.time == time && Active(a)
  }

  /** The invariant booking keeps: at most one active appointment per slot. */
  predicate ActiveSlotsExclusive(appts: seq<Appointment>) {
    forall i, j :: 0 <= i < j < |appts| && SameSlot(appts[i], appts[j]) ==>
      !Active(appts[i]) || !Active(appts[j])
  }

  /** The compound unique index as declared: at most one appointment per
      slot, whatever its status. */
  predicate RawSlotsUnique(appts: seq<Appointment>) {
    UniqueBy(appts, SlotOf)
  }

  /** Some stored appointment occupies the slot of `a`: the index refuses
      to insert `a`. */
  predicate SlotHeld(appts: seq<Appointment>, a: Appointment) {
    exists b :: b in appts && SameSlot(b, a)
  }

  /** Some stored appointment other than `a`'s own row (another id)
      occupies the slot of `a`: the index refuses to move `a` there. */
  predicate SlotHeldByOther(appts: seq<Appointment>, a: Appointment) {
    exists b :: b in appts && b.id != a.id && SameSlot(b, a)
  }

  /** The declared index is the stronger constraint. */
  lemma RawIndexImpliesExclusive(appts: seq<Appointment>)
    requires RawSlotsUnique(appts)
    ensures ActiveSlotsExclusive(appts)
  {
  }

  /** The index refuses a slot exactly when the handlers' query does, or
      when a cancelled appointment still occupies it. */
  lemma HeldIffTakenOrCancelled(appts: seq<Appointment>, a: Appointment)
    ensures SlotHeld(appts, a) <==>
      SlotTaken(appts, a.doctorId, a.date, a.time) || exists b :: b in appts && SameSlot(b, a) && !Active(b)
  {
  }

  /** An insert the index accepts keeps it unique. */
  lemma BookUnheldSlot(appts: seq<Appointment>, a: Appointment)
    requires RawSlotsUnique(appts)
    requires !SlotHeld(appts, a)
    ensures RawSlotsUnique(appts + [a])
  {
    AppendUnique(appts, a, SlotOf);
  }

  /** A rewrite of row `k` (same id) that the index accepts keeps it
      unique, whether or not the slot moves. */
  lemma MoveToUnheldSlot(appts: seq<Appointment>, k: nat, a: Appointment)
    requires RawSlotsUnique(appts) && UniqueBy(appts, AppointmentId)
    requires k < |appts| && a.id == appts[k].id
    requires !SlotHeldByOther(appts, a)
    ensures RawSlotsUnique(appts[k := a])
  {
    forall i | 0 <= i < |appts| && i != k ensures SlotOf(appts[i]) != SlotOf(a) {
      assert appts[i] in appts && appts[i].id != a.id;
    }
    ReplaceUnique(appts, SlotOf, k, a);
  }

  /** A rewrite that keeps the slot (a change of status or notes only) is
      never refused by the index. */
  lemma KeepingSlotNeverRefused(appts: seq<Appointment>, k: nat, a: Appointment)
    requires RawSlotsUnique(appts)
    requires k < |appts| && a.id == appts[k].id && SameSlot(a, appts[k])
    ensures !SlotHeldByOther(appts, a)
  {
    forall b | b in appts && b.id != a.id ensures !SameSlot(b, a) {
      var i :| 0 <= i < |appts| && appts[i] == b;
      assert i != k && SlotOf(appts[i]) != SlotOf(appts[k]);
    }
  }

  /** Inserting into a slot the handlers see as free keeps the invariant. */
  lemma BookFreeSlot(appts: seq<Appointment>, a: Appointment)
    requires ActiveSlotsExclusive(appts)
    requires !SlotTaken(appts, a.doctorId, a.date, a.time)
    ensures ActiveSlotsExclusive(appts + [a])
  {
    var r := appts + [a];
    forall i, j | 0 <= i < j < |r| && SameSlot(r[i], r[j]) ensures !Active(r[i]) || !Active(r[j]) {
      if j == |appts| {
        assert r[i] in appts;
      }
    }
  }

  /** When the double-booking query answers yes, some stored appointment is
      active on the requested slot. */
  lemma SlotTakenWitness(appts: seq<Appointment>, a: Appointment)
    requires SlotTaken(appts, a.doctorId, a.date, a.time)
    ensures exists i :: 0 <= i < |appts| && SameSlot(appts[i], a) && Active(appts[i])
  {
    var b :| b in appts && b.doctorId == a.doctorId && b.date == a.date && b.time == a.time && Active(b);
    var i :| 0 <= i < |appts| && appts[i] == b;
    assert SameSlot(appts[i], a);
  }

  /** Rewriting one appointment so that it is cancelled keeps the invariant,
      whatever else the rewrite changes. */
  lemma CancelKeepsExclusive(appts: seq<Appointment>, k: nat, a: Appointment)
    requires ActiveSlotsExclusive(appts)
    requires k < |appts| && !Active(a)
    ensures ActiveSlotsExclusive(appts[k := a])
  {
  }

  /** The finding: a slot whose only appointment is cancelled is free for the
      handlers, yet the declared index refuses the second appointment. */
  lemma RawIndexRejectsRebooking()
    ensures var cancelled := Appointment(1, 1, 1, "2025-06-01", "09:00", Common.None, Cancelled, Common.None);
            var rebooked := Appointment(2, 2, 1, "2025-06-01", "09:00", Common.None, Pending, Common.None);
            && RawSlotsUnique([cancelled])
            && !SlotTaken([cancelled], 1, "2025-06-01", "09:00")
            && ActiveSlotsExclusive([cancelled, rebooked])
            && !RawSlotsUnique([cancelled, rebooked])
  {
    var cancelled := Appointment(1, 1, 1, "2025-06-01", "09:00", Common.None, Cancelled, Common.None);
    var rebooked := Appointment(2, 2, 1, "2025-06-01", "09:00", Common.None, Pending, Common.None);
    assert SameSlot([cancelled, rebooked][0], [cancelled, rebooked][1]);
  }
}
