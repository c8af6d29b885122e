/** The relational variant of the doctor handlers:
    BackEnd/controller/doctorController.js. The profile, appointment and
    directory handlers behave as in `Doctors`; record creation differs in
    when the id is taken and in how `appointment_id` is stored. */
module SqlDoctors {
  import opened Common
  import opened Schema
  import opened Tables
  import opened Counters
  import opened Storage
  import opened Views
  import opened Accounts
  import opened Doctors

  /** createMedicalRecord. The AUTO_INCREMENT id is taken by the insert
      itself, so a body without `patient_id` fails (the driver refuses an
      undefined parameter; the column is required) with the store
      unchanged. `appointment_id || null` stores 0 as null. */
  method CreateMedicalRecord(st: Store, actor: Actor, b: RecordBody, today: string, now: nat)
    returns (r: Result<Option<RecordWithDoctor>>)
    requires st.Valid()
    modifies st
    ensures st.Valid()
    ensures FindDoctorByUser(old(st.doctors), actor.userId).None? ==>
      r == Err(NotFound(DoctorMissing)) && st.State() == old(st.State())
    ensures FindDoctorByUser(old(st.doctors), actor.userId).Some? && !b.patientId.Given? ==>
      r == Err(ServerError(ServerFault)) && st.State() == old(st.State())
    ensures FindDoctorByUser(old(st.doctors), actor.userId).Some? && b.patientId.Given? ==>
      var alloc := Allocate(old(st.counters), RecordsSeq);
      var m := NewRecord(alloc.1, FindDoctorByUser(old(st.doctors), actor.userId).value.id,
                 b.patientId.value, OrNullNat(b.appointmentId), b, today, now);
      && st.State() == old(st.State()).(records := old(st.records) + [m], counters := alloc.0)
      && r == Ok(AuthorOf(st.State(), m))
  {
    match FindDoctorByUser(st.doctors, actor.userId) {
      case None =>
        return Err(NotFound(DoctorMissing));
      case Some(d) =>
        if !b.patientId.Given? {
          return Err(ServerError(ServerFault));
        }
        var id := st.NextId(RecordsSeq);
        var m := NewRecord(id, d.id, b.patientId.value, OrNullNat(b.appointmentId), b, today, now);
        AppendRecord(old(st.State()), m);
        st.Replace(st.State().(records := st.records + [m]));
        r := Ok(AuthorOf(st.State(), m));
    }
  }

  /** The two variants store a record's appointment differently: given 0,
      the document store keeps 0 and the relational store keeps null; any
      other given id both keep. */
  lemma AppointmentLinkDiffers(f: Field<nat>)
    ensures f == Given(0) ==> GivenOrNull(f) == Some(0) && OrNullNat(f) == None
    ensures TruthyInt(f) ==> GivenOrNull(f) == OrNullNat(f)
    ensures !f.Given? ==> GivenOrNull(f) == OrNullNat(f) == None
  {
  }
}
