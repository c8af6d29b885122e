/** The doctor handlers: BackEnd/controllers/doctorController.js. A doctor's
    own account and profile, their appointments, the public directory, and
    the medical records a doctor writes. */
module Doctors {
  import opened Common
  import opened Schema
  import opened Tables
  import opened Ordering
  import opened Counters
  import opened Storage
  import opened Views
  import opened Accounts
  import Appointments

  const UserMissing: string := "User not found"
  const DoctorMissing: string := "Doctor not found"
  const RecordMissing: string := "Medical record not found"
  const NoFields: string := "No fields to update"

  // ---------------------------------------------------------------- profile

  /** getDoctorProfile: the caller's account and their doctor profile, or
      null when they have none. */
  function GetDoctorProfile(db: Db, actor: Actor): (r: Result<OwnProfile<Doctor>>)
    ensures r.Err? <==> forall u :: u in db.users ==> u.id != actor.userId
    ensures r.Err? ==> r.error == NotFound(UserMissing)
    ensures r.Ok? ==> exists u :: u in db.users && u.id == actor.userId && r.value.user == AccountOf(u)
    ensures r.Ok? ==> (r.value.profile.None? <==> forall d :: d in db.doctors ==> d.userId != actor.userId)
    ensures r.Ok? && r.value.profile.Some? ==>
      r.value.profile.value in db.doctors && r.value.profile.value.userId == actor.userId
  {
    match FindUser(db.users, actor.userId)
    case None => Err(NotFound(UserMissing))
    case Some(u) => Ok(OwnProfile(AccountOf(u), FindDoctorByUser(db.doctors, actor.userId)))
  }

  /** The body of a profile update. */
  datatype DoctorBody = DoctorBody(
    name: Field<string>, email: Field<string>,
    specialization: Field<string>, phone: Field<string>, address: Field<string>,
    licenseNumber: Field<string>, experienceYears: Field<int>, bio: Field<string>)

  function AccountPatch(b: DoctorBody): UserPatch {
    UserPatch(b.name, b.email, Absent)
  }

  predicate NoProfileFields(b: DoctorBody) {
    && !Defined(b.specialization) && !Defined(b.phone) && !Defined(b.address)
    && !Defined(b.licenseNumber) && !Defined(b.experienceYears) && !Defined(b.bio)
  }

  /** An existing profile after the update: each defined field is stored,
      null included; the id and the owner never change. */
  function PatchDoctor(d: Doctor, b: DoctorBody): (r: Doctor)
    ensures r.id == d.id && r.userId == d.userId
    ensures r.specialization == Patched(d.specialization, b.specialization)
    ensures r.phone == Patched(d.phone, b.phone) && r.address == Patched(d.address, b.address)
    ensures r.licenseNumber == Patched(d.licenseNumber, b.licenseNumber)
    ensures r.experienceYears == Patched(d.experienceYears, b.experienceYears)
    ensures r.bio == Patched(d.bio, b.bio)
    ensures NoProfileFields(b) ==> r == d
  {
    d.(specialization := Patched(d.specialization, b.specialization),
       phone := Patched(d.phone, b.phone),
       address := Patched(d.address, b.address),
       licenseNumber := Patched(d.licenseNumber, b.licenseNumber),
       experienceYears := Patched(d.experienceYears, b.experienceYears),
       bio := Patched(d.bio, b.bio))
  }

  lemma PatchDoctorIdempotent(d: Doctor, b: DoctorBody)
    ensures PatchDoctor(PatchDoctor(d, b), b) == PatchDoctor(d, b)
  {
  }

  /** A new profile: every field `|| null`, so empty strings and 0 are stored
      as null. */
  function NewDoctor(id: nat, userId: nat, b: DoctorBody): (r: Doctor)
    ensures r.id == id && r.userId == userId
    ensures r.specialization == OrNullStr(b.specialization) && r.phone == OrNullStr(b.phone)
    ensures r.address == OrNullStr(b.address) && r.licenseNumber == OrNullStr(b.licenseNumber)
    ensures r.experienceYears == OrNullInt(b.experienceYears) && r.bio == OrNullStr(b.bio)
  {
    Doctor(id, userId, OrNullStr(b.specialization), OrNullStr(b.phone), OrNullStr(b.address),
      OrNullStr(b.licenseNumber), OrNullInt(b.experienceYears), OrNullStr(b.bio))
  }

  predicate NoEmptyValues(b: DoctorBody) {
    && b.specialization != Given("") && b.phone != Given("") && b.address != Given("")
    && b.licenseNumber != Given("") && b.experienceYears != Given(0) && b.bio != Given("")
  }

  /** Creating a profile stores what updating a blank one would store, except
      that creation turns "" and 0 into null and updating keeps them. */
  lemma CreateIsPatchOfBlank(id: nat, userId: nat, b: DoctorBody)
    ensures NoEmptyValues(b) ==>
      NewDoctor(id, userId, b) == PatchDoctor(Doctor(id, userId, None, None, None, None, None, None), b)
    ensures b.phone == Given("") ==>
      NewDoctor(id, userId, b).phone == None
      && PatchDoctor(Doctor(id, userId, None, None, None, None, None, None), b).phone == Some("")
  {
  }

  /** The profile half of updateDoctorProfile: the user's profile is
      patched if it exists (written only when some field is defined), and
      created under the next `doctors` id if not. */
  method WriteDoctorProfile(st: Store, userId: nat, b: DoctorBody)
    requires st.Valid()
    modifies st
    ensures st.Valid()
    ensures st.users == old(st.users) && st.patients == old(st.patients)
    ensures st.appointments == old(st.appointments) && st.records == old(st.records)
    ensures FindDoctorByUser(old(st.doctors), userId).Some? ==>
      && st.counters == old(st.counters)
      && |st.doctors| == |old(st.doctors)|
      && forall i :: 0 <= i < |st.doctors| ==>
           st.doctors[i] == if old(st.doctors)[i].userId == userId then PatchDoctor(old(st.doctors)[i], b) else old(st.doctors)[i]
    ensures FindDoctorByUser(old(st.doctors), userId).None? ==>
      var alloc := Allocate(old(st.counters), DoctorsSeq);
      st.doctors == old(st.doctors) + [NewDoctor(alloc.1, userId, b)] && st.counters == alloc.0
  {
    match FindDoctorByUser(st.doctors, userId) {
      case Some(d) =>
        if !NoProfileFields(b) {
          var k :| 0 <= k < |st.doctors| && st.doctors[k] == d;
          UpdateDoctorAt(st.State(), k, PatchDoctor(d, b));
          st.Replace(st.State().(doctors := st.doctors[k := PatchDoctor(d, b)]));
        }
      case None =>
        var id := st.NextId(DoctorsSeq);
        var v := NewDoctor(id, userId, b);
        AppendDoctor(old(st.State()), v);
        st.Replace(st.State().(doctors := st.doctors + [v]));
    }
  }

  /** updateDoctorProfile: the caller's name and email when non-empty, then
      the caller's profile. An email another user has fails the request
      before anything is written. */
  method UpdateDoctorProfile(st: Store, actor: Actor, b: DoctorBody) returns (r: Result<()>)
    requires st.Valid()
    modifies st
    ensures st.Valid()
    ensures EmailTaken(old(st.users), actor.userId, AccountPatch(b)) ==>
      r == Err(ServerError(ServerFault)) && st.State() == old(st.State())
    ensures !EmailTaken(old(st.users), actor.userId, AccountPatch(b)) ==>
      && r == Ok(())
      && st.patients == old(st.patients) && st.appointments == old(st.appointments) && st.records == old(st.records)
      && |st.users| == |old(st.users)|
      && (forall i :: 0 <= i < |st.users| ==>
            st.users[i] == if old(st.users)[i].id == actor.userId then PatchUser(old(st.users)[i], AccountPatch(b)) else old(st.users)[i])
      && (FindDoctorByUser(old(st.doctors), actor.userId).Some? ==>
            && st.counters == old(st.counters)
            && |st.doctors| == |old(st.doctors)|
            && forall i :: 0 <= i < |st.doctors| ==>
                 st.doctors[i] == if old(st.doctors)[i].userId == actor.userId then PatchDoctor(old(st.doctors)[i], b) else old(st.doctors)[i])
      && (FindDoctorByUser(old(st.doctors), actor.userId).None? ==>
            var alloc := Allocate(old(st.counters), DoctorsSeq);
            st.doctors == old(st.doctors) + [NewDoctor(alloc.1, actor.userId, b)] && st.counters == alloc.0)
  {
    if TruthyStr(b.name) || TruthyStr(b.email) {
      var u := UpdateUserRow(st, actor.userId, AccountPatch(b));
      if u.Err? {
        return u;
      }
    }
    WriteDoctorProfile(st, actor.userId, b);
    r := Ok(());
  }

  // ----------------------------------------------------------- appointments

  /** getDoctorAppointments: not found unless the caller has a doctor
      profile; then that doctor's appointments (of the given status, when one
      is given) that join with their patient, newest first. */
  function GetDoctorAppointments(db: Db, actor: Actor, status: Option<string>): (r: Result<seq<PatientSideView>>)
    ensures r.Err? <==> forall d :: d in db.doctors ==> d.userId != actor.userId
    ensures r.Err? ==> r.error == NotFound(DoctorMissing)
    ensures r.Ok? ==> SortedBy(r.value, PatientSideOrder, Descending)
    ensures r.Ok? ==>
      var m := Appointments.AppointmentMatch(None, Some(FindDoctorByUser(db.doctors, actor.userId).value.id),
                 if status.Some? && status.value != "" then status else None);
      multiset(r.value) == multiset(FilterMap(Filter(db.appointments, Appointments.Selected(m)), PatientSideJoiner(db)))
    ensures r.Ok? && UniqueBy(db.appointments, AppointmentId) ==> UniqueBy(r.value, SideViewId)
    ensures r.Ok? ==> forall v :: v in r.value <==>
      && v.appointment in db.appointments
      && v.appointment.doctorId == FindDoctorByUser(db.doctors, actor.userId).value.id
      && (status.Some? && status.value != "" ==> StatusName(v.appointment.status) == status.value)
      && JoinPatientSide(db, v.appointment) == Some(v)
  {
    match FindDoctorByUser(db.doctors, actor.userId)
    case None => Err(NotFound(DoctorMissing))
    case Some(d) =>
      var m := Appointments.AppointmentMatch(None, Some(d.id), if status.Some? && status.value != "" then status else None);
      var rows := FilterMap(Filter(db.appointments, Appointments.Selected(m)), PatientSideJoiner(db));
      SortByMembers(rows, PatientSideOrder, Descending);
      PatientSideRows(db, m);
      FilterJoinUnique(db.appointments, Appointments.Selected(m), PatientSideJoiner(db), AppointmentId, SideViewId);
      SortByUnique(rows, PatientSideOrder, Descending, SideViewId);
      Ok(SortBy(rows, PatientSideOrder, Descending))
  }

  /** The patient-side rows a match selects are exactly the patient-side
      views of the matching appointments. */
  lemma PatientSideRows(db: Db, m: Appointments.AppointmentMatch)
    ensures forall v :: v in FilterMap(Filter(db.appointments, Appointments.Selected(m)), PatientSideJoiner(db)) <==>
      v.appointment in db.appointments && Appointments.Matches(m, v.appointment) && JoinPatientSide(db, v.appointment) == Some(v)
  {
    var kept := Filter(db.appointments, Appointments.Selected(m));
    var rows := FilterMap(kept, PatientSideJoiner(db));
    forall v ensures v in rows <==>
      v.appointment in db.appointments && Appointments.Matches(m, v.appointment) && JoinPatientSide(db, v.appointment) == Some(v)
    {
      if v in rows {
        var a :| a in kept && PatientSideJoiner(db)(a) == Some(v);
        assert v.appointment == a;
      }
      if v.appointment in db.appointments && Appointments.Matches(m, v.appointment) && JoinPatientSide(db, v.appointment) == Some(v) {
        assert v.appointment in kept;
        assert PatientSideJoiner(db)(v.appointment) == Some(v);
      }
    }
  }

  /** A doctor's own list holds every appointment the general list shows that
      doctor (it needs fewer rows to join). */
  lemma {:induction false} OwnListCoversGeneralList(db: Db, actor: Actor, status: Option<string>, w: AppointmentView)
    requires actor.role == DoctorRole && FindDoctorByUser(db.doctors, actor.userId).Some?
    requires w in Appointments.GetAppointments(db, actor, Appointments.AppointmentQuery(status, None, None))
    ensures GetDoctorAppointments(db, actor, status).Ok?
    ensures PatientSideView(w.appointment, w.patientUserId, w.patientName, w.patientEmail)
              in GetDoctorAppointments(db, actor, status).value
  {
    var a := w.appointment;
    var m := Appointments.ScopeOf(db, actor, Appointments.AppointmentQuery(status, None, None));
    assert a in db.appointments && Appointments.Matches(m, a) && JoinAppointment(db, a) == Some(w);
    assert a.doctorId == FindDoctorByUser(db.doctors, actor.userId).value.id;
    JoinsAgree(db, a);
  }

  // -------------------------------------------------------------- directory

  /** getAllDoctors: every profile whose user exists, with the user's name,
      email and creation time, by name A to Z. */
  function GetAllDoctors(db: Db): (r: seq<DoctorListing>)
    ensures SortedBy(r, ListingOrder, Ascending)
    ensures multiset(r) == multiset(FilterMap(db.doctors, DoctorLister(db)))
    ensures UniqueBy(db.doctors, DoctorId) ==> UniqueBy(r, ListingId)
    ensures forall l :: l in r <==> l.doctor in db.doctors && ListDoctor(db, l.doctor) == Some(l)
    ensures |r| <= |db.doctors|
  {
    var rows := FilterMap(db.doctors, DoctorLister(db));
    SortByMembers(rows, ListingOrder, Ascending);
    FilterMapUnique(db.doctors, DoctorLister(db), DoctorId, ListingId);
    SortByUnique(rows, ListingOrder, Ascending, ListingId);
    SortBy(rows, ListingOrder, Ascending)
  }

  // ---------------------------------------------------------------- records

  /** The body of a new medical record. */
  datatype RecordBody = RecordBody(
    patientId: Field<nat>, appointmentId: Field<nat>,
    diagnosis: Field<string>, prescription: Field<string>, notes: Field<string>,
    recordDate: Field<string>)

  /** The row a new record gets: written by `doctorId`, dated `record_date`
      or else today, created `now`. */
  function NewRecord(id: nat, doctorId: nat, patientId: nat, appointmentId: Option<nat>,
                     b: RecordBody, today: string, now: nat): (m: MedicalRecord)
    ensures m.id == id && m.doctorId == doctorId && m.patientId == patientId
    ensures m.appointmentId == appointmentId && m.createdAt == now
    ensures m.recordDate == Some(if TruthyStr(b.recordDate) then b.recordDate.value else today)
    ensures m.diagnosis == OrNullStr(b.diagnosis) && m.prescription == OrNullStr(b.prescription)
    ensures m.notes == OrNullStr(b.notes)
  {
    MedicalRecord(id, patientId, doctorId, appointmentId,
      OrNullStr(b.diagnosis), OrNullStr(b.prescription), OrNullStr(b.notes),
      Some(if TruthyStr(b.recordDate) then b.recordDate.value else today), now)
  }

  /** createMedicalRecord: the caller must have a doctor profile; the record
      id is taken before the insert, so a body without `patient_id` (which
      the schema requires) fails after consuming an id. The patient and the
      appointment are not checked. */
  method CreateMedicalRecord(st: Store, actor: Actor, b: RecordBody, today: string, now: nat)
    returns (r: Result<Option<RecordWithDoctor>>)
    requires st.Valid()
    modifies st
    ensures st.Valid()
    ensures FindDoctorByUser(old(st.doctors), actor.userId).None? ==>
      r == Err(NotFound(DoctorMissing)) && st.State() == old(st.State())
    ensures FindDoctorByUser(old(st.doctors), actor.userId).Some? && !b.patientId.Given? ==>
      r == Err(ServerError(ServerFault))
      && st.State() == old(st.State()).(counters := Allocate(old(st.counters), RecordsSeq).0)
    ensures FindDoctorByUser(old(st.doctors), actor.userId).Some? && b.patientId.Given? ==>
      var alloc := Allocate(old(st.counters), RecordsSeq);
      var m := NewRecord(alloc.1, FindDoctorByUser(old(st.doctors), actor.userId).value.id,
                 b.patientId.value, GivenOrNull(b.appointmentId), b, today, now);
      && st.State() == old(st.State()).(records := old(st.records) + [m], counters := alloc.0)
      && r == Ok(AuthorOf(st.State(), m))
  {
    match FindDoctorByUser(st.doctors, actor.userId) {
      case None =>
        return Err(NotFound(DoctorMissing));
      case Some(d) =>
        var id := st.NextId(RecordsSeq);
        if !b.patientId.Given? {
          return Err(ServerError(ServerFault));
        }
        var m := NewRecord(id, d.id, b.patientId.value, GivenOrNull(b.appointmentId), b, today, now);
        AppendRecord(old(st.State()), m);
        st.Replace(st.State().(records := st.records + [m]));
        r := Ok(AuthorOf(st.State(), m));
    }
  }

  /** The fields of a record update; each is written whenever defined. */
  datatype RecordPatch = RecordPatch(
    diagnosis: Field<string>, prescription: Field<string>, notes: Field<string>, recordDate: Field<string>)

  predicate NoRecordFields(p: RecordPatch) {
    !Defined(p.diagnosis) && !Defined(p.prescription) && !Defined(p.notes) && !Defined(p.recordDate)
  }

  /** A record after the update: who wrote it, about whom, for which
      appointment and when never change. */
  function PatchRecord(m: MedicalRecord, p: RecordPatch): (r: MedicalRecord)
    ensures r.id == m.id && r.patientId == m.patientId && r.doctorId == m.doctorId
    ensures r.appointmentId == m.appointmentId && r.createdAt == m.createdAt
    ensures r.diagnosis == Patched(m.diagnosis, p.diagnosis)
    ensures r.prescription == Patched(m.prescription, p.prescription)
    ensures r.notes == Patched(m.notes, p.notes) && r.recordDate == Patched(m.recordDate, p.recordDate)
  {
    m.(diagnosis := Patched(m.diagnosis, p.diagnosis),
       prescription := Patched(m.prescription, p.prescription),
       notes := Patched(m.notes, p.notes),
       recordDate := Patched(m.recordDate, p.recordDate))
  }

  /** `findOne({ id, doctor_id })`: the record, if the doctor wrote it. */
  function OwnRecord(records: seq<MedicalRecord>, id: nat, doctorId: nat): (r: Option<MedicalRecord>)
    ensures r.Some? ==> r.value in records && r.value.id == id && r.value.doctorId == doctorId
    ensures r.None? <==> forall m :: m in records ==> m.id != id || m.doctorId != doctorId
  {
    First(records, (m: MedicalRecord) => m.id == id && m.doctorId == doctorId)
  }

  /** `updateOne({ id })` on the records under the unique index on `id`. */
  lemma RecordUpdateById(db: Db, k: nat, m: MedicalRecord)
    requires WellFormed(db)
    requires k < |db.records| && m.id == db.records[k].id
    ensures WellFormed(db.(records := db.records[k := m]))
    ensures forall i :: 0 <= i < |db.records| ==>
      db.records[k := m][i] == if db.records[i].id == m.id then m else db.records[i]
  {
    UpdateAt(db.records, RecordId, k, m);
    assert m.id <= Counter(db.counters, RecordsSeq) by {
      assert db.records[k] in db.records;
    }
  }

  /** updateMedicalRecord: only the doctor who wrote a record can change it;
      an update without any defined field is refused. */
  method UpdateMedicalRecord(st: Store, actor: Actor, id: nat, p: RecordPatch) returns (r: Result<()>)
    requires st.Valid()
    modifies st
    ensures st.Valid()
    ensures FindDoctorByUser(old(st.doctors), actor.userId).None? ==>
      r == Err(NotFound(DoctorMissing)) && st.State() == old(st.State())
    ensures FindDoctorByUser(old(st.doctors), actor.userId).Some? ==>
      var d := FindDoctorByUser(old(st.doctors), actor.userId).value;
      && (OwnRecord(old(st.records), id, d.id).None? ==>
            r == Err(NotFound(RecordMissing)) && st.State() == old(st.State()))
      && (OwnRecord(old(st.records), id, d.id).Some? && NoRecordFields(p) ==>
            r == Err(BadRequest(NoFields)) && st.State() == old(st.State()))
      && (OwnRecord(old(st.records), id, d.id).Some? && !NoRecordFields(p) ==>
            && r == Ok(())
            && st.State() == old(st.State()).(records := st.records)
            && |st.records| == |old(st.records)|
            && forall i :: 0 <= i < |st.records| ==>
                 st.records[i] == if old(st.records)[i].id == id then PatchRecord(old(st.records)[i], p) else old(st.records)[i])
    ensures |st.records| == |old(st.records)|
    ensures forall i :: 0 <= i < |st.records| && st.records[i] != old(st.records)[i] ==>
      exists d :: d in old(st.doctors) && d.userId == actor.userId && d.id == old(st.records)[i].doctorId
  {
    match FindDoctorByUser(st.doctors, actor.userId) {
      case None =>
        return Err(NotFound(DoctorMissing));
      case Some(d) =>
        match OwnRecord(st.records, id, d.id) {
          case None =>
            return Err(NotFound(RecordMissing));
          case Some(m) =>
            if NoRecordFields(p) {
              return Err(BadRequest(NoFields));
            }
            var before := st.records;
            var k :| 0 <= k < |before| && before[k] == m;
            RewriteRecord(st, k, PatchRecord(m, p));
            forall i | 0 <= i < |before| && st.records[i] != before[i]
              ensures d in old(st.doctors) && d.userId == actor.userId && d.id == before[i].doctorId
            {
              assert RecordId(before[i]) == RecordId(before[k]);
            }
            r := Ok(());
        }
    }
  }

  /** The write of updateMedicalRecord: row `k` replaced by a row with the
      same id. */
  method RewriteRecord(st: Store, k: nat, m: MedicalRecord)
    requires st.Valid()
    requires k < |st.records| && m.id == st.records[k].id
    modifies st
    ensures st.Valid()
    ensures st.State() == old(st.State()).(records := old(st.records)[k := m])
    ensures forall i :: 0 <= i < |old(st.records)| ==>
      st.records[i] == if old(st.records)[i].id == m.id then m else old(st.records)[i]
  {
    RecordUpdateById(st.State(), k, m);
    st.Replace(st.State().(records := st.records[k := m]));
  }
}
