/** The patient handlers: BackEnd/controllers/patientController.js (and the
    relational BackEnd/controller/patientController.js, which behaves the
    same). A patient's own account and profile, and their medical history. */
module Patients {
  import opened Common
  import opened Schema
  import opened Tables
  import opened Ordering
  import opened Counters
  import opened Storage
  import opened Views
  import opened Accounts

  const UserMissing: string := "User not found"
  const PatientMissing: string := "Patient not found"

  // ---------------------------------------------------------------- profile

  /** getPatientProfile: the caller's account and their patient profile, or
      null when they have none. */
  function GetPatientProfile(db: Db, actor: Actor): (r: Result<OwnProfile<Patient>>)
    ensures r.Err? <==> forall u :: u in db.users ==> u.id != actor.userId
    ensures r.Err? ==> r.error == NotFound(UserMissing)
    ensures r.Ok? ==> exists u :: u in db.users && u.id == actor.userId && r.value.user == AccountOf(u)
    ensures r.Ok? ==> (r.value.profile.None? <==> forall p :: p in db.patients ==> p.userId != actor.userId)
    ensures r.Ok? && r.value.profile.Some? ==>
      r.value.profile.value in db.patients && r.value.profile.value.userId == actor.userId
  {
    match FindUser(db.users, actor.userId)
    case None => Err(NotFound(UserMissing))
    case Some(u) => Ok(OwnProfile(AccountOf(u), FindPatientByUser(db.patients, actor.userId)))
  }

  /** The body of a profile update. */
  datatype PatientBody = PatientBody(
    name: Field<string>, email: Field<string>,
    phone: Field<string>, address: Field<string>, dateOfBirth: Field<string>,
    gender: Field<string>, emergencyContact: Field<string>)

  function AccountPatch(b: PatientBody): UserPatch {
    UserPatch(b.name, b.email, Absent)
  }

  predicate NoProfileFields(b: PatientBody) {
    && !Defined(b.phone) && !Defined(b.address) && !Defined(b.dateOfBirth)
    && !Defined(b.gender) && !Defined(b.emergencyContact)
  }

  /** An existing profile after the update: each defined field is stored,
      null included; the id and the owner never change. */
  function PatchPatient(p: Patient, b: PatientBody): (r: Patient)
    ensures r.id == p.id && r.userId == p.userId
    ensures r.phone == Patched(p.phone, b.phone) && r.address == Patched(p.address, b.address)
    ensures r.dateOfBirth == Patched(p.dateOfBirth, b.dateOfBirth)
    ensures r.gender == Patched(p.gender, b.gender)
    ensures r.emergencyContact == Patched(p.emergencyContact, b.emergencyContact)
    ensures NoProfileFields(b) ==> r == p
  {
    p.(phone := Patched(p.phone, b.phone),
       address := Patched(p.address, b.address),
       dateOfBirth := Patched(p.dateOfBirth, b.dateOfBirth),
       gender := Patched(p.gender, b.gender),
       emergencyContact := Patched(p.emergencyContact, b.emergencyContact))
  }

  lemma PatchPatientIdempotent(p: Patient, b: PatientBody)
    ensures PatchPatient(PatchPatient(p, b), b) == PatchPatient(p, b)
  {
  }

  /** A new profile: every field `|| null`, so empty strings are stored as
      null. */
  function NewPatient(id: nat, userId: nat, b: PatientBody): (r: Patient)
    ensures r.id == id && r.userId == userId
    ensures r.phone == OrNullStr(b.phone) && r.address == OrNullStr(b.address)
    ensures r.dateOfBirth == OrNullStr(b.dateOfBirth) && r.gender == OrNullStr(b.gender)
    ensures r.emergencyContact == OrNullStr(b.emergencyContact)
  {
    Patient(id, userId, OrNullStr(b.phone), OrNullStr(b.address), OrNullStr(b.dateOfBirth),
      OrNullStr(b.gender), OrNullStr(b.emergencyContact))
  }

  /** The profile half of updatePatientProfile: the user's profile is
      patched if it exists (written only when some field is defined), and
      created under the next `patients` id if not. */
  method WritePatientProfile(st: Store, userId: nat, b: PatientBody)
    requires st.Valid()
    modifies st
    ensures st.Valid()
    ensures st.users == old(st.users) && st.doctors == old(st.doctors)
    ensures st.appointments == old(st.appointments) && st.records == old(st.records)
    ensures FindPatientByUser(old(st.patients), userId).Some? ==>
      && st.counters == old(st.counters)
      && |st.patients| == |old(st.patients)|
      && forall i :: 0 <= i < |st.patients| ==>
           st.patients[i] == if old(st.patients)[i].userId == userId then PatchPatient(old(st.patients)[i], b) else old(st.patients)[i]
    ensures FindPatientByUser(old(st.patients), userId).None? ==>
      var alloc := Allocate(old(st.counters), PatientsSeq);
      st.patients == old(st.patients) + [NewPatient(alloc.1, userId, b)] && st.counters == alloc.0
  {
    match FindPatientByUser(st.patients, userId) {
      case Some(p) =>
        if !NoProfileFields(b) {
          var k :| 0 <= k < |st.patients| && st.patients[k] == p;
          UpdatePatientAt(st.State(), k, PatchPatient(p, b));
          st.Replace(st.State().(patients := st.patients[k := PatchPatient(p, b)]));
        }
      case None =>
        var id := st.NextId(PatientsSeq);
        var v := NewPatient(id, userId, b);
        AppendPatient(old(st.State()), v);
        st.Replace(st.State().(patients := st.patients + [v]));
    }
  }

  /** updatePatientProfile: the caller's name and email when non-empty, then
      the caller's profile. An email another user has fails the request
      before anything is written. */
  method UpdatePatientProfile(st: Store, actor: Actor, b: PatientBody) returns (r: Result<()>)
    requires st.Valid()
    modifies st
    ensures st.Valid()
    ensures EmailTaken(old(st.users), actor.userId, AccountPatch(b)) ==>
      r == Err(ServerError(ServerFault)) && st.State() == old(st.State())
    ensures !EmailTaken(old(st.users), actor.userId, AccountPatch(b)) ==>
      && r == Ok(())
      && st.doctors == old(st.doctors) && st.appointments == old(st.appointments) && st.records == old(st.records)
      && |st.users| == |old(st.users)|
      && (forall i :: 0 <= i < |st.users| ==>
            st.users[i] == if old(st.users)[i].id == actor.userId then PatchUser(old(st.users)[i], AccountPatch(b)) else old(st.users)[i])
      && (FindPatientByUser(old(st.patients), actor.userId).Some? ==>
            && st.counters == old(st.counters)
            && |st.patients| == |old(st.patients)|
            && forall i :: 0 <= i < |st.patients| ==>
                 st.patients[i] == if old(st.patients)[i].userId == actor.userId then PatchPatient(old(st.patients)[i], b) else old(st.patients)[i])
      && (FindPatientByUser(old(st.patients), actor.userId).None? ==>
            var alloc := Allocate(old(st.counters), PatientsSeq);
            st.patients == old(st.patients) + [NewPatient(alloc.1, actor.userId, b)] && st.counters == alloc.0)
  {
    if TruthyStr(b.name) || TruthyStr(b.email) {
      var u := UpdateUserRow(st, actor.userId, AccountPatch(b));
      if u.Err? {
        return u;
      }
    }
    WritePatientProfile(st, actor.userId, b);
    r := Ok(());
  }

  // ---------------------------------------------------------------- history

  function AboutPatient(patientId: nat): MedicalRecord -> bool {
    (m: MedicalRecord) => m.patientId == patientId
  }

  /** getMedicalRecords: not found unless the caller has a patient profile;
      then every record about that patient whose author (doctor and user)
      still exists, with the appointment's date and time when it still
      exists, newest record date first and undated records last. */
  function GetMedicalRecords(db: Db, actor: Actor): (r: Result<seq<RecordView>>)
    ensures r.Err? <==> forall p :: p in db.patients ==> p.userId != actor.userId
    ensures r.Err? ==> r.error == NotFound(PatientMissing)
    ensures r.Ok? ==> SortedBy(r.value, RecordOrder, Descending)
    ensures r.Ok? ==>
      var own := FindPatientByUser(db.patients, actor.userId).value.id;
      multiset(r.value) == multiset(FilterMap(Filter(db.records, AboutPatient(own)), RecordJoiner(db)))
    ensures r.Ok? && UniqueBy(db.records, RecordId) ==> UniqueBy(r.value, RecordViewId)
    ensures r.Ok? ==> forall v :: v in r.value <==>
      && v.record in db.records
      && v.record.patientId == FindPatientByUser(db.patients, actor.userId).value.id
      && JoinRecord(db, v.record) == Some(v)
  {
    match FindPatientByUser(db.patients, actor.userId)
    case None => Err(NotFound(PatientMissing))
    case Some(p) =>
      HistoryRows(db, p.id);
      Ok(SortBy(FilterMap(Filter(db.records, AboutPatient(p.id)), RecordJoiner(db)), RecordOrder, Descending))
  }

  /** The sorted history of a patient holds exactly the complete views of
      the records about them, no record twice. */
  lemma HistoryRows(db: Db, patientId: nat)
    ensures var r := SortBy(FilterMap(Filter(db.records, AboutPatient(patientId)), RecordJoiner(db)), RecordOrder, Descending);
      && (forall v :: v in r <==> v.record in db.records && v.record.patientId == patientId && JoinRecord(db, v.record) == Some(v))
      && (UniqueBy(db.records, RecordId) ==> UniqueBy(r, RecordViewId))
  {
    var kept := Filter(db.records, AboutPatient(patientId));
    var rows := FilterMap(kept, RecordJoiner(db));
    SortByMembers(rows, RecordOrder, Descending);
    forall v ensures v in rows <==> v.record in db.records && v.record.patientId == patientId && JoinRecord(db, v.record) == Some(v) {
      if v in rows {
        var m :| m in kept && RecordJoiner(db)(m) == Some(v);
        assert v.record == m;
      }
      if v.record in db.records && v.record.patientId == patientId && JoinRecord(db, v.record) == Some(v) {
        assert v.record in kept;
        assert RecordJoiner(db)(v.record) == Some(v);
      }
    }
    FilterJoinUnique(db.records, AboutPatient(patientId), RecordJoiner(db), RecordId, RecordViewId);
    SortByUnique(rows, RecordOrder, Descending, RecordViewId);
  }

  /** Every record a doctor wrote about the caller appears in the caller's
      history, as long as its author still exists; no other patient's
      record ever does. */
  lemma HistoryIsComplete(db: Db, actor: Actor, m: MedicalRecord)
    requires FindPatientByUser(db.patients, actor.userId).Some?
    requires m in db.records && AuthorOf(db, m).Some?
    ensures m.patientId == FindPatientByUser(db.patients, actor.userId).value.id <==>
      exists v :: v in GetMedicalRecords(db, actor).value && v.record == m
  {
    var v := JoinRecord(db, m).value;
    if m.patientId == FindPatientByUser(db.patients, actor.userId).value.id {
      assert v in GetMedicalRecords(db, actor).value;
    }
  }
}
