/** The one store both handler variants run against: the five tables and
    the counter table. The document-store variant allocates ids with
    getNextId; the relational variant's AUTO_INCREMENT keys are modelled by
    the same counters. */
module Storage {
  import opened Common
  import opened Schema
  import opened Tables
  import opened Counters
  import opened Slots

  // Sequence names used with getNextId.
  const UsersSeq: string := "users"
  const PatientsSeq: string := "patients"
  const DoctorsSeq: string := "doctors"
  const AppointmentsSeq: string := "appointments"
  const RecordsSeq: string := "medical_records"

  /** A snapshot of the whole store. */
  datatype Db = Db(
    users: seq<User>, patients: seq<Patient>, doctors: seq<Doctor>,
    appointments: seq<Appointment>, records: seq<MedicalRecord>,
    counters: map<string, nat>)

  /** user.js: `id` and `email` are unique; ids come from the counter. */
  ghost predicate UsersWf(users: seq<User>, counters: map<string, nat>) {
    && UniqueBy(users, UserId)
    && UniqueBy(users, UserEmail)
    && forall u :: u in users ==> u.id <= Counter(counters, UsersSeq) && RoleWellFormed(u.role)
  }

  /** patient.js: `id` and `user_id` are unique (one profile per user). */
  ghost predicate PatientsWf(patients: seq<Patient>, counters: map<string, nat>) {
    && UniqueBy(patients, PatientId)
    && UniqueBy(patients, PatientUser)
    && forall p :: p in patients ==> p.id <= Counter(counters, PatientsSeq)
  }

  /** doctor.js: `id` and `user_id` are unique (one profile per user). */
  ghost predicate DoctorsWf(doctors: seq<Doctor>, counters: map<string, nat>) {
    && UniqueBy(doctors, DoctorId)
    && UniqueBy(doctors, DoctorUser)
    && forall d :: d in doctors ==> d.id <= Counter(counters, DoctorsSeq)
  }

  /** appointment.js: `id` is unique, and so is the slot (doctor, date,
      time) under the compound index; statuses are stored as read. */
  ghost predicate AppointmentsWf(appts: seq<Appointment>, counters: map<string, nat>) {
    && UniqueBy(appts, AppointmentId)
    && RawSlotsUnique(appts)
    && forall a :: a in appts ==> a.id <= Counter(counters, AppointmentsSeq) && StatusWellFormed(a.status)
  }

  /** medicalRecord.js: `id` is unique. */
  ghost predicate RecordsWf(records: seq<MedicalRecord>, counters: map<string, nat>) {
    && UniqueBy(records, RecordId)
    && forall m :: m in records ==> m.id <= Counter(counters, RecordsSeq)
  }

  ghost predicate WellFormed(db: Db) {
    && UsersWf(db.users, db.counters)
    && PatientsWf(db.patients, db.counters)
    && DoctorsWf(db.doctors, db.counters)
    && AppointmentsWf(db.appointments, db.counters)
    && RecordsWf(db.records, db.counters)
  }

  /** Counters only grow, so a well-formed table stays well-formed. */
  lemma CountersGrow(db: Db, counters: map<string, nat>)
    requires WellFormed(db)
    requires forall n :: Counter(db.counters, n) <= Counter(counters, n)
    ensures WellFormed(db.(counters := counters))
  {
  }

  /** Inserting an appointment under the id getNextId just returned, on a
      slot no stored appointment occupies, keeps the store well formed. */
  lemma AppendAppointment(db: Db, a: Appointment)
    requires WellFormed(db)
    requires a.id == Allocate(db.counters, AppointmentsSeq).1 && StatusWellFormed(a.status)
    requires !SlotHeld(db.appointments, a)
    ensures WellFormed(db.(appointments := db.appointments + [a], counters := Allocate(db.counters, AppointmentsSeq).0))
  {
    CountersGrow(db, Allocate(db.counters, AppointmentsSeq).0);
    AppendFresh(db.appointments, a, AppointmentId, Counter(db.counters, AppointmentsSeq));
    BookUnheldSlot(db.appointments, a);
  }

  /** Likewise for a medical record. */
  lemma AppendRecord(db: Db, m: MedicalRecord)
    requires WellFormed(db)
    requires m.id == Allocate(db.counters, RecordsSeq).1
    ensures WellFormed(db.(records := db.records + [m], counters := Allocate(db.counters, RecordsSeq).0))
  {
    CountersGrow(db, Allocate(db.counters, RecordsSeq).0);
    AppendFresh(db.records, m, RecordId, Counter(db.counters, RecordsSeq));
  }

  /** Inserting the profile of a user without one under the id getNextId
      just returned keeps the store well formed. */
  lemma AppendPatient(db: Db, p: Patient)
    requires WellFormed(db)
    requires p.id == Allocate(db.counters, PatientsSeq).1 && FindPatientByUser(db.patients, p.userId).None?
    ensures WellFormed(db.(patients := db.patients + [p], counters := Allocate(db.counters, PatientsSeq).0))
  {
    CountersGrow(db, Allocate(db.counters, PatientsSeq).0);
    AppendFresh(db.patients, p, PatientId, Counter(db.counters, PatientsSeq));
    AppendUnique(db.patients, p, PatientUser);
  }

  lemma AppendDoctor(db: Db, d: Doctor)
    requires WellFormed(db)
    requires d.id == Allocate(db.counters, DoctorsSeq).1 && FindDoctorByUser(db.doctors, d.userId).None?
    ensures WellFormed(db.(doctors := db.doctors + [d], counters := Allocate(db.counters, DoctorsSeq).0))
  {
    CountersGrow(db, Allocate(db.counters, DoctorsSeq).0);
    AppendFresh(db.doctors, d, DoctorId, Counter(db.counters, DoctorsSeq));
    AppendUnique(db.doctors, d, DoctorUser);
  }

  /** Rewriting a profile in place, keeping its id and its user, keeps the
      store well formed and changes that user's row only. */
  lemma UpdatePatientAt(db: Db, k: nat, p: Patient)
    requires WellFormed(db)
    requires k < |db.patients| && p.id == db.patients[k].id && p.userId == db.patients[k].userId
    ensures WellFormed(db.(patients := db.patients[k := p]))
    ensures forall i :: 0 <= i < |db.patients| ==>
      db.patients[k := p][i] == if db.patients[i].userId == p.userId then p else db.patients[i]
  {
    UpdateAt(db.patients, PatientId, k, p);
    UpdateAt(db.patients, PatientUser, k, p);
    assert p.id <= Counter(db.counters, PatientsSeq) by {
      assert db.patients[k] in db.patients;
    }
  }

  lemma UpdateDoctorAt(db: Db, k: nat, d: Doctor)
    requires WellFormed(db)
    requires k < |db.doctors| && d.id == db.doctors[k].id && d.userId == db.doctors[k].userId
    ensures WellFormed(db.(doctors := db.doctors[k := d]))
    ensures forall i :: 0 <= i < |db.doctors| ==>
      db.doctors[k := d][i] == if db.doctors[i].userId == d.userId then d else db.doctors[i]
  {
    UpdateAt(db.doctors, DoctorId, k, d);
    UpdateAt(db.doctors, DoctorUser, k, d);
    assert d.id <= Counter(db.counters, DoctorsSeq) by {
      assert db.doctors[k] in db.doctors;
    }
  }

  // Lookups: `findOne` on one column.

  function FindUser(users: seq<User>, id: nat): (r: Option<User>)
    ensures r.Some? ==> r.value in users && r.value.id == id
    ensures r.None? <==> forall u :: u in users ==> u.id != id
  {
    First(users, (u: User) => u.id == id)
  }

  function FindUserByEmail(users: seq<User>, email: string): (r: Option<User>)
    ensures r.Some? ==> r.value in users && r.value.email == email
    ensures r.None? <==> forall u :: u in users ==> u.email != email
  {
    First(users, (u: User) => u.email == email)
  }

  function FindPatient(patients: seq<Patient>, id: nat): (r: Option<Patient>)
    ensures r.Some? ==> r.value in patients && r.value.id == id
    ensures r.None? <==> forall p :: p in patients ==> p.id != id
  {
    First(patients, (p: Patient) => p.id == id)
  }

  function FindPatientByUser(patients: seq<Patient>, userId: nat): (r: Option<Patient>)
    ensures r.Some? ==> r.value in patients && r.value.userId == userId
    ensures r.None? <==> forall p :: p in patients ==> p.userId != userId
  {
    First(patients, (p: Patient) => p.userId == userId)
  }

  function FindDoctor(doctors: seq<Doctor>, id: nat): (r: Option<Doctor>)
    ensures r.Some? ==> r.value in doctors && r.value.id == id
    ensures r.None? <==> forall d :: d in doctors ==> d.id != id
  {
    First(doctors, (d: Doctor) => d.id == id)
  }

  function FindDoctorByUser(doctors: seq<Doctor>, userId: nat): (r: Option<Doctor>)
    ensures r.Some? ==> r.value in doctors && r.value.userId == userId
    ensures r.None? <==> forall d :: d in doctors ==> d.userId != userId
  {
    First(doctors, (d: Doctor) => d.userId == userId)
  }

  function FindAppointment(appts: seq<Appointment>, id: nat): (r: Option<Appointment>)
    ensures r.Some? ==> r.value in appts && r.value.id == id
    ensures r.None? <==> forall a :: a in appts ==> a.id != id
  {
    First(appts, (a: Appointment) => a.id == id)
  }

  function FindRecord(records: seq<MedicalRecord>, id: nat): (r: Option<MedicalRecord>)
    ensures r.Some? ==> r.value in records && r.value.id == id
    ensures r.None? <==> forall m :: m in records ==> m.id != id
  {
    First(records, (m: MedicalRecord) => m.id == id)
  }

  // The rows a `deleteOne` / `DELETE ... WHERE id = ?` keeps.

  function NotUser(id: nat): User -> bool {
    (u: User) => u.id != id
  }

  function NotPatient(id: nat): Patient -> bool {
    (p: Patient) => p.id != id
  }

  function NotDoctor(id: nat): Doctor -> bool {
    (d: Doctor) => d.id != id
  }

  /** Under the unique indexes a lookup by a unique column finds the row. */
  lemma FindUserIsUnique(users: seq<User>, u: User)
    requires UniqueBy(users, UserId) && u in users
    ensures FindUser(users, u.id) == Some(u)
  {
    FirstUnique(users, (x: User) => x.id == u.id, UserId, u);
  }

  lemma FindUserByEmailIsUnique(users: seq<User>, u: User)
    requires UniqueBy(users, UserEmail) && u in users
    ensures FindUserByEmail(users, u.email) == Some(u)
  {
    FirstUnique(users, (x: User) => x.email == u.email, UserEmail, u);
  }

  lemma FindPatientIsUnique(patients: seq<Patient>, p: Patient)
    requires UniqueBy(patients, PatientId) && p in patients
    ensures FindPatient(patients, p.id) == Some(p)
  {
    FirstUnique(patients, (x: Patient) => x.id == p.id, PatientId, p);
  }

  lemma FindDoctorIsUnique(doctors: seq<Doctor>, d: Doctor)
    requires UniqueBy(doctors, DoctorId) && d in doctors
    ensures FindDoctor(doctors, d.id) == Some(d)
  {
    FirstUnique(doctors, (x: Doctor) => x.id == d.id, DoctorId, d);
  }

  lemma FindAppointmentIsUnique(appts: seq<Appointment>, a: Appointment)
    requires UniqueBy(appts, AppointmentId) && a in appts
    ensures FindAppointment(appts, a.id) == Some(a)
  {
    FirstUnique(appts, (x: Appointment) => x.id == a.id, AppointmentId, a);
  }

  /** The store object. Handlers read it through `State()` and write its
      tables directly, one statement per database write. */
  class Store {
    var users: seq<User>
    var patients: seq<Patient>
    var doctors: seq<Doctor>
    var appointments: seq<Appointment>
    var records: seq<MedicalRecord>
    var counters: map<string, nat>

    function State(): Db
      reads this
    {
      Db(users, patients, doctors, appointments, records, counters)
    }

    ghost predicate Valid()
      reads this
    {
      WellFormed(State())
    }

    /** An empty database. */
    constructor ()
      ensures Valid()
      ensures State() == Db([], [], [], [], [], map[])
    {
      users, patients, doctors, appointments, records := [], [], [], [], [];
      counters := map[];
    }

    /** Several writes at once whose combined result is `next`: every table
        and counter takes its value from `next`. */
    method Replace(next: Db)
      requires WellFormed(next)
      modifies this
      ensures Valid()
      ensures State() == next
    {
      users, patients, doctors := next.users, next.patients, next.doctors;
      appointments, records, counters := next.appointments, next.records, next.counters;
    }

    /** getNextId(name): increments the named counter, creating it if it is
        missing, and returns the new value; no other counter and no table
        changes. */
    method NextId(name: string) returns (id: nat)
      modifies this
      ensures (counters, id) == Allocate(old(counters), name)
      ensures id > Counter(old(counters), name)
      ensures State() == old(State()).(counters := counters)
      ensures old(Valid()) ==> Valid()
    {
      id := Counter(counters, name) + 1;
      counters := counters[name := id];
    }
  }
}
