/** The administration handlers: BackEnd/controllers/adminController.js.
    Dashboard counts, the user list, user details, user updates, user
    deletion with the rows that hang off the deleted profile, and the full
    appointment list. */
module Admin {
  import opened Common
  import opened Schema
  import opened Tables
  import opened Ordering
  import opened Counters
  import opened Storage
  import opened Slots
  import opened Views
  import opened Accounts
  import Appointments

  const UserMissing: string := "User not found"
  const NoFields: string := "No fields to update"
  const SelfDelete: string := "Cannot delete your own account"

  // ------------------------------------------------------------------ stats

  datatype Stats = Stats(
    totalPatients: nat, totalDoctors: nat, totalAppointments: nat,
    pendingAppointments: nat, approvedAppointments: nat, completedAppointments: nat,
    totalRecords: nat)

  function RoleNamed(names: set<string>): User -> bool {
    (u: User) => RoleName(u.role) in names
  }

  function StatusNamed(names: set<string>): Appointment -> bool {
    (a: Appointment) => StatusName(a.status) in names
  }

  function AnyAppointment(a: Appointment): bool { true }

  function AnyRecord(m: MedicalRecord): bool { true }

  /** getDashboardStats: seven `countDocuments`. Patients and doctors are
      counted by the users' role column, not by profiles; the three status
      counts never exceed the total, nor do the two role counts the number
      of users. */
  function GetDashboardStats(db: Db): (r: Stats)
    ensures r.totalPatients == Count(db.users, RoleNamed({"patient"}))
    ensures r.totalDoctors == Count(db.users, RoleNamed({"doctor"}))
    ensures r.totalAppointments == |db.appointments| && r.totalRecords == |db.records|
    ensures r.pendingAppointments == Count(db.appointments, StatusNamed({"pending"}))
    ensures r.approvedAppointments == Count(db.appointments, StatusNamed({"approved"}))
    ensures r.completedAppointments == Count(db.appointments, StatusNamed({"completed"}))
    ensures r.totalPatients + r.totalDoctors <= |db.users|
    ensures r.pendingAppointments + r.approvedAppointments + r.completedAppointments <= r.totalAppointments
  {
    CountDisjoint(db.users, RoleNamed({"patient"}), RoleNamed({"doctor"}), RoleNamed({"patient", "doctor"}));
    CountDisjoint(db.appointments, StatusNamed({"pending"}), StatusNamed({"approved"}), StatusNamed({"pending", "approved"}));
    CountDisjoint(db.appointments, StatusNamed({"pending", "approved"}), StatusNamed({"completed"}),
      StatusNamed({"pending", "approved", "completed"}));
    FilterKeepsAll(db.appointments, AnyAppointment);
    FilterKeepsAll(db.records, AnyRecord);
    Stats(
      Count(db.users, RoleNamed({"patient"})),
      Count(db.users, RoleNamed({"doctor"})),
      Count(db.appointments, AnyAppointment),
      Count(db.appointments, StatusNamed({"pending"})),
      Count(db.appointments, StatusNamed({"approved"})),
      Count(db.appointments, StatusNamed({"completed"})),
      Count(db.records, AnyRecord))
  }

  // ------------------------------------------------------------------ users

  function RoleFilter(role: Option<string>): User -> bool {
    (u: User) => role.Some? && role.value != "" ==> RoleName(u.role) == role.value
  }

  /** getAllUsers: the users (of the given role, when a non-empty one is
      given) without their password hashes, newest first. */
  function GetAllUsers(db: Db, role: Option<string>): (r: seq<UserSummary>)
    ensures SortedBy(r, SummaryOrder, Descending)
    ensures multiset(r) == multiset(MapRows(Filter(db.users, RoleFilter(role)), SummaryOf))
    ensures UniqueBy(db.users, UserId) ==> UniqueBy(r, SummaryId)
    ensures forall s :: s in r <==>
      exists u :: u in db.users && (role.Some? && role.value != "" ==> RoleName(u.role) == role.value) && s == SummaryOf(u)
    ensures |r| <= |db.users|
  {
    UsersListed(db, role);
    FilterMapRowsUnique(db.users, RoleFilter(role), SummaryOf, UserId, SummaryId);
    SortByUnique(MapRows(Filter(db.users, RoleFilter(role)), SummaryOf), SummaryOrder, Descending, SummaryId);
    SortBy(MapRows(Filter(db.users, RoleFilter(role)), SummaryOf), SummaryOrder, Descending)
  }

  lemma UsersListed(db: Db, role: Option<string>)
    ensures var r := SortBy(MapRows(Filter(db.users, RoleFilter(role)), SummaryOf), SummaryOrder, Descending);
      && (forall s :: s in r <==>
            exists u :: u in db.users && (role.Some? && role.value != "" ==> RoleName(u.role) == role.value) && s == SummaryOf(u))
      && |r| <= |db.users|
  {
    var rows := MapRows(Filter(db.users, RoleFilter(role)), SummaryOf);
    var r := SortBy(rows, SummaryOrder, Descending);
    SortByMembers(rows, SummaryOrder, Descending);
    SummariesOfRole(db, role);
    forall s ensures s in r <==>
      exists u :: u in db.users && (role.Some? && role.value != "" ==> RoleName(u.role) == role.value) && s == SummaryOf(u)
    {
      assert s in r <==> s in rows;
    }
  }

  lemma SummariesOfRole(db: Db, role: Option<string>)
    ensures forall s :: s in MapRows(Filter(db.users, RoleFilter(role)), SummaryOf) <==>
      exists u :: u in db.users && (role.Some? && role.value != "" ==> RoleName(u.role) == role.value) && s == SummaryOf(u)
  {
    var kept := Filter(db.users, RoleFilter(role));
    MapRowsMembers(kept, SummaryOf);
    assert forall u :: u in kept <==> u in db.users && RoleFilter(role)(u);
  }

  /** getUserById: the user with the profile of their role. */
  function GetUserById(db: Db, id: nat): (r: Result<UserDetail>)
    ensures r.Err? <==> forall u :: u in db.users ==> u.id != id
    ensures r.Err? ==> r.error == NotFound(UserMissing)
    ensures r.Ok? ==> r.value.user.id == id && Some(r.value) == UserDetailOf(db, id)
  {
    match UserDetailOf(db, id)
    case None => Err(NotFound(UserMissing))
    case Some(d) => Ok(d)
  }

  /** updateUser: refused when neither name, email nor role is non-empty;
      otherwise the row with that id is patched, and a request naming no
      existing user still succeeds. */
  method UpdateUser(st: Store, id: nat, p: UserPatch) returns (r: Result<()>)
    requires st.Valid()
    modifies st
    ensures st.Valid()
    ensures NothingToSet(p) ==> r == Err(BadRequest(NoFields)) && st.State() == old(st.State())
    ensures !NothingToSet(p) && EmailTaken(old(st.users), id, p) ==>
      r == Err(ServerError(ServerFault)) && st.State() == old(st.State())
    ensures !NothingToSet(p) && !EmailTaken(old(st.users), id, p) ==>
      && r == Ok(())
      && st.State() == old(st.State()).(users := st.users)
      && |st.users| == |old(st.users)|
      && forall i :: 0 <= i < |st.users| ==>
           st.users[i] == if old(st.users)[i].id == id then PatchUser(old(st.users)[i], p) else old(st.users)[i]
  {
    if NothingToSet(p) {
      return Err(BadRequest(NoFields));
    }
    r := UpdateUserRow(st, id, p);
  }

  // --------------------------------------------------------------- deleting

  function NotPatientOf(userId: nat): Patient -> bool {
    (p: Patient) => p.userId != userId
  }

  function NotDoctorOf(userId: nat): Doctor -> bool {
    (d: Doctor) => d.userId != userId
  }

  function NotForPatient(patientId: nat): Appointment -> bool {
    (a: Appointment) => a.patientId != patientId
  }

  function NotForDoctor(doctorId: nat): Appointment -> bool {
    (a: Appointment) => a.doctorId != doctorId
  }

  function NotAboutPatient(patientId: nat): MedicalRecord -> bool {
    (m: MedicalRecord) => m.patientId != patientId
  }

  function NotByDoctor(doctorId: nat): MedicalRecord -> bool {
    (m: MedicalRecord) => m.doctorId != doctorId
  }

  /** The store after deleting user `id`, cascading as the handler does: a
      patient user takes their profile, and if there was one, its
      appointments and records; a doctor user likewise. */
  function Cascade(db: Db, id: nat): (r: Db)
    requires FindUser(db.users, id).Some?
    ensures r.counters == db.counters
    ensures forall u :: u in r.users <==> u in db.users && u.id != id
    ensures RoleName(FindUser(db.users, id).value.role) == "patient" && FindPatientByUser(db.patients, id).Some? ==>
      var p := FindPatientByUser(db.patients, id).value;
      && (forall x :: x in r.patients <==> x in db.patients && x.userId != id)
      && (forall a :: a in r.appointments <==> a in db.appointments && a.patientId != p.id)
      && (forall m :: m in r.records <==> m in db.records && m.patientId != p.id)
      && r.doctors == db.doctors
    ensures RoleName(FindUser(db.users, id).value.role) == "doctor" && FindDoctorByUser(db.doctors, id).Some? ==>
      var d := FindDoctorByUser(db.doctors, id).value;
      && (forall x :: x in r.doctors <==> x in db.doctors && x.userId != id)
      && (forall a :: a in r.appointments <==> a in db.appointments && a.doctorId != d.id)
      && (forall m :: m in r.records <==> m in db.records && m.doctorId != d.id)
      && r.patients == db.patients
    ensures
      (|| (RoleName(FindUser(db.users, id).value.role) == "patient" && FindPatientByUser(db.patients, id).None?)
       || (RoleName(FindUser(db.users, id).value.role) == "doctor" && FindDoctorByUser(db.doctors, id).None?)
       || (RoleName(FindUser(db.users, id).value.role) != "patient" && RoleName(FindUser(db.users, id).value.role) != "doctor"))
      ==> r == db.(users := Filter(db.users, NotUser(id)))
  {
    var users := Filter(db.users, NotUser(id));
    var role := RoleName(FindUser(db.users, id).value.role);
    if role == "patient" then
      match FindPatientByUser(db.patients, id)
      case None => db.(users := users)
      case Some(p) =>
        db.(users := users, patients := Filter(db.patients, NotPatientOf(id)),
            appointments := Filter(db.appointments, NotForPatient(p.id)),
            records := Filter(db.records, NotAboutPatient(p.id)))
    else if role == "doctor" then
      match FindDoctorByUser(db.doctors, id)
      case None => db.(users := users)
      case Some(d) =>
        db.(users := users, doctors := Filter(db.doctors, NotDoctorOf(id)),
            appointments := Filter(db.appointments, NotForDoctor(d.id)),
            records := Filter(db.records, NotByDoctor(d.id)))
    else db.(users := users)
  }

  /** Deleting rows never breaks the store's invariants. */
  lemma {:induction false} CascadeKeepsWellFormed(db: Db, id: nat)
    requires WellFormed(db) && FindUser(db.users, id).Some?
    ensures WellFormed(Cascade(db, id))
  {
    var r := Cascade(db, id);
    FilterUnique(db.users, NotUser(id), UserId);
    FilterUnique(db.users, NotUser(id), UserEmail);
    FilterUnique(db.patients, NotPatientOf(id), PatientId);
    FilterUnique(db.patients, NotPatientOf(id), PatientUser);
    FilterUnique(db.doctors, NotDoctorOf(id), DoctorId);
    FilterUnique(db.doctors, NotDoctorOf(id), DoctorUser);
    match FindPatientByUser(db.patients, id) {
      case None =>
      case Some(p) =>
        FilterUnique(db.appointments, NotForPatient(p.id), AppointmentId);
        FilterUnique(db.appointments, NotForPatient(p.id), SlotOf);
        FilterUnique(db.records, NotAboutPatient(p.id), RecordId);
    }
    match FindDoctorByUser(db.doctors, id) {
      case None =>
      case Some(d) =>
        FilterUnique(db.appointments, NotForDoctor(d.id), AppointmentId);
        FilterUnique(db.appointments, NotForDoctor(d.id), SlotOf);
        FilterUnique(db.records, NotByDoctor(d.id), RecordId);
    }
  }

  /** deleteUser: an administrator cannot delete themself; an unknown id is
      not found; otherwise the user goes with the rows of their profile. */
  method DeleteUser(st: Store, actor: Actor, id: nat) returns (r: Result<()>)
    requires st.Valid()
    modifies st
    ensures st.Valid()
    ensures id == actor.userId ==> r == Err(BadRequest(SelfDelete)) && st.State() == old(st.State())
    ensures id != actor.userId && FindUser(old(st.users), id).None? ==>
      r == Err(NotFound(UserMissing)) && st.State() == old(st.State())
    ensures id != actor.userId && FindUser(old(st.users), id).Some? ==>
      r == Ok(()) && st.State() == Cascade(old(st.State()), id)
  {
    if id == actor.userId {
      return Err(BadRequest(SelfDelete));
    }
    if FindUser(st.users, id).None? {
      return Err(NotFound(UserMissing));
    }
    CascadeKeepsWellFormed(st.State(), id);
    st.Replace(Cascade(st.State(), id));
    r := Ok(());
  }

  // ----------------------------------------------------------- appointments

  /** getAllAppointments: every appointment that joins completely and passes
      the non-empty filters, each once, newest first. */
  function GetAllAppointments(db: Db, q: Appointments.AppointmentQuery): (r: seq<AppointmentView>)
    ensures SortedBy(r, AppointmentOrder, Descending)
    ensures forall v :: v in r <==>
      && v.appointment in db.appointments
      && (q.status.Some? && q.status.value != "" ==> StatusName(v.appointment.status) == q.status.value)
      && (q.patientId.Some? ==> v.appointment.patientId == q.patientId.value)
      && (q.doctorId.Some? ==> v.appointment.doctorId == q.doctorId.value)
      && JoinAppointment(db, v.appointment) == Some(v)
    ensures UniqueBy(db.appointments, AppointmentId) ==> UniqueBy(r, ViewId)
  {
    var m := Appointments.AppointmentMatch(q.patientId, q.doctorId,
               if q.status.Some? && q.status.value != "" then q.status else None);
    var rows := FilterMap(Filter(db.appointments, Appointments.Selected(m)), Joiner(db));
    SortByMembers(rows, AppointmentOrder, Descending);
    Appointments.SelectedRows(db, m);
    FilterJoinUnique(db.appointments, Appointments.Selected(m), Joiner(db), AppointmentId, ViewId);
    SortByUnique(rows, AppointmentOrder, Descending, ViewId);
    SortBy(rows, AppointmentOrder, Descending)
  }

  /** The administrator's own list and the shared list agree for an
      administrator. */
  lemma AdminListsAgree(db: Db, q: Appointments.AppointmentQuery, userId: nat)
    ensures GetAllAppointments(db, q) == Appointments.GetAppointments(db, Actor(userId, AdminRole), q)
  {
    assert Appointments.ScopeOf(db, Actor(userId, AdminRole), q)
        == Appointments.AppointmentMatch(q.patientId, q.doctorId,
             if q.status.Some? && q.status.value != "" then q.status else None);
  }
}
