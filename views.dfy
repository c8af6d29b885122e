/** What the handlers send back: user rows without the password hash, and
    the joined rows the list and detail queries build from several tables.
    Each join is an inner join: a row whose referenced patient, doctor or
    user is missing is dropped, as `$unwind` (and SQL `JOIN`) drop it. */
module Views {
  import opened Common
  import opened Schema
  import opened Ordering
  import opened Storage

  /** The authenticated caller, as the authentication middleware decodes it
      from the token. */
  datatype Actor = Actor(userId: nat, role: Role)

  /** A user as the profile and authentication handlers return it. */
  datatype Account = Account(id: nat, name: string, email: string, role: Role)

  /** A user as the administration handlers list it. */
  datatype UserSummary = UserSummary(id: nat, name: string, email: string, role: Role, createdAt: nat)

  /** The caller's account and, when there is one, their profile of one
      kind (getDoctorProfile, getPatientProfile). */
  datatype OwnProfile<P> = OwnProfile(user: Account, profile: Option<P>)

  function AccountOf(u: User): (a: Account)
    ensures a.id == u.id && a.name == u.name && a.email == u.email && a.role == u.role
  {
    Account(u.id, u.name, u.email, u.role)
  }

  function SummaryId(s: UserSummary): nat { s.id }

  function SummaryOf(u: User): (s: UserSummary)
    ensures s.id == u.id && s.name == u.name && s.email == u.email && s.role == u.role
    ensures s.createdAt == u.createdAt
  {
    UserSummary(u.id, u.name, u.email, u.role, u.createdAt)
  }

  /** An appointment with its patient's and its doctor's user details. */
  datatype AppointmentView = AppointmentView(
    appointment: Appointment,
    patientUserId: nat, patientName: string, patientEmail: string,
    doctorUserId: nat, doctorName: string, doctorEmail: string,
    specialization: Option<string>)

  /** The four-way join of the appointment queries: appointment, its patient,
      the patient's user, its doctor, the doctor's user. */
  function JoinAppointment(db: Db, a: Appointment): (r: Option<AppointmentView>)
    ensures r.Some? <==>
      && FindPatient(db.patients, a.patientId).Some?
      && FindUser(db.users, FindPatient(db.patients, a.patientId).value.userId).Some?
      && FindDoctor(db.doctors, a.doctorId).Some?
      && FindUser(db.users, FindDoctor(db.doctors, a.doctorId).value.userId).Some?
    ensures r.Some? ==> r.value.appointment == a
    ensures r.Some? ==>
      && (exists p :: p in db.patients && p.id == a.patientId && p.userId == r.value.patientUserId)
      && (exists u :: u in db.users && u.id == r.value.patientUserId
            && u.name == r.value.patientName && u.email == r.value.patientEmail)
      && (exists d :: d in db.doctors && d.id == a.doctorId && d.userId == r.value.doctorUserId
            && d.specialization == r.value.specialization)
      && (exists u :: u in db.users && u.id == r.value.doctorUserId
            && u.name == r.value.doctorName && u.email == r.value.doctorEmail)
  {
    match FindPatient(db.patients, a.patientId)
    case None => None
    case Some(p) =>
      match FindUser(db.users, p.userId)
      case None => None
      case Some(pu) =>
        match FindDoctor(db.doctors, a.doctorId)
        case None => None
        case Some(d) =>
          match FindUser(db.users, d.userId)
          case None => None
          case Some(du) =>
            Some(AppointmentView(a, p.userId, pu.name, pu.email, d.userId, du.name, du.email, d.specialization))
  }

  /** The appointment a listed row is about. */
  function ViewId(v: AppointmentView): nat { v.appointment.id }

  function Joiner(db: Db): Appointment -> Option<AppointmentView> {
    (a: Appointment) => JoinAppointment(db, a)
  }

  /** The appointment lists sort by date, then time, newest first. */
  function AppointmentOrder(v: AppointmentView): seq<Key> {
    [KStr(v.appointment.date), KStr(v.appointment.time)]
  }

  /** An appointment as a doctor's own list shows it: joined with the patient
      side only. */
  datatype PatientSideView = PatientSideView(
    appointment: Appointment, patientUserId: nat, patientName: string, patientEmail: string)

  function JoinPatientSide(db: Db, a: Appointment): (r: Option<PatientSideView>)
    ensures r.Some? <==>
      && FindPatient(db.patients, a.patientId).Some?
      && FindUser(db.users, FindPatient(db.patients, a.patientId).value.userId).Some?
    ensures r.Some? ==> r.value.appointment == a
    ensures r.Some? ==>
      && (exists p :: p in db.patients && p.id == a.patientId && p.userId == r.value.patientUserId)
      && (exists u :: u in db.users && u.id == r.value.patientUserId
            && u.name == r.value.patientName && u.email == r.value.patientEmail)
  {
    match FindPatient(db.patients, a.patientId)
    case None => None
    case Some(p) =>
      match FindUser(db.users, p.userId)
      case None => None
      case Some(pu) => Some(PatientSideView(a, p.userId, pu.name, pu.email))
  }

  function SideViewId(v: PatientSideView): nat { v.appointment.id }

  function PatientSideJoiner(db: Db): Appointment -> Option<PatientSideView> {
    (a: Appointment) => JoinPatientSide(db, a)
  }

  /** A row the four-way join completes has the same patient side as the
      two-way join gives it. */
  lemma JoinsAgree(db: Db, a: Appointment)
    requires JoinAppointment(db, a).Some?
    ensures var v := JoinAppointment(db, a).value;
      JoinPatientSide(db, a) == Some(PatientSideView(a, v.patientUserId, v.patientName, v.patientEmail))
  {
  }

  function PatientSideOrder(v: PatientSideView): seq<Key> {
    [KStr(v.appointment.date), KStr(v.appointment.time)]
  }

  /** A doctor in the public directory: the profile with its user's name and
      email, and the user's creation time in place of the profile's. */
  datatype DoctorListing = DoctorListing(doctor: Doctor, name: string, email: string, createdAt: nat)

  function ListDoctor(db: Db, d: Doctor): (r: Option<DoctorListing>)
    ensures r.Some? <==> FindUser(db.users, d.userId).Some?
    ensures r.Some? ==> r.value.doctor == d
    ensures r.Some? ==>
      exists u :: u in db.users && u.id == d.userId
        && u.name == r.value.name && u.email == r.value.email && u.createdAt == r.value.createdAt
  {
    match FindUser(db.users, d.userId)
    case None => None
    case Some(u) => Some(DoctorListing(d, u.name, u.email, u.createdAt))
  }

  function ListingId(l: DoctorListing): nat { l.doctor.id }

  function DoctorLister(db: Db): Doctor -> Option<DoctorListing> {
    (d: Doctor) => ListDoctor(db, d)
  }

  /** The directory sorts by the doctor's name, A to Z. */
  function ListingOrder(l: DoctorListing): seq<Key> {
    [KStr(l.name)]
  }

  /** A medical record with its author's name and specialization (the
      response of record creation and update). */
  datatype RecordWithDoctor = RecordWithDoctor(record: MedicalRecord, doctorName: string, specialization: Option<string>)

  /** A medical record as a patient's history shows it: also the date and
      time of the appointment it refers to, when that still exists. */
  datatype RecordView = RecordView(
    record: MedicalRecord, doctorName: string, specialization: Option<string>,
    appointmentDate: Option<string>, appointmentTime: Option<string>)

  function AuthorOf(db: Db, m: MedicalRecord): (r: Option<RecordWithDoctor>)
    ensures r.Some? <==>
      FindDoctor(db.doctors, m.doctorId).Some?
      && FindUser(db.users, FindDoctor(db.doctors, m.doctorId).value.userId).Some?
    ensures r.Some? ==> r.value.record == m
  {
    match FindDoctor(db.doctors, m.doctorId)
    case None => None
    case Some(d) =>
      match FindUser(db.users, d.userId)
      case None => None
      case Some(u) => Some(RecordWithDoctor(m, u.name, d.specialization))
  }

  /** The history join: the doctor side is an inner join, the appointment a
      left join. */
  function JoinRecord(db: Db, m: MedicalRecord): (r: Option<RecordView>)
    ensures r.Some? <==> AuthorOf(db, m).Some?
    ensures r.Some? ==> r.value.record == m
    ensures r.Some? ==> (r.value.appointmentDate.Some? <==>
      m.appointmentId.Some? && FindAppointment(db.appointments, m.appointmentId.value).Some?)
    ensures r.Some? && r.value.appointmentDate.Some? ==>
      r.value.appointmentDate.value == FindAppointment(db.appointments, m.appointmentId.value).value.date
      && r.value.appointmentTime == Some(FindAppointment(db.appointments, m.appointmentId.value).value.time)
  {
    match AuthorOf(db, m)
    case None => None
    case Some(w) =>
      var linked := if m.appointmentId.Some? then FindAppointment(db.appointments, m.appointmentId.value) else None;
      match linked
      case None => Some(RecordView(m, w.doctorName, w.specialization, None, None))
      case Some(a) => Some(RecordView(m, w.doctorName, w.specialization, Some(a.date), Some(a.time)))
  }

  function RecordViewId(v: RecordView): nat { v.record.id }

  function RecordJoiner(db: Db): MedicalRecord -> Option<RecordView> {
    (m: MedicalRecord) => JoinRecord(db, m)
  }

  /** The history sorts by record date, then creation time, newest first; a
      record without a date sorts below every dated one. */
  function RecordOrder(v: RecordView): seq<Key> {
    [if v.record.recordDate.Some? then KStr(v.record.recordDate.value) else KNull, KNat(v.record.createdAt)]
  }

  /** The user lists sort by creation time, newest first. */
  function SummaryOrder(s: UserSummary): seq<Key> {
    [KNat(s.createdAt)]
  }

  /** The role-specific profile a user detail carries: none for a role other
      than patient or doctor, else that profile or null. */
  datatype Attachment = NoAttachment | AttachedPatient(patient: Option<Patient>) | AttachedDoctor(doctor: Option<Doctor>)

  datatype UserDetail = UserDetail(user: UserSummary, profile: Attachment)

  /** A user with the profile of their role (getMe, getUserById). */
  function UserDetailOf(db: Db, id: nat): (r: Option<UserDetail>)
    ensures r.None? <==> forall u :: u in db.users ==> u.id != id
    ensures r.Some? ==> exists u :: u in db.users && u.id == id && r.value.user == SummaryOf(u)
    ensures r.Some? ==>
      && (r.value.profile.AttachedPatient? <==> RoleName(r.value.user.role) == "patient")
      && (r.value.profile.AttachedDoctor? <==> RoleName(r.value.user.role) == "doctor")
    ensures r.Some? && r.value.profile.AttachedPatient? ==>
      && (r.value.profile.patient.None? <==> forall p :: p in db.patients ==> p.userId != id)
      && (r.value.profile.patient.Some? ==> r.value.profile.patient.value in db.patients && r.value.profile.patient.value.userId == id)
    ensures r.Some? && r.value.profile.AttachedDoctor? ==>
      && (r.value.profile.doctor.None? <==> forall d :: d in db.doctors ==> d.userId != id)
      && (r.value.profile.doctor.Some? ==> r.value.profile.doctor.value in db.doctors && r.value.profile.doctor.value.userId == id)
  {
    match FindUser(db.users, id)
    case None => None
    case Some(u) =>
      var profile :=
        if RoleName(u.role) == "patient" then AttachedPatient(FindPatientByUser(db.patients, id))
        else if RoleName(u.role) == "doctor" then AttachedDoctor(FindDoctorByUser(db.doctors, id))
        else NoAttachment;
      Some(UserDetail(SummaryOf(u), profile))
  }
}
