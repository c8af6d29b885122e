/** The rows of the five tables (BackEnd/models/user.js, patient.js,
    doctor.js, appointment.js, medicalRecord.js) and the two free-form
    string columns that the handlers interpret: a user's role and an
    appointment's status. Nullable columns are `Option`s; timestamps are
    kept only where a query sorts by them. */
module Schema {
  import opened Common

  /** `role` is a required string; three values have a meaning. */
  datatype Role = PatientRole | DoctorRole | AdminRole | OtherRole(name: string)

  predicate KnownRoleName(s: string) {
    s == "patient" || s == "doctor" || s == "admin"
  }

  /** An `OtherRole` never spells one of the three known roles. */
  predicate RoleWellFormed(r: Role) {
    r.OtherRole? ==> !KnownRoleName(r.name)
  }

  function RoleName(r: Role): string {
    match r
    case PatientRole => "patient"
    case DoctorRole => "doctor"
    case AdminRole => "admin"
    case OtherRole(s) => s
  }

  /** Reads a stored role string. */
  function ParseRole(s: string): (r: Role)
    ensures RoleWellFormed(r)
    ensures RoleName(r) == s
  {
    if s == "patient" then PatientRole
    else if s == "doctor" then DoctorRole
    else if s == "admin" then AdminRole
    else OtherRole(s)
  }

  lemma RoleRoundTrip(r: Role)
    requires RoleWellFormed(r)
    ensures ParseRole(RoleName(r)) == r
  {
  }

  /** `status` is a required string (BackEnd/models/appointment.js:11) that
      the update path sets to any value; four values have a meaning. */
  datatype Status = Pending | Approved | Completed | Cancelled | Other(name: string)

  predicate KnownStatusName(s: string) {
    s == "pending" || s == "approved" || s == "completed" || s == "cancelled"
  }

  predicate StatusWellFormed(st: Status) {
    st.Other? ==> !KnownStatusName(st.name)
  }

  function StatusName(st: Status): string {
    match st
    case Pending => "pending"
    case Approved => "approved"
    case Completed => "completed"
    case Cancelled => "cancelled"
    case Other(s) => s
  }

  function ParseStatus(s: string): (st: Status)
    ensures StatusWellFormed(st)
    ensures StatusName(st) == s
  {
    if s == "pending" then Pending
    else if s == "approved" then Approved
    else if s == "completed" then Completed
    else if s == "cancelled" then Cancelled
    else Other(s)
  }

  lemma StatusRoundTrip(st: Status)
    requires StatusWellFormed(st)
    ensures ParseStatus(StatusName(st)) == st
  {
  }

  /** Two well-formed statuses with the same name are the same status, so a
      filter on the stored string is a filter on the status. */
  lemma StatusNameInjective(a: Status, b: Status)
    requires StatusWellFormed(a) && StatusWellFormed(b)
    ensures StatusName(a) == StatusName(b) <==> a == b
  {
    StatusRoundTrip(a);
    StatusRoundTrip(b);
  }

  /** BackEnd/models/user.js: `password` holds the credential hash. */
  datatype User = User(id: nat, name: string, email: string, password: string, role: Role, createdAt: nat)

  /** BackEnd/models/patient.js */
  datatype Patient = Patient(
    id: nat, userId: nat,
    phone: Option<string>, address: Option<string>, dateOfBirth: Option<string>,
    gender: Option<string>, emergencyContact: Option<string>)

  /** BackEnd/models/doctor.js */
  datatype Doctor = Doctor(
    id: nat, userId: nat,
    specialization: Option<string>, phone: Option<string>, address: Option<string>,
    licenseNumber: Option<string>, experienceYears: Option<int>, bio: Option<string>)

  /** BackEnd/models/appointment.js */
  datatype Appointment = Appointment(
    id: nat, patientId: nat, doctorId: nat,
    date: string, time: string,
    reason: Option<string>, status: Status, notes: Option<string>)

  /** BackEnd/models/medicalRecord.js. `record_date` is required on insert but
      an update may set it to null. */
  datatype MedicalRecord = MedicalRecord(
    id: nat, patientId: nat, doctorId: nat, appointmentId: Option<nat>,
    diagnosis: Option<string>, prescription: Option<string>, notes: Option<string>,
    recordDate: Option<string>, createdAt: nat)

  // The indexed columns, as functions for the unique indexes.
  function UserId(u: User): nat { u.id }
  function UserEmail(u: User): string { u.email }
  function PatientId(p: Patient): nat { p.id }
  function PatientUser(p: Patient): nat { p.userId }
  function DoctorId(d: Doctor): nat { d.id }
  function DoctorUser(d: Doctor): nat { d.userId }
  function AppointmentId(a: Appointment): nat { a.id }
  function RecordId(m: MedicalRecord): nat { m.id }
}
