/** The booking engine: BackEnd/controllers/appointmentController.js.
    Booking, listing, reading, updating and deleting appointments, with the
    role scoping every read applies. */
module Appointments {
  import opened Common
  import opened Schema
  import opened Tables
  import opened Ordering
  import opened Counters
  import opened Storage
  import opened Slots
  import opened Views

  const ProfileMissing: string := "Patient profile not found. Please complete your profile."
  const PatientIdRequired: string := "Patient ID is required"
  const PatientMissing: string := "Patient not found"
  const DoctorMissing: string := "Doctor not found"
  const SlotBooked: string := "This time slot is already booked"
  const AppointmentMissing: string := "Appointment not found"
  const AccessDenied: string := "Access denied"
  const PatientsOnlyCancel: string := "Patients can only cancel appointments"
  const NoFields: string := "No fields to update"

  // ---------------------------------------------------------------- booking

  /** The body of a booking request. `patient_id` is optional. */
  datatype BookingRequest = BookingRequest(
    doctorId: Field<nat>, date: Field<string>, time: Field<string>,
    reason: Field<string>, patientId: Field<nat>)

  const DoctorRequired: string := "Doctor ID is required"
  const DateRequired: string := "Appointment date is required"
  const TimeRequired: string := "Appointment time is required"

  /** The route's validators (`notEmpty` on doctor, date and time): the
      messages of all that fail, in declaration order. A number is never
      empty, 0 included; a missing or null value always is. */
  function ValidationErrors(req: BookingRequest): (r: seq<string>)
    ensures r == [] <==> req.doctorId.Given? && TruthyStr(req.date) && TruthyStr(req.time)
    ensures DoctorRequired in r <==> !req.doctorId.Given?
    ensures DateRequired in r <==> !TruthyStr(req.date)
    ensures TimeRequired in r <==> !TruthyStr(req.time)
    ensures |r| <= 3
  {
    (if req.doctorId.Given? then [] else [DoctorRequired])
    + (if TruthyStr(req.date) then [] else [DateRequired])
    + (if TruthyStr(req.time) then [] else [TimeRequired])
  }

  /** Whose appointment it is: an explicit non-zero `patient_id` is honoured
      for every role; a patient who gives none books for their own profile. */
  function ResolvePatient(db: Db, actor: Actor, req: BookingRequest): (r: Result<nat>)
    ensures r.Ok? ==> r.value != 0
    ensures TruthyInt(req.patientId) ==> r == Ok(req.patientId.value)
    ensures r == Err(NotFound(ProfileMissing)) <==>
      !TruthyInt(req.patientId) && actor.role == PatientRole && FindPatientByUser(db.patients, actor.userId).None?
    ensures !TruthyInt(req.patientId) && actor.role != PatientRole ==> r == Err(BadRequest(PatientIdRequired))
    ensures r.Ok? && !TruthyInt(req.patientId) ==>
      actor.role == PatientRole
      && exists p :: p in db.patients && p.userId == actor.userId && p.id == r.value
  {
    if TruthyInt(req.patientId) then Ok(req.patientId.value)
    else if actor.role == PatientRole then
      match FindPatientByUser(db.patients, actor.userId)
      case None => Err(NotFound(ProfileMissing))
      case Some(p) => if p.id == 0 then Err(BadRequest(PatientIdRequired)) else Ok(p.id)
    else Err(BadRequest(PatientIdRequired))
  }

  /** A booking that passed every check, before it has an id. */
  datatype Booking = Booking(patientId: nat, doctorId: nat, date: string, time: string, reason: Option<string>)

  /** The checks of createAppointment, in the order the handler makes them:
      validation, the patient, the patient's existence, the doctor's
      existence, the double-booking query. */
  function CheckBooking(db: Db, actor: Actor, req: BookingRequest): (r: Result<Booking>)
    ensures ValidationErrors(req) != [] ==> r == Err(Invalid(ValidationErrors(req)))
    ensures ValidationErrors(req) == [] && ResolvePatient(db, actor, req).Err? ==>
      r == Err(ResolvePatient(db, actor, req).error)
    ensures ValidationErrors(req) == [] && ResolvePatient(db, actor, req).Ok? ==>
      var pid := ResolvePatient(db, actor, req).value;
      && (FindPatient(db.patients, pid).None? ==> r == Err(NotFound(PatientMissing)))
      && (FindPatient(db.patients, pid).Some? && FindDoctor(db.doctors, req.doctorId.value).None? ==>
            r == Err(NotFound(DoctorMissing)))
      && (FindPatient(db.patients, pid).Some? && FindDoctor(db.doctors, req.doctorId.value).Some? ==>
            (r.Ok? <==> !SlotTaken(db.appointments, req.doctorId.value, req.date.value, req.time.value))
            && (r.Err? ==> r == Err(BadRequest(SlotBooked))))
    ensures r.Ok? ==>
      && ValidationErrors(req) == []
      && ResolvePatient(db, actor, req) == Ok(r.value.patientId)
      && r.value.doctorId == req.doctorId.value
      && r.value.date == req.date.value && r.value.time == req.time.value
      && r.value.reason == OrNullStr(req.reason)
      && (exists p :: p in db.patients && p.id == r.value.patientId)
      && (exists d :: d in db.doctors && d.id == r.value.doctorId)
      && !SlotTaken(db.appointments, r.value.doctorId, r.value.date, r.value.time)
  {
    if ValidationErrors(req) != [] then Err(Invalid(ValidationErrors(req)))
    else
      match ResolvePatient(db, actor, req)
      case Err(e) => Err(e)
      case Ok(pid) =>
        var did := req.doctorId.value;
        if FindPatient(db.patients, pid).None? then Err(NotFound(PatientMissing))
        else if FindDoctor(db.doctors, did).None? then Err(NotFound(DoctorMissing))
        else if SlotTaken(db.appointments, did, req.date.value, req.time.value) then Err(BadRequest(SlotBooked))
        else Ok(Booking(pid, did, req.date.value, req.time.value, OrNullStr(req.reason)))
  }

  /** The row a booking inserts: pending, without notes. */
  function Booked(id: nat, b: Booking): (a: Appointment)
    ensures a.id == id && a.patientId == b.patientId && a.reason == b.reason
    ensures SlotOf(a) == (b.doctorId, b.date, b.time)
    ensures a.status == Pending && a.notes == None
  {
    Appointment(id, b.patientId, b.doctorId, b.date, b.time, b.reason, Pending, None)
  }

  /** createAppointment. On every refusal of the checks the store is
      unchanged. Once they pass, getNextId takes the next id of the
      `appointments` counter. If an appointment still occupies the slot (a
      cancelled one, since the checks passed) the compound index refuses the
      insert and the handler answers 500 with only the counter moved;
      otherwise exactly one pending appointment is appended under that id
      and returned joined (absent when one of the joined rows is missing).
      No slot ever holds two active appointments. */
  method CreateAppointment(st: Store, actor: Actor, req: BookingRequest) returns (r: Result<Option<AppointmentView>>)
    requires st.Valid()
    modifies st
    ensures st.Valid()
    ensures CheckBooking(old(st.State()), actor, req).Err? ==>
      r == Err(CheckBooking(old(st.State()), actor, req).error) && st.State() == old(st.State())
    ensures CheckBooking(old(st.State()), actor, req).Ok? ==>
      var alloc := Allocate(old(st.counters), AppointmentsSeq);
      var a := Booked(alloc.1, CheckBooking(old(st.State()), actor, req).value);
      && (SlotHeld(old(st.appointments), a) ==>
            && r == Err(ServerError(ServerFault))
            && st.State() == old(st.State()).(counters := alloc.0)
            && exists c :: c in old(st.appointments) && SameSlot(c, a) && c.status == Cancelled)
      && (!SlotHeld(old(st.appointments), a) ==>
            && st.State() == old(st.State()).(appointments := old(st.appointments) + [a], counters := alloc.0)
            && r == Ok(JoinAppointment(st.State(), a)))
    ensures ActiveSlotsExclusive(st.appointments)
  {
    RawIndexImpliesExclusive(st.appointments);
    var check := CheckBooking(st.State(), actor, req);
    if check.Err? {
      return Err(check.error);
    }
    var b := check.value;
    var id := st.NextId(AppointmentsSeq);
    var a := Booked(id, b);
    if SlotHeld(st.appointments, a) {
      HeldIffTakenOrCancelled(st.appointments, a);
      return Err(ServerError(ServerFault));
    }
    AppendAppointment(old(st.State()), a);
    RawIndexImpliesExclusive(st.appointments + [a]);
    st.Replace(st.State().(appointments := st.appointments + [a]));
    r := Ok(JoinAppointment(st.State(), a));
  }

  // ---------------------------------------------------------------- listing

  /** The query string of the list: `status`, `patient_id`, `doctor_id`. A
      missing or empty parameter is `None`; a given id is the value parsed
      from it. */
  datatype AppointmentQuery = AppointmentQuery(status: Option<string>, patientId: Option<nat>, doctorId: Option<nat>)

  const NoQuery: AppointmentQuery := AppointmentQuery(None, None, None)

  /** The `$match` stage the handler builds. */
  datatype AppointmentMatch = AppointmentMatch(patientId: Option<nat>, doctorId: Option<nat>, status: Option<string>)

  predicate Matches(m: AppointmentMatch, a: Appointment) {
    && (m.patientId.Some? ==> a.patientId == m.patientId.value)
    && (m.doctorId.Some? ==> a.doctorId == m.doctorId.value)
    && (m.status.Some? ==> StatusName(a.status) == m.status.value)
  }

  function Selected(m: AppointmentMatch): Appointment -> bool {
    (a: Appointment) => Matches(m, a)
  }

  /** The caller's own patient profile id, when the caller is a patient that
      has one. */
  function OwnPatientId(db: Db, actor: Actor): (r: Option<nat>)
    ensures r.Some? <==> actor.role == PatientRole && exists p :: p in db.patients && p.userId == actor.userId
    ensures r.Some? ==> exists p :: p in db.patients && p.userId == actor.userId && p.id == r.value
  {
    if actor.role != PatientRole then None
    else match FindPatientByUser(db.patients, actor.userId)
      case None => None
      case Some(p) => Some(p.id)
  }

  /** The caller's own doctor profile id, when the caller is a doctor that
      has one. */
  function OwnDoctorId(db: Db, actor: Actor): (r: Option<nat>)
    ensures r.Some? <==> actor.role == DoctorRole && exists d :: d in db.doctors && d.userId == actor.userId
    ensures r.Some? ==> exists d :: d in db.doctors && d.userId == actor.userId && d.id == r.value
  {
    if actor.role != DoctorRole then None
    else match FindDoctorByUser(db.doctors, actor.userId)
      case None => None
      case Some(d) => Some(d.id)
  }

  /** Role scoping: a patient or a doctor with a profile is confined to their
      own appointments; only an administrator's id parameters count; a
      non-empty status always filters. */
  function ScopeOf(db: Db, actor: Actor, q: AppointmentQuery): (m: AppointmentMatch)
    ensures actor.role == PatientRole ==> m.patientId == OwnPatientId(db, actor) && m.doctorId.None?
    ensures actor.role == DoctorRole ==> m.doctorId == OwnDoctorId(db, actor) && m.patientId.None?
    ensures actor.role == AdminRole ==> m.patientId == q.patientId && m.doctorId == q.doctorId
    ensures actor.role.OtherRole? ==> m.patientId.None? && m.doctorId.None?
    ensures m.status.Some? <==> q.status.Some? && q.status.value != ""
    ensures m.status.Some? ==> m.status == q.status
  {
    var status := if q.status.Some? && q.status.value != "" then q.status else None;
    var pid := if actor.role == AdminRole && q.patientId.Some? then q.patientId else OwnPatientId(db, actor);
    var did := if actor.role == AdminRole && q.doctorId.Some? then q.doctorId else OwnDoctorId(db, actor);
    AppointmentMatch(pid, did, status)
  }

  /** getAppointments: the appointments the scope selects that join
      completely, each once (no appointment id is listed twice), newest date
      and time first. */
  function GetAppointments(db: Db, actor: Actor, q: AppointmentQuery): (r: seq<AppointmentView>)
    ensures SortedBy(r, AppointmentOrder, Descending)
    ensures multiset(r) == multiset(FilterMap(Filter(db.appointments, Selected(ScopeOf(db, actor, q))), Joiner(db)))
    ensures UniqueBy(db.appointments, AppointmentId) ==> UniqueBy(r, ViewId)
    ensures forall v :: v in r <==>
      v.appointment in db.appointments && Matches(ScopeOf(db, actor, q), v.appointment)
      && JoinAppointment(db, v.appointment) == Some(v)
  {
    var rows := FilterMap(Filter(db.appointments, Selected(ScopeOf(db, actor, q))), Joiner(db));
    SortByMembers(rows, AppointmentOrder, Descending);
    SelectedRows(db, ScopeOf(db, actor, q));
    FilterJoinUnique(db.appointments, Selected(ScopeOf(db, actor, q)), Joiner(db), AppointmentId, ViewId);
    SortByUnique(rows, AppointmentOrder, Descending, ViewId);
    SortBy(rows, AppointmentOrder, Descending)
  }

  /** The joined rows a match selects are exactly the complete views of the
      matching appointments. */
  lemma SelectedRows(db: Db, m: AppointmentMatch)
    ensures forall v :: v in FilterMap(Filter(db.appointments, Selected(m)), Joiner(db)) <==>
      v.appointment in db.appointments && Matches(m, v.appointment) && JoinAppointment(db, v.appointment) == Some(v)
  {
    var kept := Filter(db.appointments, Selected(m));
    var rows := FilterMap(kept, Joiner(db));
    forall v ensures v in rows <==>
      v.appointment in db.appointments && Matches(m, v.appointment) && JoinAppointment(db, v.appointment) == Some(v)
    {
      if v in rows {
        var a :| a in kept && Joiner(db)(a) == Some(v);
        assert v.appointment == a;
      }
      if v.appointment in db.appointments && Matches(m, v.appointment) && JoinAppointment(db, v.appointment) == Some(v) {
        assert v.appointment in kept;
        assert Joiner(db)(v.appointment) == Some(v);
      }
    }
  }

  /** The query's id parameters mean nothing unless the caller is an
      administrator. */
  lemma NonAdminIgnoresQueryIds(db: Db, actor: Actor, q: AppointmentQuery)
    requires actor.role != AdminRole
    ensures GetAppointments(db, actor, q) == GetAppointments(db, actor, AppointmentQuery(q.status, None, None))
  {
  }

  /** A patient with a profile only ever sees their own appointments, and a
      doctor with a profile only their own. */
  lemma ListingIsScoped(db: Db, actor: Actor, q: AppointmentQuery)
    ensures forall v :: v in GetAppointments(db, actor, q) && OwnPatientId(db, actor).Some? ==>
      v.appointment.patientId == OwnPatientId(db, actor).value
    ensures forall v :: v in GetAppointments(db, actor, q) && OwnDoctorId(db, actor).Some? ==>
      v.appointment.doctorId == OwnDoctorId(db, actor).value
  {
  }

  // ---------------------------------------------------------------- reading

  /** The detail handler's ownership test: refused when the caller has a
      profile of their role that is not the appointment's. */
  predicate Denied(db: Db, actor: Actor, a: Appointment) {
    || (OwnPatientId(db, actor).Some? && a.patientId != OwnPatientId(db, actor).value)
    || (OwnDoctorId(db, actor).Some? && a.doctorId != OwnDoctorId(db, actor).value)
  }

  /** getAppointmentById: not found unless the appointment exists and joins
      completely; then refused to a patient or doctor it does not belong
      to. */
  function GetAppointmentById(db: Db, actor: Actor, id: nat): (r: Result<AppointmentView>)
    ensures r == Err(NotFound(AppointmentMissing)) <==>
      FindAppointment(db.appointments, id).None? || JoinAppointment(db, FindAppointment(db.appointments, id).value).None?
    ensures r == Err(Forbidden(AccessDenied)) <==>
      FindAppointment(db.appointments, id).Some? && JoinAppointment(db, FindAppointment(db.appointments, id).value).Some?
      && Denied(db, actor, FindAppointment(db.appointments, id).value)
    ensures r.Err? ==> r.error == NotFound(AppointmentMissing) || r.error == Forbidden(AccessDenied)
    ensures r.Ok? ==>
      r.value.appointment in db.appointments && r.value.appointment.id == id
      && JoinAppointment(db, r.value.appointment) == Some(r.value) && !Denied(db, actor, r.value.appointment)
  {
    match FindAppointment(db.appointments, id)
    case None => Err(NotFound(AppointmentMissing))
    case Some(a) =>
      match JoinAppointment(db, a)
      case None => Err(NotFound(AppointmentMissing))
      case Some(v) => if Denied(db, actor, a) then Err(Forbidden(AccessDenied)) else Ok(v)
  }

  /** The list scope and the detail check agree: an appointment is in the
      caller's unfiltered scope exactly when the detail handler would not
      refuse it. */
  lemma ScopeMatchesAccess(db: Db, actor: Actor, q: AppointmentQuery, a: Appointment)
    ensures Matches(ScopeOf(db, actor, NoQuery), a) <==> !Denied(db, actor, a)
    ensures Matches(ScopeOf(db, actor, q), a) ==> !Denied(db, actor, a)
  {
  }

  /** Every appointment a caller is listed can be opened by that caller, and
      opens to the same view. */
  lemma {:induction false} ListedIsReadable(db: Db, actor: Actor, q: AppointmentQuery, v: AppointmentView)
    requires WellFormed(db)
    requires v in GetAppointments(db, actor, q)
    ensures GetAppointmentById(db, actor, v.appointment.id) == Ok(v)
  {
    FindAppointmentIsUnique(db.appointments, v.appointment);
    ScopeMatchesAccess(db, actor, q, v.appointment);
  }

  /** Every appointment a caller can open is in the caller's unfiltered
      list. */
  lemma {:induction false} ReadableIsListed(db: Db, actor: Actor, id: nat)
    requires GetAppointmentById(db, actor, id).Ok?
    ensures GetAppointmentById(db, actor, id).value in GetAppointments(db, actor, NoQuery)
  {
    var v := GetAppointmentById(db, actor, id).value;
    ScopeMatchesAccess(db, actor, NoQuery, v.appointment);
  }

  // --------------------------------------------------------------- updating

  /** The body of an update: every field is optional. */
  datatype AppointmentPatch = AppointmentPatch(
    status: Field<string>, date: Field<string>, time: Field<string>, notes: Field<string>)

  /** The update checks and the `$set` they build, once the appointment is
      found: a patient may only set the status to cancelled; status, date
      and time change when non-empty, notes whenever given (null included);
      an empty update is refused. Neither ownership nor the double-booking
      query is checked again. */
  function ApplyPatch(a: Appointment, actor: Actor, patch: AppointmentPatch): (r: Result<Appointment>)
    ensures actor.role == PatientRole && TruthyStr(patch.status) && patch.status.value != "cancelled" ==>
      r == Err(Forbidden(PatientsOnlyCancel))
    ensures r == Err(BadRequest(NoFields)) <==>
      !(actor.role == PatientRole && TruthyStr(patch.status) && patch.status.value != "cancelled")
      && !TruthyStr(patch.status) && !TruthyStr(patch.date) && !TruthyStr(patch.time) && !Defined(patch.notes)
    ensures r.Err? ==> r.error == Forbidden(PatientsOnlyCancel) || r.error == BadRequest(NoFields)
    ensures r.Ok? ==>
      && r.value.id == a.id && r.value.patientId == a.patientId && r.value.doctorId == a.doctorId
      && r.value.reason == a.reason
      && r.value.status == (if TruthyStr(patch.status) then ParseStatus(patch.status.value) else a.status)
      && r.value.date == (if TruthyStr(patch.date) then patch.date.value else a.date)
      && r.value.time == (if TruthyStr(patch.time) then patch.time.value else a.time)
      && r.value.notes == Patched(a.notes, patch.notes)
    ensures r.Ok? && StatusWellFormed(a.status) ==> StatusWellFormed(r.value.status)
    ensures r.Ok? && actor.role == PatientRole ==> r.value.status == a.status || r.value.status == Cancelled
  {
    if actor.role == PatientRole && TruthyStr(patch.status) && patch.status.value != "cancelled" then
      Err(Forbidden(PatientsOnlyCancel))
    else if !TruthyStr(patch.status) && !TruthyStr(patch.date) && !TruthyStr(patch.time) && !Defined(patch.notes) then
      Err(BadRequest(NoFields))
    else
      Ok(a.(
        status := if TruthyStr(patch.status) then ParseStatus(patch.status.value) else a.status,
        date := if TruthyStr(patch.date) then patch.date.value else a.date,
        time := if TruthyStr(patch.time) then patch.time.value else a.time,
        notes := Patched(a.notes, patch.notes)))
  }

  /** A patient may move their appointment to another date and time: only
      the status is restricted. */
  lemma PatientMayReschedule(a: Appointment, actor: Actor, date: string)
    requires actor.role == PatientRole && date != ""
    ensures ApplyPatch(a, actor, AppointmentPatch(Absent, Given(date), Absent, Absent)) == Ok(a.(date := date))
  {
  }

  /** `updateOne({ id })` under the unique indexes on `id` and on the slot:
      a rewrite that no other appointment's slot blocks. */
  lemma UpdateById(db: Db, k: nat, a: Appointment)
    requires WellFormed(db)
    requires k < |db.appointments| && a.id == db.appointments[k].id && StatusWellFormed(a.status)
    requires !SlotHeldByOther(db.appointments, a)
    ensures WellFormed(db.(appointments := db.appointments[k := a]))
    ensures forall i :: 0 <= i < |db.appointments| ==>
      db.appointments[k := a][i] == if db.appointments[i].id == a.id then a else db.appointments[i]
  {
    UpdateAt(db.appointments, AppointmentId, k, a);
    MoveToUnheldSlot(db.appointments, k, a);
    assert a.id <= Counter(db.counters, AppointmentsSeq) by {
      assert db.appointments[k] in db.appointments;
    }
  }

  /** updateAppointment. Not found, or refused by the checks, leaves the
      store unchanged. A rewrite that would put the appointment on a slot
      another appointment occupies (cancelled or not) is refused by the
      compound index: 500, store unchanged. Otherwise the appointment is
      rewritten in place and returned joined. No slot ever holds two active
      appointments. */
  method UpdateAppointment(st: Store, actor: Actor, id: nat, patch: AppointmentPatch)
    returns (r: Result<Option<AppointmentView>>)
    requires st.Valid()
    modifies st
    ensures st.Valid()
    ensures FindAppointment(old(st.appointments), id).None? ==>
      r == Err(NotFound(AppointmentMissing)) && st.State() == old(st.State())
    ensures FindAppointment(old(st.appointments), id).Some? ==>
      var p := ApplyPatch(FindAppointment(old(st.appointments), id).value, actor, patch);
      && (p.Err? ==> r == Err(p.error) && st.State() == old(st.State()))
      && (p.Ok? && SlotHeldByOther(old(st.appointments), p.value) ==>
            r == Err(ServerError(ServerFault)) && st.State() == old(st.State()))
      && (p.Ok? && !SlotHeldByOther(old(st.appointments), p.value) ==>
            && st.State() == old(st.State()).(appointments := st.appointments)
            && |st.appointments| == |old(st.appointments)|
            && (forall i :: 0 <= i < |st.appointments| ==>
                  st.appointments[i] == if old(st.appointments)[i].id == id then p.value else old(st.appointments)[i])
            && r == Ok(JoinAppointment(st.State(), p.value)))
    ensures ActiveSlotsExclusive(st.appointments)
  {
    RawIndexImpliesExclusive(st.appointments);
    var found := FindAppointment(st.appointments, id);
    if found.None? {
      return Err(NotFound(AppointmentMissing));
    }
    var p := ApplyPatch(found.value, actor, patch);
    if p.Err? {
      return Err(p.error);
    }
    if SlotHeldByOther(st.appointments, p.value) {
      return Err(ServerError(ServerFault));
    }
    var k :| 0 <= k < |st.appointments| && st.appointments[k] == found.value;
    RewriteAppointment(st, k, p.value);
    r := Ok(JoinAppointment(st.State(), p.value));
  }

  /** The write of updateAppointment: row `k` replaced by a row with the same
      id whose slot no other row occupies. */
  method RewriteAppointment(st: Store, k: nat, a: Appointment)
    requires st.Valid()
    requires k < |st.appointments| && a.id == st.appointments[k].id && StatusWellFormed(a.status)
    requires !SlotHeldByOther(st.appointments, a)
    modifies st
    ensures st.Valid()
    ensures st.State() == old(st.State()).(appointments := old(st.appointments)[k := a])
    ensures forall i :: 0 <= i < |old(st.appointments)| ==>
      st.appointments[i] == if old(st.appointments)[i].id == a.id then a else old(st.appointments)[i]
    ensures ActiveSlotsExclusive(st.appointments)
  {
    UpdateById(st.State(), k, a);
    RawIndexImpliesExclusive(st.appointments[k := a]);
    st.Replace(st.State().(appointments := st.appointments[k := a]));
  }

  // --------------------------------------------------------------- deleting

  function NotAppointment(id: nat): Appointment -> bool {
    (a: Appointment) => a.id != id
  }

  function LinkedTo(id: nat): MedicalRecord -> bool {
    (m: MedicalRecord) => m.appointmentId == Some(id)
  }

  function Unlink(m: MedicalRecord): MedicalRecord {
    m.(appointmentId := None)
  }

  /** Records that pointed at a deleted appointment keep their place and lose
      only the link. */
  function UnlinkAll(records: seq<MedicalRecord>, id: nat): (r: seq<MedicalRecord>)
    ensures |r| == |records|
    ensures forall i :: 0 <= i < |records| ==>
      r[i] == if records[i].appointmentId == Some(id) then records[i].(appointmentId := None) else records[i]
    ensures forall m :: m in r ==> m.appointmentId != Some(id)
    ensures forall m :: m in r ==> exists k :: 0 <= k < |records| && m.id == records[k].id
  {
    var r := Rewrite(records, LinkedTo(id), Unlink);
    assert forall i :: 0 <= i < |r| ==> r[i].id == records[i].id;
    r
  }

  /** deleteAppointment: administrators only; the appointment goes and every
      medical record that referred to it is kept with the link cleared. */
  method DeleteAppointment(st: Store, actor: Actor, id: nat) returns (r: Result<()>)
    requires st.Valid()
    modifies st
    ensures st.Valid()
    ensures actor.role != AdminRole ==> r == Err(Forbidden(AccessDenied)) && st.State() == old(st.State())
    ensures actor.role == AdminRole && FindAppointment(old(st.appointments), id).None? ==>
      r == Err(NotFound(AppointmentMissing)) && st.State() == old(st.State())
    ensures actor.role == AdminRole && FindAppointment(old(st.appointments), id).Some? ==>
      && r == Ok(())
      && st.State() == old(st.State()).(
           appointments := Filter(old(st.appointments), NotAppointment(id)),
           records := UnlinkAll(old(st.records), id))
    ensures forall a :: a in st.appointments <==> a in old(st.appointments) && (r.Ok? ==> a.id != id)
  {
    if actor.role != AdminRole {
      return Err(Forbidden(AccessDenied));
    }
    if FindAppointment(st.appointments, id).None? {
      return Err(NotFound(AppointmentMissing));
    }
    FilterUnique(st.appointments, NotAppointment(id), AppointmentId);
    FilterUnique(st.appointments, NotAppointment(id), SlotOf);
    var records := UnlinkAll(st.records, id);
    assert UniqueBy(records, RecordId) by {
      RewriteUnique(st.records, LinkedTo(id), Unlink, RecordId);
      assert records == Rewrite(st.records, LinkedTo(id), Unlink);
    }
    st.Replace(st.State().(appointments := Filter(st.appointments, NotAppointment(id)), records := records));
    r := Ok(());
  }
}
