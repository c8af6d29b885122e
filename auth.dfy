/** The authentication handlers: BackEnd/controllers/authController.js.
    Registration creates a user and, for the patient and doctor roles, an
    empty profile, and undoes its own inserts when a later step throws;
    login checks the credentials; getMe returns the caller's account.
    Password hashing and verification and token signing are outside the
    model: the hash is an input, verification a function parameter, and a
    token is represented by the claims it signs. */
module Auth {
  import opened Common
  import opened Schema
  import opened Tables
  import opened Counters
  import opened Storage
  import opened Views
  import opened Accounts
  import Patients
  import Doctors
  import Admin

  const UserExists: string := "User already exists"
  const CredentialsRequired: string := "Email and password are required"
  const BadCredentials: string := "Invalid credentials"
  const UserMissing: string := "User not found"

  /** The body of a registration. The route validators decide whether
      `name`, `email` and `password` are acceptable; the handler uses them
      as given. */
  datatype RegisterBody = RegisterBody(
    name: string, email: string, password: string, role: Field<string>,
    phone: Field<string>, address: Field<string>, dateOfBirth: Field<string>,
    gender: Field<string>, specialization: Field<string>)

  /** What a token signs: the user's id, email and role. */
  datatype Claims = Claims(id: nat, email: string, role: Role)

  /** A successful registration or login: the token and the account. */
  datatype Session = Session(token: Claims, user: Account)

  function SessionOf(u: User): (s: Session)
    ensures s.token.id == u.id && s.token.email == u.email && s.token.role == u.role
    ensures s.user == AccountOf(u)
  {
    Session(Claims(u.id, u.email, u.role), AccountOf(u))
  }

  /** The step of a registration that throws, if any: one of the inserts, or
      the token signing (a missing secret, say). */
  datatype Fault = NoFault | UserInsertFails | ProfileInsertFails | TokenFails

  /** `role || 'patient'`: a missing or empty role registers a patient. */
  function StoredRole(b: RegisterBody): (r: Role)
    ensures RoleWellFormed(r)
    ensures RoleName(r) == if TruthyStr(b.role) then b.role.value else "patient"
  {
    ParseRole(if TruthyStr(b.role) then b.role.value else "patient")
  }

  /** The new user row. */
  function NewAccount(id: nat, b: RegisterBody, hashed: string, now: nat): (u: User)
    ensures u.id == id && u.name == b.name && u.email == b.email && u.password == hashed
    ensures u.role == StoredRole(b) && u.createdAt == now
  {
    User(id, b.name, b.email, hashed, StoredRole(b), now)
  }

  /** The profile a patient registration creates: phone, address, date of
      birth and gender `|| null`, without an emergency contact; the profile
      a first profile update would create from the same fields. */
  function RegisteredPatient(id: nat, userId: nat, b: RegisterBody): (p: Patient)
    ensures p.id == id && p.userId == userId
    ensures p.phone == OrNullStr(b.phone) && p.address == OrNullStr(b.address)
    ensures p.dateOfBirth == OrNullStr(b.dateOfBirth) && p.gender == OrNullStr(b.gender)
    ensures p.emergencyContact == None
  {
    Patients.NewPatient(id, userId,
      Patients.PatientBody(Absent, Absent, b.phone, b.address, b.dateOfBirth, b.gender, Absent))
  }

  /** The profile a doctor registration creates: specialization, phone and
      address `|| null`, everything else null. */
  function RegisteredDoctor(id: nat, userId: nat, b: RegisterBody): (d: Doctor)
    ensures d.id == id && d.userId == userId
    ensures d.specialization == OrNullStr(b.specialization)
    ensures d.phone == OrNullStr(b.phone) && d.address == OrNullStr(b.address)
    ensures d.licenseNumber == None && d.experienceYears == None && d.bio == None
  {
    Doctors.NewDoctor(id, userId,
      Doctors.DoctorBody(Absent, Absent, b.specialization, b.phone, b.address, Absent, Absent, Absent))
  }

  /** The id the new user gets. */
  function NextUserId(db: Db): nat {
    Counter(db.counters, UsersSeq) + 1
  }

  /** Whether the profile insert throws: the step fails, or the unique
      `user_id` index already holds a profile for the new id. A role
      other than exactly "patient" or "doctor" inserts no profile, so
      nothing can fail there. */
  predicate ProfileFails(db: Db, b: RegisterBody, fault: Fault) {
    || (b.role == Given("patient")
        && (fault == ProfileInsertFails || FindPatientByUser(db.patients, NextUserId(db)).Some?))
    || (b.role == Given("doctor")
        && (fault == ProfileInsertFails || FindDoctorByUser(db.doctors, NextUserId(db)).Some?))
  }

  /** Whether an insert throws, so that nothing is committed. */
  predicate InsertFails(db: Db, b: RegisterBody, fault: Fault) {
    fault == UserInsertFails || ProfileFails(db, b, fault)
  }

  /** The store after every insert of a registration succeeded, and the
      session it answers with. Ids come from the `users` counter and then,
      for a profile, from the `patients` or `doctors` counter. */
  function Enrolled(db: Db, b: RegisterBody, hashed: string, now: nat): (r: (Db, Session))
    ensures r.0.appointments == db.appointments && r.0.records == db.records
    ensures var (c1, uid) := Allocate(db.counters, UsersSeq);
      && uid == NextUserId(db)
      && r.0.users == db.users + [NewAccount(uid, b, hashed, now)]
      && r.1 == SessionOf(NewAccount(uid, b, hashed, now))
      && (b.role == Given("patient") ==>
            var (c2, pid) := Allocate(c1, PatientsSeq);
            r.0.patients == db.patients + [RegisteredPatient(pid, uid, b)]
            && r.0.doctors == db.doctors && r.0.counters == c2)
      && (b.role == Given("doctor") ==>
            var (c2, did) := Allocate(c1, DoctorsSeq);
            r.0.doctors == db.doctors + [RegisteredDoctor(did, uid, b)]
            && r.0.patients == db.patients && r.0.counters == c2)
      && (b.role != Given("patient") && b.role != Given("doctor") ==>
            r.0.patients == db.patients && r.0.doctors == db.doctors && r.0.counters == c1)
  {
    var (c1, uid) := Allocate(db.counters, UsersSeq);
    var u := NewAccount(uid, b, hashed, now);
    var withUser := db.(users := db.users + [u], counters := c1);
    var after :=
      if b.role == Given("patient") then
        var (c2, pid) := Allocate(c1, PatientsSeq);
        withUser.(patients := db.patients + [RegisteredPatient(pid, uid, b)], counters := c2)
      else if b.role == Given("doctor") then
        var (c2, did) := Allocate(c1, DoctorsSeq);
        withUser.(doctors := db.doctors + [RegisteredDoctor(did, uid, b)], counters := c2)
      else withUser;
    (after, SessionOf(u))
  }

  /** The profile step of register: for the role "patient" or "doctor" an
      id is taken from that table's counter and the profile inserted, which
      throws when the step fails or the new user already has a profile of
      that kind. `profileId` is the id taken, as the handler remembers it
      for its compensating delete. */
  method InsertProfile(st: Store, userId: nat, b: RegisterBody, fault: Fault)
    returns (failed: bool, profileId: Option<nat>)
    requires st.Valid()
    modifies st
    ensures st.Valid()
    ensures st.users == old(st.users) && st.appointments == old(st.appointments) && st.records == old(st.records)
    ensures failed <==>
      || (b.role == Given("patient") && (fault == ProfileInsertFails || FindPatientByUser(old(st.patients), userId).Some?))
      || (b.role == Given("doctor") && (fault == ProfileInsertFails || FindDoctorByUser(old(st.doctors), userId).Some?))
    ensures b.role == Given("patient") ==>
      var (c, pid) := Allocate(old(st.counters), PatientsSeq);
      && profileId == Some(pid) && st.counters == c && st.doctors == old(st.doctors)
      && st.patients == old(st.patients) + (if failed then [] else [RegisteredPatient(pid, userId, b)])
    ensures b.role == Given("doctor") ==>
      var (c, did) := Allocate(old(st.counters), DoctorsSeq);
      && profileId == Some(did) && st.counters == c && st.patients == old(st.patients)
      && st.doctors == old(st.doctors) + (if failed then [] else [RegisteredDoctor(did, userId, b)])
    ensures b.role != Given("patient") && b.role != Given("doctor") ==>
      profileId == None && st.State() == old(st.State())
  {
    failed, profileId := false, None;
    if b.role == Given("patient") {
      var id := st.NextId(PatientsSeq);
      profileId := Some(id);
      if fault == ProfileInsertFails || FindPatientByUser(st.patients, userId).Some? {
        failed := true;
      } else {
        var p := RegisteredPatient(id, userId, b);
        AppendPatient(old(st.State()), p);
        st.Replace(st.State().(patients := st.patients + [p]));
      }
    } else if b.role == Given("doctor") {
      var id := st.NextId(DoctorsSeq);
      profileId := Some(id);
      if fault == ProfileInsertFails || FindDoctorByUser(st.doctors, userId).Some? {
        failed := true;
      } else {
        var d := RegisteredDoctor(id, userId, b);
        AppendDoctor(old(st.State()), d);
        st.Replace(st.State().(doctors := st.doctors + [d]));
      }
    }
  }

  /** The store once the user row is in and the profile step has run, when
      the profile insert threw (`failed`) or not: the counters have moved as
      for a full registration, the user row is there, and the profile row
      too unless the insert threw. `profileId` is the profile id taken. */
  ghost predicate Inserted(before: Db, b: RegisterBody, hashed: string, now: nat,
                           failed: bool, profileId: Option<nat>, after: Db) {
    var (c1, uid) := Allocate(before.counters, UsersSeq);
    && after.users == before.users + [NewAccount(uid, b, hashed, now)]
    && after.appointments == before.appointments && after.records == before.records
    && after.counters == Enrolled(before, b, hashed, now).0.counters
    && (b.role == Given("patient") ==>
          var pid := Allocate(c1, PatientsSeq).1;
          && profileId == Some(pid) && after.doctors == before.doctors
          && after.patients == before.patients + (if failed then [] else [RegisteredPatient(pid, uid, b)]))
    && (b.role == Given("doctor") ==>
          var did := Allocate(c1, DoctorsSeq).1;
          && profileId == Some(did) && after.patients == before.patients
          && after.doctors == before.doctors + (if failed then [] else [RegisteredDoctor(did, uid, b)]))
    && (b.role != Given("patient") && b.role != Given("doctor") ==>
          profileId == None && after.patients == before.patients && after.doctors == before.doctors)
  }

  /** The inserts of register: the user id is taken, then the user row and
      the profile are inserted; `failed` says whether one of them threw. */
  method Insert(st: Store, b: RegisterBody, hashed: string, now: nat, fault: Fault)
    returns (failed: bool, profileId: Option<nat>)
    requires st.Valid()
    requires FindUserByEmail(st.users, b.email).None?
    modifies st
    ensures st.Valid()
    ensures failed <==> InsertFails(old(st.State()), b, fault)
    ensures fault == UserInsertFails ==>
      st.State() == old(st.State()).(counters := Allocate(old(st.counters), UsersSeq).0)
    ensures fault != UserInsertFails ==> Inserted(old(st.State()), b, hashed, now, failed, profileId, st.State())
    ensures !failed ==> st.State() == Enrolled(old(st.State()), b, hashed, now).0
  {
    var before := st.State();
    var userId := st.NextId(UsersSeq);
    if fault == UserInsertFails {
      return true, None;
    }
    var u := NewAccount(userId, b, hashed, now);
    AppendFresh(st.users, u, UserId, Counter(before.counters, UsersSeq));
    AppendUnique(st.users, u, UserEmail);
    st.users := st.users + [u];
    failed, profileId := InsertProfile(st, userId, b, fault);
  }

  /** Deleting a freshly numbered row just appended restores the table. */
  lemma UserRowRemoved(users: seq<User>, counters: map<string, nat>, u: User)
    requires UsersWf(users, counters) && u.id == Counter(counters, UsersSeq) + 1
    ensures Filter(users + [u], NotUser(u.id)) == users
  {
    AppendThenFilter(users, u, NotUser(u.id));
  }

  lemma PatientRowRemoved(patients: seq<Patient>, counters: map<string, nat>, failed: bool, p: Patient)
    requires PatientsWf(patients, counters) && p.id == Counter(counters, PatientsSeq) + 1
    ensures Filter(patients + (if failed then [] else [p]), NotPatient(p.id)) == patients
  {
    if failed {
      FilterKeepsAll(patients, NotPatient(p.id));
      assert patients + [] == patients;
    } else {
      AppendThenFilter(patients, p, NotPatient(p.id));
    }
  }

  lemma DoctorRowRemoved(doctors: seq<Doctor>, counters: map<string, nat>, failed: bool, d: Doctor)
    requires DoctorsWf(doctors, counters) && d.id == Counter(counters, DoctorsSeq) + 1
    ensures Filter(doctors + (if failed then [] else [d]), NotDoctor(d.id)) == doctors
  {
    if failed {
      FilterKeepsAll(doctors, NotDoctor(d.id));
      assert doctors + [] == doctors;
    } else {
      AppendThenFilter(doctors, d, NotDoctor(d.id));
    }
  }

  /** The compensating deletes remove exactly the rows the inserts added. */
  lemma CompensationRestores(before: Db, b: RegisterBody, hashed: string, now: nat,
                             failed: bool, profileId: Option<nat>, after: Db)
    requires WellFormed(before)
    requires Inserted(before, b, hashed, now, failed, profileId, after)
    ensures Filter(after.users, NotUser(NextUserId(before))) == before.users
    ensures (if b.role == Given("patient") && profileId.Some?
             then Filter(after.patients, NotPatient(profileId.value)) else after.patients) == before.patients
    ensures (if b.role == Given("doctor") && profileId.Some?
             then Filter(after.doctors, NotDoctor(profileId.value)) else after.doctors) == before.doctors
  {
    var (c1, uid) := Allocate(before.counters, UsersSeq);
    UserRowRemoved(before.users, before.counters, NewAccount(uid, b, hashed, now));
    if b.role == Given("patient") {
      var pid := Allocate(c1, PatientsSeq).1;
      PatientRowRemoved(before.patients, before.counters, failed, RegisteredPatient(pid, uid, b));
    } else if b.role == Given("doctor") {
      var did := Allocate(c1, DoctorsSeq).1;
      DoctorRowRemoved(before.doctors, before.counters, failed, RegisteredDoctor(did, uid, b));
    }
  }

  /** The compensating deletes of register: `deleteOne({ id })` on the
      profile table for the id taken, if one was, then on the users table. */
  method DeleteCreated(st: Store, b: RegisterBody, userId: nat, profileId: Option<nat>)
    requires st.Valid()
    modifies st
    ensures st.Valid()
    ensures st.State() == old(st.State()).(users := st.users, patients := st.patients, doctors := st.doctors)
    ensures st.users == Filter(old(st.users), NotUser(userId))
    ensures st.patients == if b.role == Given("patient") && profileId.Some?
      then Filter(old(st.patients), NotPatient(profileId.value)) else old(st.patients)
    ensures st.doctors == if b.role == Given("doctor") && profileId.Some?
      then Filter(old(st.doctors), NotDoctor(profileId.value)) else old(st.doctors)
  {
    var patients := st.patients;
    var doctors := st.doctors;
    if b.role == Given("patient") && profileId.Some? {
      FilterUnique(st.patients, NotPatient(profileId.value), PatientId);
      FilterUnique(st.patients, NotPatient(profileId.value), PatientUser);
      patients := Filter(st.patients, NotPatient(profileId.value));
    } else if b.role == Given("doctor") && profileId.Some? {
      FilterUnique(st.doctors, NotDoctor(profileId.value), DoctorId);
      FilterUnique(st.doctors, NotDoctor(profileId.value), DoctorUser);
      doctors := Filter(st.doctors, NotDoctor(profileId.value));
    }
    FilterUnique(st.users, NotUser(userId), UserId);
    FilterUnique(st.users, NotUser(userId), UserEmail);
    st.Replace(st.State().(users := Filter(st.users, NotUser(userId)), patients := patients, doctors := doctors));
  }

  /** register. Validation errors and a taken email refuse the request with
      the store unchanged. Once the ids are taken, a step that throws makes
      the handler delete what it had inserted: every table is as before and
      only the counters have moved. Otherwise the user and the profile of
      their role are stored and the session returned. */
  method Register(st: Store, b: RegisterBody, errors: seq<string>, hashed: string, now: nat, fault: Fault)
    returns (r: Result<Session>)
    requires st.Valid()
    modifies st
    ensures st.Valid()
    ensures errors != [] ==> r == Err(Invalid(errors)) && st.State() == old(st.State())
    ensures errors == [] && FindUserByEmail(old(st.users), b.email).Some? ==>
      r == Err(BadRequest(UserExists)) && st.State() == old(st.State())
    ensures errors == [] && FindUserByEmail(old(st.users), b.email).None? && fault == UserInsertFails ==>
      && r == Err(ServerError(ServerFault))
      && st.State() == old(st.State()).(counters := Allocate(old(st.counters), UsersSeq).0)
    ensures errors == [] && FindUserByEmail(old(st.users), b.email).None? && fault != UserInsertFails
            && (ProfileFails(old(st.State()), b, fault) || fault == TokenFails) ==>
      && r == Err(ServerError(ServerFault))
      && st.State() == old(st.State()).(counters := Enrolled(old(st.State()), b, hashed, now).0.counters)
    ensures errors == [] && FindUserByEmail(old(st.users), b.email).None?
            && !InsertFails(old(st.State()), b, fault) && fault != TokenFails ==>
      && st.State() == Enrolled(old(st.State()), b, hashed, now).0
      && r == Ok(Enrolled(old(st.State()), b, hashed, now).1)
  {
    if errors != [] {
      return Err(Invalid(errors));
    }
    if FindUserByEmail(st.users, b.email).Some? {
      return Err(BadRequest(UserExists));
    }
    var before := st.State();
    var failed, profileId := Insert(st, b, hashed, now, fault);
    if failed || fault == TokenFails {
      if fault != UserInsertFails {
        CompensationRestores(before, b, hashed, now, failed, profileId, st.State());
        DeleteCreated(st, b, NextUserId(before), profileId);
      }
      return Err(ServerError(ServerFault));
    }
    r := Ok(SessionOf(NewAccount(NextUserId(before), b, hashed, now)));
  }

  /** login: both fields must be non-empty; an unknown email and a wrong
      password get the same answer, so a caller cannot tell which it was. */
  function Login(users: seq<User>, email: Field<string>, password: Field<string>,
                 verify: (string, string) -> bool): (r: Result<Session>)
    ensures !TruthyStr(email) || !TruthyStr(password) ==> r == Err(BadRequest(CredentialsRequired))
    ensures TruthyStr(email) && TruthyStr(password) && r.Err? ==> r.error == Unauthorized(BadCredentials)
    ensures r.Ok? ==>
      exists u :: u in users && u.email == email.value && verify(password.value, u.password) && r == Ok(SessionOf(u))
    ensures TruthyStr(email) && TruthyStr(password) && UniqueBy(users, UserEmail) ==>
      (r.Ok? <==> exists u :: u in users && u.email == email.value && verify(password.value, u.password))
  {
    if !TruthyStr(email) || !TruthyStr(password) then Err(BadRequest(CredentialsRequired))
    else
      match FindUserByEmail(users, email.value)
      case None => Err(Unauthorized(BadCredentials))
      case Some(u) =>
        if !verify(password.value, u.password) then Err(Unauthorized(BadCredentials))
        else
          assert u in users && u.email == email.value;
          Ok(SessionOf(u))
  }

  /** Whoever registers can log in with the same email and password, as long
      as the password verifies against the hash that was stored, and gets
      the session registration gave them. */
  lemma RegisteredCanLogIn(db: Db, b: RegisterBody, hashed: string, now: nat, verify: (string, string) -> bool)
    requires WellFormed(db)
    requires FindUserByEmail(db.users, b.email).None?
    requires b.email != "" && b.password != ""
    requires verify(b.password, hashed)
    ensures Login(Enrolled(db, b, hashed, now).0.users, Given(b.email), Given(b.password), verify)
            == Ok(Enrolled(db, b, hashed, now).1)
  {
    var u := NewAccount(NextUserId(db), b, hashed, now);
    var users := db.users + [u];
    AppendUnique(db.users, u, UserEmail);
    FindUserByEmailIsUnique(users, u);
  }

  /** getMe: the caller's account with the profile of their role; the same
      detail the administrator's user view shows. */
  function GetMe(db: Db, actor: Actor): (r: Result<UserDetail>)
    ensures r.Err? <==> forall u :: u in db.users ==> u.id != actor.userId
    ensures r.Err? ==> r.error == NotFound(UserMissing)
    ensures r.Ok? ==> r.value.user.id == actor.userId && Some(r.value) == UserDetailOf(db, actor.userId)
    ensures r == Admin.GetUserById(db, actor.userId)
  {
    match UserDetailOf(db, actor.userId)
    case None => Err(NotFound(UserMissing))
    case Some(d) => Ok(d)
  }
}
