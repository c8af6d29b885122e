# Clinic appointment backend: a Dafny model

This project models the request handlers of the clinic appointment backend (Express on Node.js). Patients, doctors and administrators use it to manage:

- accounts;
- patient and doctor profiles;
- appointments;
- medical records.

The handlers come in two variants:

- **Document store:** `BackEnd/controllers/*.js`, built on Mongoose.
- **Relational:** `BackEnd/controller/*.js`, using MySQL statements.

The routes mix them. The admin, appointment and doctor routes load the document-store controllers (`BackEnd/routes/adminRoutes.js:10`, `appointmentRoutes.js:9`, `doctorRoutes.js:10`). The patient routes load the relational one (`BackEnd/routes/patientRoutes.js:7`). The auth route file is not part of this model, so which auth variant runs is left open. Both variants of every controller are modelled.

Both variants run against one store (`Storage.Store`). It holds:

- the five tables: users, patients, doctors, appointments and medical records;
- the sequence counters of `BackEnd/models/getNextId.js`.

The store's invariant, `Storage.WellFormed`, is what the models under `BackEnd/models/` declare:

- unique `id`s, unique emails and one profile per user;
- the compound unique index of `BackEnd/models/appointment.js:20-23`: at most one appointment per (doctor, date, time), whatever its status;
- every id at most its counter;
- roles and statuses stored as read.

The store refuses a write that would break a unique index. A handler that sends one answers with its catch block's server error.

Every state-changing method keeps that invariant. On every refusal the store is unchanged. On success, each method's contract states the whole new store.

Read-only handlers are functions on a snapshot `Db`. Their contracts state:

- which rows a list holds, as a membership equivalence plus equality as a multiset;
- that no row is listed twice (distinct ids) when the table's ids are unique;
- the order the list is sorted in.

When both variants behave the same, one member models both. The relational variant gets its own module only where it departs from the document store:

- `SqlAuth`: transactional registration;
- `SqlAdmin`: a delete without cascades;
- `SqlDoctors`: how record ids and links are taken.

Modules, one per concern:

- `Common`: request fields and JavaScript truthiness.
- `Schema`: rows, roles and statuses.
- `Counters`: `getNextId`.
- `Tables`: generic table operations.
- `Ordering`: the sort stages.
- `Storage`: the store, lookups and the invariant.
- `Views`: joined responses.
- `Slots`: double booking.
- `Accounts`: the shared user-row update.
- One module per controller: `Appointments`, `Admin`, `Auth`, `Doctors`, `Patients`, `SqlAuth`, `SqlAdmin`, `SqlDoctors`.

Three behaviours of the code that a reader might not expect, and that the model follows:

- **Explicit patient id.** A caller of any role may book for an explicit non-zero `patient_id`. A patient is not confined to their own profile when they give one (`BackEnd/controllers/appointmentController.js:19-39`).
- **Appointment updates.** updateAppointment checks neither ownership nor the double-booking query. A patient may change the date, the time and the notes; only the status is limited to `cancelled` (`BackEnd/controllers/appointmentController.js:354-397`). A move onto a slot another appointment occupies, cancelled or not, is refused by the compound index, and the handler answers with a server error (`:397`, `:465-468`).
- **Appointment access without a profile.** getAppointmentById and getAppointments restrict a patient or doctor only when they have a profile of their role. A caller without one sees every appointment (`BackEnd/controllers/appointmentController.js:154-171`, `326-345`).

## Model

| member | source | states |
|---|---|---|
| Counters.Allocate | BackEnd/models/getNextId.js:3-11 | getNextId returns the named counter plus one (a missing counter counts as 0), stores it under that name, and leaves every other counter unchanged |
| Counters.AllocateAllIncreasing | BackEnd/models/getNextId.js:3-11 | successive ids from one counter strictly increase, and each lies above the counter it started from; no counter ever decreases |
| Storage.Store.NextId | BackEnd/models/getNextId.js:3-11 | the store's getNextId changes only the counters, exactly as `Allocate` says, and returns an id above the counter's old value (so, under the invariant, above every id in that table); a valid store stays valid |
| Ordering.SortBy | BackEnd/controllers/appointmentController.js:187 | a `$sort` stage returns its input reordered: sorted by the given keys in the given direction, and a permutation (equal as multisets) of its input |
| Ordering.SortByMembers | BackEnd/controllers/appointmentController.js:187 | sorting keeps exactly the rows of its input, and as many |
| Ordering.SortByUnique | BackEnd/controllers/appointmentController.js:187 | sorting lists no key twice when its input does not |
| Schema.ParseRole | BackEnd/models/user.js:9 | a stored role string reads as a well-formed role that spells the same string |
| Schema.RoleRoundTrip | BackEnd/models/user.js:9 | reading the name of a well-formed role gives back that role |
| Schema.ParseStatus | BackEnd/models/appointment.js:11 | a stored status string reads as a well-formed status with the same name |
| Schema.StatusRoundTrip | BackEnd/models/appointment.js:11 | reading the name of a well-formed status gives back that status |
| Schema.StatusNameInjective | BackEnd/models/appointment.js:11 | two well-formed statuses have the same stored name exactly when they are equal, so matching on names is matching on statuses |
| Storage.FindUser | BackEnd/models/user.js:5 | `findOne({ id })` returns a user with that id, and returns none exactly when no user has it |
| Storage.FindUserByEmail | BackEnd/models/user.js:7 | `findOne({ email })` returns a user with that email, and returns none exactly when no user has it |
| Storage.FindPatientByUser | BackEnd/models/patient.js:6 | `findOne({ user_id })` on patients returns the profile of that user, and returns none exactly when the user has none |
| Storage.FindDoctorByUser | BackEnd/models/doctor.js:6 | `findOne({ user_id })` on doctors returns the profile of that user, and returns none exactly when the user has none |
| Storage.FindUserIsUnique | BackEnd/models/user.js:5 | under the unique index on `id`, looking a user up by id finds that very row |
| Storage.FindUserByEmailIsUnique | BackEnd/models/user.js:7 | under the unique index on `email`, looking a user up by email finds that very row |
| Storage.FindAppointmentIsUnique | BackEnd/models/appointment.js:5 | under the unique index on `id`, looking an appointment up by id finds that very row |
| Storage.FindPatient | BackEnd/models/patient.js:5 | `findOne({ id })` on patients returns a profile with that id, and returns none exactly when no profile has it |
| Storage.FindDoctor | BackEnd/models/doctor.js:5 | `findOne({ id })` on doctors returns a profile with that id, and returns none exactly when no profile has it |
| Storage.FindAppointment | BackEnd/models/appointment.js:5 | `findOne({ id })` on appointments returns an appointment with that id, and returns none exactly when no appointment has it |
| Storage.FindRecord | BackEnd/models/medicalRecord.js:5 | `findOne({ id })` on records returns a record with that id, and returns none exactly when no record has it |
| Storage.FindPatientIsUnique | BackEnd/models/patient.js:5 | under the unique index on `id`, looking a patient profile up by id finds that very row |
| Storage.FindDoctorIsUnique | BackEnd/models/doctor.js:5 | under the unique index on `id`, looking a doctor profile up by id finds that very row |
| Storage.WellFormed | BackEnd/models/appointment.js:5-23 | the store invariant: the unique indexes of every model (`id` everywhere, `email` on users, `user_id` on profiles, the compound slot index on appointments), every id at most its counter, and well-formed roles and statuses |
| Common.Stored | BackEnd/controllers/doctorController.js:62-67 | a field that is defined is written as given: null stays null and a value is stored as that value |
| Common.OrNullStr | BackEnd/controllers/authController.js:49-52 | `value \|\| null` keeps a string only when it is truthy (given and non-empty); otherwise it stores null |
| Common.OrNullInt | BackEnd/controllers/doctorController.js:81 | `value \|\| null` keeps a number only when it is non-zero |
| Common.OrNullNat | BackEnd/controller/doctorController.js:171 | `appointment_id \|\| null` keeps an id only when it is non-zero, by the same truthiness test as numbers |
| Common.GivenOrNull | BackEnd/controllers/doctorController.js:224 | `!== undefined && !== null ? value : null` keeps every given value, 0 included |
| Common.Patched | BackEnd/controllers/patientController.js:61-65 | a column changes only when its field is defined, and then takes the written value, null included |
| Slots.RawSlotsUnique | BackEnd/models/appointment.js:20-23 | the compound unique index: no two appointments share doctor, date and time, whatever their status |
| Slots.SlotHeld | BackEnd/models/appointment.js:20-23 | the index refuses to insert an appointment exactly when some stored appointment has its slot |
| Slots.SlotHeldByOther | BackEnd/models/appointment.js:20-23 | the index refuses to rewrite an appointment exactly when an appointment with another id has the new slot |
| Slots.HeldIffTakenOrCancelled | BackEnd/models/appointment.js:20-23 | the index refuses a slot exactly when the handler's query does, or when a cancelled appointment still holds it |
| Slots.BookUnheldSlot | BackEnd/controllers/appointmentController.js:67-75 | an insert the index accepts keeps the slot index unique |
| Slots.MoveToUnheldSlot | BackEnd/controllers/appointmentController.js:397 | a rewrite of one appointment, same id, that the index accepts keeps the slot index unique |
| Slots.KeepingSlotNeverRefused | BackEnd/controllers/appointmentController.js:397 | an update that keeps date and time (a status or notes change) is never refused by the index |
| Slots.RawIndexImpliesExclusive | BackEnd/models/appointment.js:20-23 | the declared compound unique index on (doctor, date, time) implies that every slot holds at most one active appointment |
| Slots.BookFreeSlot | BackEnd/controllers/appointmentController.js:53-63 | inserting an appointment whose slot the double-booking query finds free keeps every slot holding at most one active appointment |
| Slots.SlotTakenWitness | BackEnd/controllers/appointmentController.js:53-63 | when the double-booking query refuses, some stored appointment on that slot is not cancelled |
| Slots.CancelKeepsExclusive | BackEnd/controllers/appointmentController.js:397 | rewriting one appointment as cancelled keeps the one-active-per-slot invariant, even without the slot index |
| Slots.RawIndexRejectsRebooking | BackEnd/models/appointment.js:20-23 | a concrete store in which the declared index holds and the handler's query sees the slot of a cancelled appointment as free; after re-booking it the handler's invariant holds while the declared index is violated |
| Storage.CountersGrow | BackEnd/models/getNextId.js:3-11 | raising counters never breaks the store's invariant |
| Storage.AppendAppointment | BackEnd/controllers/appointmentController.js:65-75 | inserting an appointment under the id getNextId just returned, on a slot no stored appointment has, keeps the store well formed |
| Storage.AppendRecord | BackEnd/controllers/doctorController.js:219-230 | inserting a record under the id getNextId just returned keeps the store well formed |
| Storage.AppendPatient | BackEnd/controllers/patientController.js:72-81 | inserting the profile of a user without one, under a fresh id, keeps the unique `id` and `user_id` of patients |
| Storage.AppendDoctor | BackEnd/controllers/doctorController.js:73-83 | inserting the profile of a user without one, under a fresh id, keeps the unique `id` and `user_id` of doctors |
| Storage.UpdatePatientAt | BackEnd/controllers/patientController.js:68 | `updateOne({ id })` on a patient, keeping its id and owner, changes exactly that row and keeps the store well formed |
| Storage.UpdateDoctorAt | BackEnd/controllers/doctorController.js:70 | `updateOne({ id })` on a doctor, keeping its id and owner, changes exactly that row and keeps the store well formed |
| Views.JoinAppointment | BackEnd/controllers/appointmentController.js:188-245 | the four-way `$lookup`/`$unwind` join yields a row exactly when the patient, the patient's user, the doctor and the doctor's user all exist; the row carries those rows' names, emails and specialization |
| Views.JoinPatientSide | BackEnd/controllers/doctorController.js:115-150 | the doctor's list joins only the patient side; it yields a row exactly when the patient and the patient's user exist |
| Views.JoinsAgree | BackEnd/controllers/doctorController.js:115-150 | wherever the four-way join completes, the patient-side join completes too, with the same patient details |
| Views.ListDoctor | BackEnd/controllers/doctorController.js:160-202 | a directory entry exists exactly when the doctor's user exists, and it carries that user's name, email and creation time |
| Views.AuthorOf | BackEnd/controllers/doctorController.js:231-268 | a record is returned with its author's name and specialization exactly when the author's doctor row and user row exist |
| Views.JoinRecord | BackEnd/controllers/patientController.js:107-153 | the history join keeps a record exactly when its author joins; the appointment side is optional |
| Views.AccountOf | BackEnd/controllers/patientController.js:14-17 | the account a handler returns has the user's id, name, email and role, and no password hash |
| Views.SummaryOf | BackEnd/controllers/adminController.js:56-58 | a listed user has the user's id, name, email, role and creation time |
| Views.UserDetailOf | BackEnd/controllers/adminController.js:82-89 | a user's detail carries the profile of their role: the patient profile for "patient", the doctor profile for "doctor", null when missing, and none for another role |
| Accounts.EmailTaken | BackEnd/models/user.js:7 | what the unique index on `email` refuses in a user update: the user exists, the new email is non-empty, and another user already has it |
| Accounts.PatchUser | BackEnd/controllers/adminController.js:102-113 | the user `$set` changes name, email and role only when each is non-empty; it keeps the id, the password hash and the creation time; an empty patch changes nothing |
| Accounts.PatchUserIdempotent | BackEnd/controllers/adminController.js:102-113 | applying the same user update twice gives what applying it once gives |
| Accounts.PatchKeepsUsersWf | BackEnd/models/user.js:5-7 | an update whose email no other user holds keeps ids and emails unique, and changes only the target row |
| Accounts.UpdateUserRow | BackEnd/controllers/doctorController.js:43-54 | `updateOne({ id }, { $set })` on users (also `BackEnd/controller/*Controller.js` UPDATE users). An email held by another user is refused by the unique index with a server error and nothing changes; otherwise exactly the rows with that id are patched and nothing else changes |
| Appointments.ValidationErrors | BackEnd/routes/appointmentRoutes.js:18-20 | the booking validators report each missing or empty doctor, date and time, and report nothing exactly when all three are present |
| Appointments.ResolvePatient | BackEnd/controllers/appointmentController.js:19-39 | an explicit non-zero `patient_id` is used for any role. Without one, a patient books for their own profile, and is refused "profile not found" exactly when they have none; every other role is refused "Patient ID is required" |
| Appointments.CheckBooking | BackEnd/controllers/appointmentController.js:11-63 | the booking checks run in the handler's order: validation, the patient, the patient's existence, the doctor's existence, the double-booking query. The booking passes exactly when all pass, and then names an existing patient, an existing doctor and a free slot |
| Appointments.Booked | BackEnd/controllers/appointmentController.js:67-75 | the inserted row has the new id, the booking's patient, doctor, date, time and reason, status `pending` and no notes |
| Appointments.CreateAppointment | BackEnd/controllers/appointmentController.js:9-146 | createAppointment (also `BackEnd/controller/appointmentController.js:4-90`). Every refusal of the checks leaves the store unchanged. Once they pass, an `appointments` id is taken. If a stored appointment holds the slot (then a cancelled one), the index refuses the insert: server error, with only the counter moved. Otherwise exactly one pending appointment is appended under that id and returned joined. No slot ever holds two active appointments |
| Appointments.OwnPatientId | BackEnd/controllers/appointmentController.js:154-162 | a patient caller's own profile id exists exactly when the caller is a patient with a profile, and it is that profile's id |
| Appointments.OwnDoctorId | BackEnd/controllers/appointmentController.js:163-171 | a doctor caller's own profile id exists exactly when the caller is a doctor with a profile, and it is that profile's id |
| Appointments.ScopeOf | BackEnd/controllers/appointmentController.js:150-183 | the `$match` the list builds. Patients and doctors are confined to their own profile, and their query ids are ignored. Only administrators filter by `patient_id` and `doctor_id`. A non-empty status filters for every role |
| Appointments.GetAppointments | BackEnd/controllers/appointmentController.js:148-253 | getAppointments returns exactly the appointments the scope selects whose join completes, no appointment twice, sorted by date and then time, newest first |
| Appointments.SelectedRows | BackEnd/controllers/appointmentController.js:185-246 | a joined row is selected exactly when its appointment is stored, matches the stage, and joins to that row |
| Appointments.NonAdminIgnoresQueryIds | BackEnd/controllers/appointmentController.js:177-183 | for everyone but an administrator, the id query parameters do not change the list |
| Appointments.ListingIsScoped | BackEnd/controllers/appointmentController.js:154-171 | a patient with a profile is listed only their own appointments, and a doctor with a profile only theirs |
| Appointments.GetAppointmentById | BackEnd/controllers/appointmentController.js:255-352 | not found exactly when the appointment is missing or does not join completely; forbidden exactly when it joins and belongs to another patient or doctor than the caller's profile; otherwise the joined appointment |
| Appointments.ScopeMatchesAccess | BackEnd/controllers/appointmentController.js:326-345 | an appointment lies in the caller's unfiltered list scope exactly when the detail handler's ownership test lets the caller read it |
| Appointments.ListedIsReadable | BackEnd/controllers/appointmentController.js:255-352 | every appointment a caller is listed opens for that caller, giving the same joined row |
| Appointments.ReadableIsListed | BackEnd/controllers/appointmentController.js:148-253 | every appointment a caller can open appears in the caller's unfiltered list |
| Appointments.ApplyPatch | BackEnd/controllers/appointmentController.js:366-394 | a patient may set no status but `cancelled`. Status, date and time change when non-empty, and notes whenever defined. An update with nothing to set is refused. Id, patient, doctor and reason never change, and a patient's update leaves the status unchanged or cancelled |
| Appointments.PatientMayReschedule | BackEnd/controllers/appointmentController.js:366-394 | a patient's update of the date alone is accepted and changes only the date |
| Appointments.UpdateById | BackEnd/controllers/appointmentController.js:397 | `updateOne({ id })` that no other appointment's slot blocks changes exactly the row with that id and keeps the store well formed |
| Appointments.RewriteAppointment | BackEnd/controllers/appointmentController.js:397 | the write of updateAppointment: only that appointment changes, and no slot holds two active appointments |
| Appointments.UpdateAppointment | BackEnd/controllers/appointmentController.js:354-469 | not found, or refused by the patch checks, leaves the store unchanged. A patched row whose slot another appointment holds is refused by the index: server error, store unchanged. Otherwise exactly the appointment with that id is replaced by the patched row, which is returned joined. No slot ever holds two active appointments |
| Appointments.UnlinkAll | BackEnd/controllers/appointmentController.js:486-489 | every record keeps its place and id; those that pointed at the deleted appointment lose only the link, and none points at it afterwards |
| Appointments.DeleteAppointment | BackEnd/controllers/appointmentController.js:471-496 | non-administrators are refused and a missing id is not found, both leaving the store unchanged; otherwise the appointment is removed and every record linked to it is kept with the link cleared |
| Admin.GetDashboardStats | BackEnd/controllers/adminController.js:8-44 | the seven counts are those of `countDocuments`. Patients and doctors are counted by role name, and appointments by status name. The role counts add up to at most the users, and the three status counts to at most the appointments |
| Admin.GetAllUsers | BackEnd/controllers/adminController.js:46-65 | getAllUsers (also `BackEnd/controller/adminController.js:24-45`) returns exactly the users of the requested non-empty role (all users otherwise), without password, no user twice, newest first |
| Admin.UsersListed | BackEnd/controllers/adminController.js:46-65 | the sorted summaries are exactly the summaries of the users the role filter keeps |
| Admin.SummariesOfRole | BackEnd/controllers/adminController.js:51-58 | a summary is listed exactly when it summarises a stored user of the requested role |
| Admin.GetUserById | BackEnd/controllers/adminController.js:67-96 | getUserById (also `BackEnd/controller/adminController.js:47-82`) is not found exactly when no user has the id; otherwise it returns the user with the profile of their role |
| Admin.UpdateUser | BackEnd/controllers/adminController.js:98-120 | updateUser (also `BackEnd/controller/adminController.js:84-121`). No non-empty name, email or role is refused with nothing changed. An email another user holds is a server error with nothing changed. Otherwise exactly that user is patched |
| Admin.Cascade | BackEnd/controllers/adminController.js:133-150 | deleting a user removes that user. For a patient with a profile it also removes the profile with its appointments and records; for a doctor, likewise with the doctor profile. Every other row stays |
| Admin.CascadeKeepsWellFormed | BackEnd/controllers/adminController.js:133-150 | the cascading delete keeps the store well formed |
| Admin.DeleteUser | BackEnd/controllers/adminController.js:122-157 | an administrator cannot delete themself and an unknown id is not found, both with nothing changed; otherwise the store becomes the cascade |
| Admin.GetAllAppointments | BackEnd/controllers/adminController.js:159-245 | getAllAppointments (also `BackEnd/controller/adminController.js:148-188`) returns exactly the appointments that join completely and match the query, no appointment twice, newest first |
| Admin.AdminListsAgree | BackEnd/controllers/adminController.js:159-245 | the administrator's list equals the shared list seen by an administrator |
| Auth.SessionOf | BackEnd/controllers/authController.js:66-81 | the token signs the user's id, email and role, and the response account is the user without the hash |
| Auth.StoredRole | BackEnd/controllers/authController.js:35-41 | `role \|\| 'patient'`: a missing or empty role registers a patient, and any other role is stored as given |
| Auth.NewAccount | BackEnd/controllers/authController.js:35-41 | the new user row has the new id, the name and email given, the credential hash, the stored role and the creation time |
| Auth.RegisteredPatient | BackEnd/controllers/authController.js:43-53 | a patient registration's profile stores phone, address, date of birth and gender `\|\| null`, and no emergency contact |
| Auth.RegisteredDoctor | BackEnd/controllers/authController.js:54-63 | a doctor registration's profile stores specialization, phone and address `\|\| null`, and nothing else |
| Auth.Enrolled | BackEnd/controllers/authController.js:34-81 | after a registration in which every insert succeeded, the user (and for "patient" or "doctor" the profile) is appended under fresh counter ids; appointments and records are untouched |
| Auth.InsertProfile | BackEnd/controllers/authController.js:43-63 | for the role "patient" or "doctor", the profile is created under the next id of its counter unless the insert fails; any other role creates none |
| Auth.Insert | BackEnd/controllers/authController.js:34-63 | the inserts fail exactly when a fault or a taken profile key makes one throw; a failing user insert leaves only the consumed user id; full success gives the enrolled store |
| Auth.UserRowRemoved | BackEnd/controllers/authController.js:89-91 | deleting the freshly numbered user row restores the users table |
| Auth.PatientRowRemoved | BackEnd/controllers/authController.js:83-85 | deleting the freshly numbered patient row restores the patients table |
| Auth.DoctorRowRemoved | BackEnd/controllers/authController.js:86-88 | deleting the freshly numbered doctor row restores the doctors table |
| Auth.CompensationRestores | BackEnd/controllers/authController.js:82-93 | the compensating deletes remove exactly the rows the inserts added |
| Auth.DeleteCreated | BackEnd/controllers/authController.js:82-93 | `deleteOne({ id })` on the created profile and user removes those rows and no others |
| Auth.Register | BackEnd/controllers/authController.js:10-98 | validation errors and a taken email are refused with nothing changed. A failing insert or token is a server error that leaves only the consumed counter values, because the compensation deletes what was inserted. Otherwise the store is the enrolled store and the session is returned |
| Auth.Login | BackEnd/controllers/authController.js:100-143 | login (also `BackEnd/controller/authController.js:85-132`). A missing or empty email or password is a bad request. An unknown email or wrong password is "Invalid credentials". Success returns the session of the user with that email whose hash verifies |
| Auth.RegisteredCanLogIn | BackEnd/controllers/authController.js:10-143 | whoever registers can then log in with the same email and password and receives the session of their new account |
| Auth.GetMe | BackEnd/controllers/authController.js:145-174 | getMe (also `BackEnd/controller/authController.js:134-169`) is not found exactly when the caller's user is missing; otherwise it returns what getUserById returns for the caller |
| Doctors.GetDoctorProfile | BackEnd/controllers/doctorController.js:9-33 | getDoctorProfile (also `BackEnd/controller/doctorController.js:3-29`) is not found exactly when the caller's user is missing; otherwise it returns the account and the caller's doctor profile, null exactly when they have none |
| Doctors.PatchDoctor | BackEnd/controllers/doctorController.js:61-70 | an existing doctor profile takes every defined field, null included, and keeps its id and owner; with no field defined it is unchanged |
| Doctors.PatchDoctorIdempotent | BackEnd/controllers/doctorController.js:61-70 | patching a doctor profile twice with the same body gives what patching once gives |
| Doctors.NewDoctor | BackEnd/controllers/doctorController.js:73-83 | a new doctor profile stores every field `\|\| null` under the new id, for the caller |
| Doctors.CreateIsPatchOfBlank | BackEnd/controllers/doctorController.js:56-83 | with no empty values, creating a profile stores what patching a blank one would; an empty phone is stored as null by creation and as "" by an update |
| Doctors.WriteDoctorProfile | BackEnd/controllers/doctorController.js:56-83 | an existing profile is patched in place and nothing else changes; otherwise exactly one profile is appended under the next `doctors` id |
| Doctors.UpdateDoctorProfile | BackEnd/controllers/doctorController.js:35-91 | updateDoctorProfile (also `BackEnd/controller/doctorController.js:31-93`). An email another user holds fails with nothing changed. Otherwise the caller's user row takes the non-empty name and email, and the profile is patched or created as above |
| Doctors.GetDoctorAppointments | BackEnd/controllers/doctorController.js:93-158 | getDoctorAppointments (also `BackEnd/controller/doctorController.js:95-134`) is not found exactly when the caller has no doctor profile. Otherwise it returns exactly that doctor's appointments, of the status when a non-empty one is given, whose patient side joins, no appointment twice, newest first |
| Doctors.PatientSideRows | BackEnd/controllers/doctorController.js:112-151 | a patient-side row is selected exactly when its appointment is stored, matches and joins to that row |
| Doctors.OwnListCoversGeneralList | BackEnd/controllers/doctorController.js:93-158 | everything the general list shows a doctor also appears in the doctor's own list |
| Doctors.GetAllDoctors | BackEnd/controllers/doctorController.js:160-202 | getAllDoctors (also `BackEnd/controller/doctorController.js:136-150`) returns exactly the profiles whose user exists, no profile twice, by name A to Z |
| Doctors.NewRecord | BackEnd/controllers/doctorController.js:219-230 | a new record carries the author, the patient and the link given; diagnosis, prescription and notes are stored `\|\| null`, and the date is `record_date` or else today |
| Doctors.CreateMedicalRecord | BackEnd/controllers/doctorController.js:204-278 | no doctor profile is not found with nothing changed. A body without `patient_id` fails after consuming a record id. Otherwise the record is appended under the next id and returned with its author |
| Doctors.PatchRecord | BackEnd/controllers/doctorController.js:300-311 | a record update writes diagnosis, prescription, notes and date whenever defined, and never changes the author, the patient, the link or the creation time |
| Doctors.OwnRecord | BackEnd/controllers/doctorController.js:294-297 | `findOne({ id, doctor_id })` finds the record only if that doctor wrote it, and finds none exactly when no such record exists |
| Doctors.RewriteRecord | BackEnd/controllers/doctorController.js:311 | the write of updateMedicalRecord: exactly the row with that id changes, and the store stays well formed |
| Doctors.RecordUpdateById | BackEnd/controllers/doctorController.js:311 | `updateOne({ id })` on records changes exactly the row with that id and keeps the store well formed |
| Doctors.UpdateMedicalRecord | BackEnd/controllers/doctorController.js:280-318 | updateMedicalRecord (also `BackEnd/controller/doctorController.js:195-245`). No doctor profile, a record of another author and an empty update are each refused with nothing changed. Otherwise only that record is patched |
| Patients.GetPatientProfile | BackEnd/controllers/patientController.js:8-32 | getPatientProfile (also `BackEnd/controller/patientController.js:3-29`) is not found exactly when the caller's user is missing; otherwise it returns the account and the caller's patient profile, null exactly when they have none |
| Patients.PatchPatient | BackEnd/controllers/patientController.js:60-68 | an existing patient profile takes every defined field, null included, and keeps its id and owner; with no field defined it is unchanged |
| Patients.PatchPatientIdempotent | BackEnd/controllers/patientController.js:60-68 | patching a patient profile twice with the same body gives what patching once gives |
| Patients.NewPatient | BackEnd/controllers/patientController.js:72-81 | a new patient profile stores every field `\|\| null` under the new id, for the caller |
| Patients.WritePatientProfile | BackEnd/controllers/patientController.js:56-82 | an existing profile is patched in place and nothing else changes; otherwise exactly one profile is appended under the next `patients` id |
| Patients.UpdatePatientProfile | BackEnd/controllers/patientController.js:34-89 | updatePatientProfile (also `BackEnd/controller/patientController.js:31-92`). An email another user holds fails with nothing changed. Otherwise the caller's user row takes the non-empty name and email, and the profile is patched or created |
| Patients.GetMedicalRecords | BackEnd/controllers/patientController.js:91-160 | getMedicalRecords (also `BackEnd/controller/patientController.js:94-127`) is not found exactly when the caller has no patient profile. Otherwise it returns exactly that patient's records whose author joins, no record twice, sorted by record date (undated last) and then creation time, newest first |
| Patients.HistoryRows | BackEnd/controllers/patientController.js:100-153 | the sorted history holds exactly the complete views of the records about that patient, no record twice when record ids are unique |
| Patients.HistoryIsComplete | BackEnd/controllers/patientController.js:91-160 | a record whose author exists appears in a patient's history exactly when it is about that patient |
| SqlAuth.Rollback | BackEnd/controller/authController.js:74-78 | the rollback restores every table as it was when the transaction began; the AUTO_INCREMENT counters keep what the inserts took |
| SqlAuth.Register | BackEnd/controller/authController.js:6-83 | validation errors and a taken email are refused with nothing changed; a failing insert rolls back, leaving only consumed counter values; once committed, the account stays even when the token then fails and the answer is a server error |
| SqlAuth.TokenFailureKeepsAccount | BackEnd/controller/authController.js:54-60 | after the commit the email is taken, so a retry of a registration that failed at the token is refused |
| SqlAdmin.DeleteUser | BackEnd/controller/adminController.js:123-146 | self-deletion is refused and an unknown id is not found; otherwise only the user row is deleted, and every profile, appointment and record stays |
| SqlAdmin.DeleteKeepsProfile | BackEnd/controller/adminController.js:133 | deleting a patient user removes their profile in the document store and, under the assumed schema without foreign-key constraints between the tables, keeps it in the relational one |
| SqlAdmin.OrphansDropOut | BackEnd/controller/adminController.js:133 | an appointment of the deleted user's patient profile no longer joins, so no appointment list shows it |
| SqlDoctors.CreateMedicalRecord | BackEnd/controller/doctorController.js:152-193 | no doctor profile is not found. A body without `patient_id` fails with the store unchanged, because the AUTO_INCREMENT id is taken by the insert. `appointment_id \|\| null` stores 0 as null |
| SqlDoctors.AppointmentLinkDiffers | BackEnd/controller/doctorController.js:171 | given 0, the document store keeps the link 0 and the relational store stores null; any other given id is kept by both, and a missing one is null in both |

## Left out

- **Front end.** The front end (`FrontEnd/`) is not part of this model.
- **Server plumbing.** These are not part of this model:
  - the server (`BackEnd/server.js`);
  - routing;
  - the authentication middleware and the role guards (`authorize`).
  The handlers receive the decoded caller as an `Actor`.
- **Auth validators.** The auth route validators are not modelled. Registration takes their error list as a parameter.
- **bcrypt and JWT.** These are outside code. Registration receives the hash as a parameter. Login receives the password check as a function parameter. A token is modelled by the claims it signs.
- **Failures inside the database.** In registration, a throw from the first insert onward (the user insert, the profile insert, the token) is the `fault` parameter. This includes a required field missing at insert. A throw before the first insert is not modelled; each answers status 500 with the store unchanged. In the document store these are `db.connect`, the email `findOne` and `bcrypt.hash` (`BackEnd/controllers/authController.js:12`, :22, :28). In the relational variant they are the email SELECT, `bcrypt.hash`, `getConnection` and `beginTransaction` (`BackEnd/controller/authController.js:16-30`). Elsewhere the model shows only the failures the handlers provoke themselves: the unique index on email, the compound slot index on appointments, and a missing `patient_id` in record creation.
- **Timestamps.** `updated_at` and the appointments' `created_at` are not modelled. `created_at` of users and records comes in as a parameter (`now`), since it sorts lists. Today's date for a record comes in as a parameter too.
- **Concurrency.** Requests are taken one at a time. So are the parallel `Promise.all` reads. Races between the double-booking query and the insert, and interleaved registrations, are not modelled.
- **Query-string parsing.** `parseInt` and `NaN` handling, with the strings given to MySQL placeholders, are not modelled. Query ids are naturals or absent, and request ids are naturals.
- **String order.** Strings order by code point, lexicographically. Collation and locale are not modelled.
- **Sort ties.** The order among rows with equal sort keys is left open. The sort stages promise none.
- **SQL schema.** The relational schema and the database connection (`BackEnd/config/database.js`) are not part of this model. The relational variant is modelled against an assumed schema: the same unique indexes as the Mongoose models (the slot index included), and no foreign-key constraints between the tables. Nothing in the source fixes either choice. A restricting key, which is MySQL's default, would turn three outcomes the model shows as successes into server errors (status 500) with nothing changed: the relational delete of a user who still has a profile (`BackEnd/controller/adminController.js:132-135`, caught at :142-145), a medical record whose `patient_id` or `appointment_id` names no row (`BackEnd/controller/doctorController.js:169-172`), and a profile insert for a user id with no user row (`BackEnd/controller/patientController.js:81-84`). An AUTO_INCREMENT counter is modelled by the same counters as getNextId.
- Appointments.CreateAppointment: its contract also stands for the relational handler (`BackEnd/controller/appointmentController.js:4-90`) only under the assumed schema. That handler guards the slot with its cancellation-aware query alone (`:53-60`) and then inserts (`:63-66`). With the slot index assumed, re-booking a slot whose only appointment is cancelled is a server error with an id consumed. Without the index, which the code alone does not show to exist, it would insert one row. The model states the first outcome only.
- **Seeding script.** The password-seeding script (`BackEnd/scripts/generatePassword.js`) is not modelled.
- **Missing joined rows.** A created row whose join is missing is returned as absent. In JSON, `records[0]` or `appointments[0]` is then `undefined`.
- **Response fields.** Projections and the renaming of response fields are not modelled. Each view holds the stored rows the response is built from.

## Findings

| source | as written | input that shows it | evidently intended | confidence | as-written member | corrected member |
|---|---|---|---|---|---|---|
| BackEnd/controller/authController.js:54-60 | the transaction commits before the token is signed, so a signing failure answers 500 while the new account stays | a registration whose `jwt.sign` throws: the user is stored, the client is told it failed, and a retry with the same email gets "User already exists" | a failed registration leaves no account, as the other handler variant ensures by deleting what it inserted | not executed | SqlAuth.TokenFailureKeepsAccount | Auth.Register |
| BackEnd/models/appointment.js:20-23 | the compound unique index on (doctor, date, time) counts cancelled appointments too | a cancelled appointment on (doctor 1, 2025-06-01, 09:00), then a new booking of that slot: the handler sees the slot as free, the index refuses the insert, and the request fails with a server error after taking an id | a cancelled appointment frees its slot, as the handler's query `status: { $ne: 'cancelled' }` assumes | not executed | Slots.RawIndexRejectsRebooking | Slots.BookFreeSlot |

For the second finding, the model keeps the code as written: `Appointments.CreateAppointment` and `Appointments.UpdateAppointment` take the index's refusal as a server error. `Slots.BookFreeSlot` proves the intended property: a booking that the handler's query lets through keeps at most one active appointment per slot, once cancelled appointments no longer hold their slot.
