/** The relational variant of the administration handlers:
    BackEnd/controller/adminController.js. Statistics, the user list, user
    details, user updates and the appointment list behave as in `Admin`;
    deleting a user deletes the user row and nothing else (the schema is
    assumed to have no foreign-key constraints between the tables). */
module SqlAdmin {
  import opened Common
  import opened Schema
  import opened Tables
  import opened Storage
  import opened Views
  import Admin

  /** deleteUser: `DELETE FROM users WHERE id = ?`; no affected row means
      not found. The profile, appointments and records of the user are not
      touched by the handler. */
  method DeleteUser(st: Store, actor: Actor, id: nat) returns (r: Result<()>)
    requires st.Valid()
    modifies st
    ensures st.Valid()
    ensures id == actor.userId ==> r == Err(BadRequest(Admin.SelfDelete)) && st.State() == old(st.State())
    ensures id != actor.userId && FindUser(old(st.users), id).None? ==>
      r == Err(NotFound(Admin.UserMissing)) && st.State() == old(st.State())
    ensures id != actor.userId && FindUser(old(st.users), id).Some? ==>
      r == Ok(()) && st.State() == old(st.State()).(users := Filter(old(st.users), NotUser(id)))
  {
    if id == actor.userId {
      return Err(BadRequest(Admin.SelfDelete));
    }
    if FindUser(st.users, id).None? {
      return Err(NotFound(Admin.UserMissing));
    }
    FilterUnique(st.users, NotUser(id), UserId);
    FilterUnique(st.users, NotUser(id), UserEmail);
    st.Replace(st.State().(users := Filter(st.users, NotUser(id))));
    r := Ok(());
  }

  /** Where the two variants part: deleting a patient user who has a
      profile removes that profile in the document store and, under the
      assumed schema without foreign-key constraints between the tables,
      keeps it here. */
  lemma DeleteKeepsProfile(db: Db, id: nat)
    requires FindUser(db.users, id).Some? && RoleName(FindUser(db.users, id).value.role) == "patient"
    requires FindPatientByUser(db.patients, id).Some?
    ensures FindPatientByUser(Admin.Cascade(db, id).patients, id).None?
    ensures FindPatientByUser(db.(users := Filter(db.users, NotUser(id))).patients, id).Some?
  {
  }

  /** The rows the relational delete leaves behind drop out of every joined
      list: an appointment of the deleted user's patient profile no longer
      joins, so no appointment list shows it. */
  lemma OrphansDropOut(db: Db, id: nat, a: Appointment)
    requires FindPatient(db.patients, a.patientId).Some?
    requires FindPatient(db.patients, a.patientId).value.userId == id
    ensures JoinAppointment(db.(users := Filter(db.users, NotUser(id))), a).None?
  {
    var after := db.(users := Filter(db.users, NotUser(id)));
    assert FindUser(after.users, id).None?;
  }
}
