/** The relational variant of the authentication handlers:
    BackEnd/controller/authController.js. Login and getMe behave as
    `Auth.Login` and `Auth.GetMe`; registration runs its inserts in a
    transaction instead of deleting them by hand, and signs the token only
    after the commit. */
module SqlAuth {
  import opened Common
  import opened Schema
  import opened Tables
  import opened Counters
  import opened Storage
  import opened Accounts
  import opened Auth

  /** `connection.rollback()`: every table as it was when the transaction
      began; the counters keep what the inserts took. */
  method Rollback(st: Store, before: Db)
    requires st.Valid() && WellFormed(before)
    requires forall n :: Counter(before.counters, n) <= Counter(st.counters, n)
    modifies st
    ensures st.Valid()
    ensures st.State() == before.(counters := old(st.counters))
  {
    CountersGrow(before, st.counters);
    st.Replace(before.(counters := st.counters));
  }

  /** register. A rollback restores every table but not the AUTO_INCREMENT
      counters. A token that cannot be signed fails the request after the
      commit: the user and their profile stay, although the answer is a
      server error. */
  method Register(st: Store, b: RegisterBody, errors: seq<string>, hashed: string, now: nat, fault: Fault)
    returns (r: Result<Session>)
    requires st.Valid()
    modifies st
    ensures st.Valid()
    ensures errors != [] ==> r == Err(Invalid(errors)) && st.State() == old(st.State())
    ensures errors == [] && FindUserByEmail(old(st.users), b.email).Some? ==>
      r == Err(BadRequest(UserExists)) && st.State() == old(st.State())
    ensures errors == [] && FindUserByEmail(old(st.users), b.email).None? && fault == UserInsertFails ==>
      && r == Err(ServerError(ServerFault))
      && st.State() == old(st.State()).(counters := Allocate(old(st.counters), UsersSeq).0)
    ensures errors == [] && FindUserByEmail(old(st.users), b.email).None? && fault != UserInsertFails
            && ProfileFails(old(st.State()), b, fault) ==>
      && r == Err(ServerError(ServerFault))
      && st.State() == old(st.State()).(counters := Enrolled(old(st.State()), b, hashed, now).0.counters)
    ensures errors == [] && FindUserByEmail(old(st.users), b.email).None? && !InsertFails(old(st.State()), b, fault) ==>
      && st.State() == Enrolled(old(st.State()), b, hashed, now).0
      && r == (if fault == TokenFails then Err(ServerError(ServerFault)) else Ok(Enrolled(old(st.State()), b, hashed, now).1))
  {
    if errors != [] {
      return Err(Invalid(errors));
    }
    if FindUserByEmail(st.users, b.email).Some? {
      return Err(BadRequest(UserExists));
    }
    var before := st.State();
    var failed, profileId := Insert(st, b, hashed, now, fault);
    if failed {
      // The rollback.
      Rollback(st, before);
      return Err(ServerError(ServerFault));
    }
    // The commit has happened; signing the token comes after it.
    if fault == TokenFails {
      return Err(ServerError(ServerFault));
    }
    r := Ok(SessionOf(NewAccount(NextUserId(before), b, hashed, now)));
  }

  /** After a registration that failed only at the token, the account
      exists: the client is told the registration failed, and a second
      attempt with the same email is refused as "User already exists". */
  lemma TokenFailureKeepsAccount(db: Db, b: RegisterBody, hashed: string, now: nat)
    requires FindUserByEmail(db.users, b.email).None?
    ensures FindUserByEmail(Enrolled(db, b, hashed, now).0.users, b.email).Some?
  {
    var u := NewAccount(NextUserId(db), b, hashed, now);
    assert u in Enrolled(db, b, hashed, now).0.users;
  }
}
