/** The one write to a user row the handlers share: the profile handlers
    (name, email) and the administrator's user update (name, email, role).
    Each column changes only when the body gives it a non-empty value; the
    unique index on `email` refuses a value another user already has. */
module Accounts {
  import opened Common
  import opened Schema
  import opened Tables
  import opened Counters
  import opened Storage

  /** The user columns a request body may set. */
  datatype UserPatch = UserPatch(name: Field<string>, email: Field<string>, role: Field<string>)

  predicate NothingToSet(p: UserPatch) {
    !TruthyStr(p.name) && !TruthyStr(p.email) && !TruthyStr(p.role)
  }

  /** The row after the `$set`: the id, the credential hash and the creation
      time never change. */
  function PatchUser(u: User, p: UserPatch): (r: User)
    ensures r.id == u.id && r.password == u.password && r.createdAt == u.createdAt
    ensures r.name == (if TruthyStr(p.name) then p.name.value else u.name)
    ensures r.email == (if TruthyStr(p.email) then p.email.value else u.email)
    ensures RoleName(r.role) == (if TruthyStr(p.role) then p.role.value else RoleName(u.role))
    ensures RoleWellFormed(u.role) ==> RoleWellFormed(r.role)
    ensures NothingToSet(p) ==> r == u
  {
    u.(name := if TruthyStr(p.name) then p.name.value else u.name,
       email := if TruthyStr(p.email) then p.email.value else u.email,
       role := if TruthyStr(p.role) then ParseRole(p.role.value) else u.role)
  }

  /** Sending the same update twice changes nothing more. */
  lemma PatchUserIdempotent(u: User, p: UserPatch)
    ensures PatchUser(PatchUser(u, p), p) == PatchUser(u, p)
  {
  }

  /** What the unique index on `email` refuses: the user exists and another
      user already has the new email. */
  predicate EmailTaken(users: seq<User>, id: nat, p: UserPatch) {
    && TruthyStr(p.email)
    && FindUser(users, id).Some?
    && exists u :: u in users && u.id != id && u.email == p.email.value
  }

  /** Patching row `k` keeps the users table well formed unless the email
      is refused, and changes that row only. */
  lemma PatchKeepsUsersWf(users: seq<User>, counters: map<string, nat>, k: nat, p: UserPatch)
    requires UsersWf(users, counters) && k < |users|
    requires !EmailTaken(users, users[k].id, p)
    ensures UsersWf(users[k := PatchUser(users[k], p)], counters)
    ensures forall i :: 0 <= i < |users| ==>
      users[k := PatchUser(users[k], p)][i] == if users[i].id == users[k].id then PatchUser(users[k], p) else users[i]
  {
    var v := PatchUser(users[k], p);
    UpdateAt(users, UserId, k, v);
    var after := users[k := v];
    forall i, j | 0 <= i < j < |after| ensures UserEmail(after[i]) != UserEmail(after[j]) {
      if i != k && j != k {
        assert UserEmail(users[i]) != UserEmail(users[j]);
      } else if TruthyStr(p.email) {
        var o := if i == k then j else i;
        assert UserId(users[o]) != UserId(users[k]);
        assert users[o] in users;
        FindUserIsUnique(users, users[k]);
      } else {
        assert UserEmail(users[i]) != UserEmail(users[j]);
      }
    }
    assert v.id <= Counter(counters, UsersSeq) by {
      assert users[k] in users;
    }
  }

  /** `updateOne({ id }, { $set })` on the users table (`UPDATE users SET ...
      WHERE id = ?`). A refused email leaves the store unchanged; otherwise
      the row with that id, if any, is patched in place. */
  method UpdateUserRow(st: Store, id: nat, p: UserPatch) returns (r: Result<()>)
    requires st.Valid()
    modifies st
    ensures st.Valid()
    ensures EmailTaken(old(st.users), id, p) ==>
      r == Err(ServerError(ServerFault)) && st.State() == old(st.State())
    ensures !EmailTaken(old(st.users), id, p) ==>
      && r == Ok(())
      && st.State() == old(st.State()).(users := st.users)
      && |st.users| == |old(st.users)|
      && forall i :: 0 <= i < |st.users| ==>
           st.users[i] == if old(st.users)[i].id == id then PatchUser(old(st.users)[i], p) else old(st.users)[i]
  {
    match FindUser(st.users, id) {
      case None =>
        return Ok(());
      case Some(u) =>
        if EmailTaken(st.users, id, p) {
          return Err(ServerError(ServerFault));
        }
        var k :| 0 <= k < |st.users| && st.users[k] == u;
        PatchKeepsUsersWf(st.users, st.counters, k, p);
        var after := st.users[k := PatchUser(u, p)];
        st.Replace(st.State().(users := after));
        r := Ok(());
    }
  }
}
