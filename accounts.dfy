/**
 * The read-only account handlers: login (the lookup and the decision, not the
 * token or the cookie) and the profile, and the views of a user row that
 * never carry the password column.
 */
module Accounts {
  import opened Tables
  import Backend
  import Crypto

  /** What a read-only handler answers: a refusal with its status, or 200 with a body. */
  datatype Reply<T> = Denied(status: int) | Answer(body: T)

  /** `SELECT id, name, email, address, role FROM users`: a row without its password. */
  datatype UserView = UserView(id: int, name: string, email: string, address: string, role: string)

  function View(u: User): UserView {
    UserView(u.id, u.name, u.email, u.address, u.role)
  }

  /** A successful login: the token claims and the user object sent back. */
  datatype Session = Session(claims: Caller, user: UserView)

  /**
   * `loginController`: the first row with that email, else 404; a password
   * that does not match its digest, 401; otherwise claims `{id, role}` and
   * the row without its password.
   */
  function Login(users: seq<User>, email: string, password: string): (r: Reply<Session>)
    ensures r == Denied(NotFound) <==> !UserEmailTaken(users, email)
    ensures r == Denied(Unauthorized) <==>
              UserEmailTaken(users, email)
              && !Crypto.Matches(password, FindUserByEmail(users, email).value.password)
    ensures r.Denied? ==> r.status == NotFound || r.status == Unauthorized
    ensures r.Answer? ==>
              exists i :: 0 <= i < |users| && users[i].email == email
                          && Crypto.Matches(password, users[i].password)
                          && r.body.claims == Caller(users[i].id, users[i].role)
                          && r.body.user == View(users[i])
    ensures r.Answer? ==>
              var u := FindUserByEmail(users, email).value;
              r.body == Session(Caller(u.id, u.role), View(u))
  {
    match FindUserByEmail(users, email)
    case None => Denied(NotFound)
    case Some(u) =>
      if !Crypto.Matches(password, u.password) then Denied(Unauthorized)
      else
        assert exists i :: 0 <= i < |users| && users[i] == u;
        Answer(Session(Caller(u.id, u.role), View(u)))
  }

  /** `profileController`: the caller's row without its password, or 404. */
  function Profile(users: seq<User>, caller: Caller): (r: Reply<UserView>)
    ensures r == Denied(NotFound) <==> !HasUser(users, caller.id)
    ensures r.Denied? ==> r.status == NotFound
    ensures r.Answer? ==>
              exists i :: 0 <= i < |users| && users[i].id == caller.id && r.body == View(users[i])
  {
    match FindUser(users, caller.id)
    case None => Denied(NotFound)
    case Some(u) =>
      assert exists i :: 0 <= i < |users| && users[i] == u;
      Answer(View(u))
  }

  /** A user row added under an unused email is the one a login with it finds. */
  lemma FindAppendedEmail(users: seq<User>, row: User)
    requires !UserEmailTaken(users, row.email)
    ensures FindUserByEmail(users + [row], row.email) == Some(row)
  {
    var all := users + [row];
    assert all[|users|] == row;
    assert forall k :: 0 <= k < |users| ==> all[k].email != row.email by {
      forall k | 0 <= k < |users| ensures all[k].email != row.email {
        assert all[k] == users[k];
      }
    }
  }

  /**
   * Registration followed by login: the password given at sign-up logs in,
   * with claims carrying the new row's id and role, and every other password
   * is refused with 401.
   */
  lemma LoginAfterInsert(users: seq<User>, row: User, password: string, salt: string, other: string)
    requires !UserEmailTaken(users, row.email)
    requires row.password == Crypto.Hash(password, salt)
    ensures Login(users + [row], row.email, password)
            == Answer(Session(Caller(row.id, row.role), View(row)))
    ensures other != password ==> Login(users + [row], row.email, other) == Denied(Unauthorized)
  {
    FindAppendedEmail(users, row);
  }

  /**
   * A password change followed by login: with emails unique, the caller's
   * new password logs in and any other, the old one included, gets 401.
   */
  lemma LoginAfterPasswordChange(users: seq<User>, k: int, newPassword: string, salt: string,
                                 other: string)
    requires 0 <= k < |users|
    requires forall i, j :: 0 <= i < j < |users| ==> users[i].email != users[j].email
    requires forall i, j :: 0 <= i < j < |users| ==> users[i].id != users[j].id
    ensures var users' := Backend.SetPassword(users, users[k].id, Crypto.Hash(newPassword, salt));
            && Login(users', users[k].email, newPassword).Answer?
            && Login(users', users[k].email, newPassword).body.claims == Caller(users[k].id, users[k].role)
            && (other != newPassword ==> Login(users', users[k].email, other) == Denied(Unauthorized))
  {
    var d := Crypto.Hash(newPassword, salt);
    var users' := Backend.SetPassword(users, users[k].id, d);
    assert users'[k] == users[k].(password := d);
    var found := FindUserByEmail(users', users[k].email);
    assert UserEmailTaken(users', users[k].email) by {
      assert users'[k].email == users[k].email;
    }
    var j :| 0 <= j < |users'| && users'[j] == found.value;
    if j != k {
      assert false;
    }
  }
}
