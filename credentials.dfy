/** The credential store of app.py: a table of (Username, Password) rows, an
    existence check for logging in and insert-if-absent for registering. */
module Credentials {
  import opened Records

  /** The Username column of the table. */
  function Usernames(users: seq<UserAccount>): (names: seq<string>)
    ensures |names| == |users|
    ensures forall i | 0 <= i < |users| :: names[i] == users[i].username
  {
    seq(|users|, i requires 0 <= i < |users| => users[i].username)
  }

  /** At most one row per username: the invariant registration keeps. */
  predicate UniqueUsernames(users: seq<UserAccount>) {
    forall i, j | 0 <= i < j < |users| :: users[i].username != users[j].username
  }

  /** The rows selected by the mask "Username == u and Password == p", in
      table order. */
  function MatchingRows(users: seq<UserAccount>, u: string, p: string): (rows: seq<UserAccount>)
    ensures forall x | x in rows :: x == UserAccount(u, p)
    ensures rows == [] <==> UserAccount(u, p) !in users
    decreases |users|
  {
    if users == [] then []
    else
      var n := |users| - 1;
      assert users == users[..n] + [users[n]];
      MatchingRows(users[..n], u, p)
        + (if users[n].username == u && users[n].password == p then [users[n]] else [])
  }

  /** Logging in succeeds exactly when some row holds both the username and the
      password, compared as exact strings. */
  function Authenticate(users: seq<UserAccount>, u: string, p: string): (ok: bool)
    ensures ok <==> exists i | 0 <= i < |users| :: users[i].username == u && users[i].password == p
  {
    var found := MatchingRows(users, u, p) != [];
    assert found ==> exists i | 0 <= i < |users| :: users[i] == UserAccount(u, p);
    found
  }

  /** Number of rows holding username `u`. */
  function CountUsername(users: seq<UserAccount>, u: string): (c: nat)
    ensures c <= |users|
    ensures c == 0 <==> u !in Usernames(users)
    decreases |users|
  {
    if users == [] then 0
    else
      var n := |users| - 1;
      assert Usernames(users) == Usernames(users[..n]) + [users[n].username];
      CountUsername(users[..n], u) + (if users[n].username == u then 1 else 0)
  }

  datatype Registration = Registration(created: bool, users: seq<UserAccount>)

  /** register_user: refused, with the table untouched, when the username is
      already present (whatever the password); otherwise exactly one row (u, p) is
      appended after the unchanged earlier rows, and (u, p) then logs in. */
  function RegisterUser(users: seq<UserAccount>, u: string, p: string): (r: Registration)
    ensures r.created <==> u !in Usernames(users)
    ensures !r.created ==> r.users == users
    ensures r.created ==> |r.users| == |users| + 1 && r.users[..|users|] == users
                          && r.users[|users|] == UserAccount(u, p)
    ensures r.created ==> Authenticate(r.users, u, p)
  {
    if u in Usernames(users) then Registration(false, users)
    else
      var users' := users + [UserAccount(u, p)];
      assert users'[|users|] == UserAccount(u, p);
      Registration(true, users')
  }

  /** Registering never locks anybody out: every pair that logged in before
      still does. */
  lemma RegisterKeepsLogins(users: seq<UserAccount>, u: string, p: string, a: string, b: string)
    requires Authenticate(users, a, b)
    ensures Authenticate(RegisterUser(users, u, p).users, a, b)
  {
    var r := RegisterUser(users, u, p);
    var i :| 0 <= i < |users| && users[i].username == a && users[i].password == b;
    if r.created {
      assert r.users[i] == users[i];
    }
  }

  /** Registration keeps the usernames unique. */
  lemma RegisterKeepsUnique(users: seq<UserAccount>, u: string, p: string)
    requires UniqueUsernames(users)
    ensures UniqueUsernames(RegisterUser(users, u, p).users)
  {
    var r := RegisterUser(users, u, p);
    if r.created {
      forall i, j | 0 <= i < j < |r.users|
        ensures r.users[i].username != r.users[j].username
      {
        if j == |users| {
          assert Usernames(users)[i] == users[i].username;
        } else {
          assert r.users[i] == users[i] && r.users[j] == users[j];
        }
      }
    }
  }

  /** In a table with unique usernames, a registered username has exactly one row. */
  lemma {:induction false} UniqueCountIsOne(users: seq<UserAccount>, u: string)
    requires UniqueUsernames(users)
    requires u in Usernames(users)
    ensures CountUsername(users, u) == 1
    decreases |users|
  {
    var n := |users| - 1;
    var prefix := users[..n];
    assert UniqueUsernames(prefix);
    assert Usernames(users) == Usernames(prefix) + [users[n].username];
    if users[n].username != u {
      UniqueCountIsOne(prefix, u);
    }
  }

  /** Registering the same username twice: the second attempt is refused and the
      table holds exactly one row for it. */
  lemma RegisterTwice(users: seq<UserAccount>, u: string, p: string, q: string)
    requires UniqueUsernames(users)
    ensures var first := RegisterUser(users, u, p);
            var second := RegisterUser(first.users, u, q);
            !second.created && CountUsername(second.users, u) == 1
  {
    var first := RegisterUser(users, u, p);
    RegisterKeepsUnique(users, u, p);
    if first.created {
      assert Usernames(first.users)[|users|] == u;
    }
    UniqueCountIsOne(first.users, u);
  }

  /** With unique usernames, the right username with a wrong password is refused. */
  lemma WrongPasswordRejected(users: seq<UserAccount>, u: string, p: string, q: string)
    requires UniqueUsernames(users)
    requires Authenticate(users, u, p)
    requires q != p
    ensures !Authenticate(users, u, q)
  {
  }
}
