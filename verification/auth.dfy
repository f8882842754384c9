/** The authentication context: a logged-in/logged-out session over a fixed user table,
    `login`, `logout`, `hasPermission` and the role helpers. */
module Auth {
  import opened Wrappers
  import opened Seqs

  datatype AuthUser = AuthUser(id: int, name: string, email: string, role: string, permissions: seq<string>)

  const Users := [
    AuthUser(1, "Admin User", "admin@attendance.com", "Admin", ["manage_users", "view_reports", "system_settings"]),
    AuthUser(2, "Teacher Smith", "teacher@attendance.com", "Teacher", ["take_attendance", "view_class_reports"]),
    AuthUser(3, "Student Johnson", "student@attendance.com", "Student", ["view_attendance"])
  ]

  /** The one password every account accepts. */
  const SharedPassword := "password123"
  const InvalidCredentials := "Invalid credentials"

  datatype Session = Session(user: Option<AuthUser>, isAuthenticated: bool)

  datatype LoginResult = LoginResult(success: bool, message: Option<string>)

  const LoggedOut := Session(None, false)

  /** A session is authenticated exactly when it holds a user. */
  predicate Consistent(s: Session) {
    s.isAuthenticated <==> s.user.Some?
  }

  /** `login(email, password)`: the first user with that email, provided the password is
      the shared one; on failure the session is left as it was. */
  function Login(s: Session, users: seq<AuthUser>, email: string, password: string): (r: (Session, LoginResult))
    ensures r.1.success <==> password == SharedPassword && exists u :: u in users && u.email == email
    ensures r.1.success ==> r.0.isAuthenticated && r.0.user.Some? && r.0.user.value in users
                            && r.0.user.value.email == email && r.1.message.None?
    ensures !r.1.success ==> r.0 == s && r.1.message == Some(InvalidCredentials)
    ensures r.1.success ==>
      exists i :: 0 <= i < |users| && users[i] == r.0.user.value && forall j :: 0 <= j < i ==> users[j].email != email
  {
    match Find(users, (u: AuthUser) => u.email == email && password == SharedPassword)
    case Some(u) => (Session(Some(u), true), LoginResult(true, None))
    case None => (s, LoginResult(false, Some(InvalidCredentials)))
  }

  /** `logout()`. */
  function Logout(s: Session): (r: Session)
    ensures r.user.None? && !r.isAuthenticated && Consistent(r)
  {
    LoggedOut
  }

  /** `user?.permissions?.includes(permission) || false`. */
  function HasPermission(s: Session, permission: string): (b: bool)
    ensures b <==> s.user.Some? && permission in s.user.value.permissions
  {
    match s.user
    case Some(u) => permission in u.permissions
    case None => false
  }

  function IsAdmin(s: Session): bool {
    s.user.Some? && s.user.value.role == "Admin"
  }

  function IsTeacher(s: Session): bool {
    s.user.Some? && s.user.value.role == "Teacher"
  }

  function IsStudent(s: Session): bool {
    s.user.Some? && s.user.value.role == "Student"
  }

  /** After a successful login the permissions granted are exactly those listed for the
      first user with that email; a failed login grants what the session granted before. */
  lemma PermissionsFollowLogin(s: Session, users: seq<AuthUser>, email: string, password: string,
                               permission: string, i: nat)
    requires i < |users| && users[i].email == email && forall j :: 0 <= j < i ==> users[j].email != email
    ensures var (t, res) := Login(s, users, email, password);
      && (res.success ==> (HasPermission(t, permission) <==> permission in users[i].permissions))
      && (!res.success ==> HasPermission(t, permission) == HasPermission(s, permission))
  {
    var (t, res) := Login(s, users, email, password);
    if res.success {
      var k :| 0 <= k < |users| && users[k] == t.user.value && forall j :: 0 <= j < k ==> users[j].email != email;
      assert k == i;
    }
  }

  /** Login and logout keep a consistent session consistent. */
  lemma TransitionsPreserveConsistency(s: Session, users: seq<AuthUser>, email: string, password: string)
    requires Consistent(s)
    ensures Consistent(Login(s, users, email, password).0)
    ensures Consistent(Logout(s))
  {
  }

  /** At most one role helper holds, and none holds and no permission is granted once
      logged out. */
  lemma RoleHelpersExclusive(s: Session, permission: string)
    ensures !(IsAdmin(s) && IsTeacher(s)) && !(IsAdmin(s) && IsStudent(s)) && !(IsTeacher(s) && IsStudent(s))
    ensures s.user.None? ==> !IsAdmin(s) && !IsTeacher(s) && !IsStudent(s) && !HasPermission(s, permission)
  {
  }

  /** Each built-in account, once logged in, satisfies exactly its own role helper. */
  lemma BuiltInRoles(i: nat)
    requires i < |Users|
    ensures var s := Login(LoggedOut, Users, Users[i].email, SharedPassword).0;
      && (IsAdmin(s) <==> i == 0) && (IsTeacher(s) <==> i == 1) && (IsStudent(s) <==> i == 2)
  {
    assert Users[i] in Users;
    var s := Login(LoggedOut, Users, Users[i].email, SharedPassword).0;
    assert s.user.value in Users;
    assert s.user.value == Users[i];
  }

  /** With the built-in table, the admin account logs in with the shared password, gains
      the admin permissions, and loses them on logout. */
  lemma AdminSession()
    ensures var (s, res) := Login(LoggedOut, Users, "admin@attendance.com", SharedPassword);
      && res.success && IsAdmin(s) && HasPermission(s, "system_settings")
      && !HasPermission(Logout(s), "system_settings")
    ensures !Login(LoggedOut, Users, "admin@attendance.com", "admin123").1.success
  {
    assert Users[0] in Users;
    var p := (u: AuthUser) => u.email == "admin@attendance.com" && SharedPassword == SharedPassword;
    assert p(Users[0]);
  }
}
