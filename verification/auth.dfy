/** lib/auth.ts: the local account table ("lelo_users") and the current-user
    slot ("lelo_current_user"). An absent users key reads as the empty list,
    so the table is a plain sequence. */
module Auth {
  import opened Wrappers
  import opened Types
  import Collection

  datatype AuthStore = AuthStore(users: seq<User>, current: Option<User>)

  /** The `{ success, message, user? }` object `register` and `login` return. */
  datatype Reply = Reply(success: bool, message: string, user: Option<User>)

  datatype Outcome = Outcome(reply: Reply, store: AuthStore)

  const AdminEmail := "admin@lelo.ge"

  function Email(u: User): string { u.email }

  function Credentials(u: User): (string, string) { (u.email, u.password) }

  predicate EmailsUnique(users: seq<User>) {
    forall i, j :: 0 <= i < j < |users| ==> users[i].email != users[j].email
  }

  /** `setCurrentUser(u)`: `getCurrentUser` returns `u` afterwards; the table
      is untouched. */
  function SetCurrentUser(st: AuthStore, u: Option<User>): (r: AuthStore)
    ensures GetCurrentUser(r) == u
    ensures r.users == st.users
  {
    st.(current := u)
  }

  function GetCurrentUser(st: AuthStore): Option<User> {
    st.current
  }

  /** `isAdmin()`: the current user exists and has the admin role. */
  predicate IsAdmin(st: AuthStore) {
    GetCurrentUser(st).Some? && GetCurrentUser(st).value.role == Admin
  }

  /** `register`: refused, with nothing written, when the email is taken;
      otherwise exactly one account with the given email, name and role (an
      ordinary user when the caller gives no role) is appended. The current user never changes. */
  function Register(st: AuthStore, email: string, password: string, name: string, role: Option<Role>,
                    stamp: int, nowIso: string): (r: Outcome)
    ensures Collection.HasKey(st.users, Email, email) ==>
              r.reply == Reply(false, "User already exists", None) && r.store == st
    ensures !Collection.HasKey(st.users, Email, email) ==>
              && r.reply.success && r.reply.message == "User created successfully"
              && r.reply.user.Some?
              && r.store.users == st.users + [r.reply.user.value]
              && r.reply.user.value.email == email && r.reply.user.value.name == name
              && r.reply.user.value.role == role.GetOr(Member) && r.reply.user.value.id == stamp
    ensures r.store.current == st.current
  {
    if Collection.Find(st.users, Email, email).Some? then
      Outcome(Reply(false, "User already exists", None), st)
    else
      var u := User(stamp, email, password, role.GetOr(Member), name, nowIso);
      Outcome(Reply(true, "User created successfully", Some(u)), st.(users := st.users + [u]))
  }

  /** Registration keeps email addresses unique. */
  lemma RegisterKeepsEmailsUnique(st: AuthStore, email: string, password: string, name: string,
                                  role: Option<Role>, stamp: int, nowIso: string)
    requires EmailsUnique(st.users)
    ensures EmailsUnique(Register(st, email, password, name, role, stamp, nowIso).store.users)
  {
    var users' := Register(st, email, password, name, role, stamp, nowIso).store.users;
    if !Collection.HasKey(st.users, Email, email) {
      forall i, j | 0 <= i < j < |users'| ensures users'[i].email != users'[j].email {
        if j == |st.users| {
          assert users'[i] == st.users[i];
          assert Email(st.users[i]) != email;
        }
      }
    }
  }

  /** `login`: succeeds exactly when some account has this email and this
      password, and then the first such account becomes the current user; a
      failed login changes nothing. */
  function Login(st: AuthStore, email: string, password: string): (r: Outcome)
    ensures r.reply.success <==> exists i :: 0 <= i < |st.users| && st.users[i].email == email
                                             && st.users[i].password == password
    ensures r.reply.success ==>
              && r.reply.message == "Login successful"
              && r.reply.user.Some? && r.store == SetCurrentUser(st, r.reply.user)
              && exists i :: 0 <= i < |st.users| && st.users[i] == r.reply.user.value
                             && Credentials(st.users[i]) == (email, password)
                             && forall j :: 0 <= j < i ==> Credentials(st.users[j]) != (email, password)
    ensures !r.reply.success ==> r == Outcome(Reply(false, "Invalid credentials", None), st)
  {
    match Collection.Find(st.users, Credentials, (email, password))
    case None => Outcome(Reply(false, "Invalid credentials", None), st)
    case Some(u) => Outcome(Reply(true, "Login successful", Some(u)), SetCurrentUser(st, Some(u)))
  }

  /** `logout`: no current user, hence no admin; the table is untouched. */
  function Logout(st: AuthStore): (r: AuthStore)
    ensures GetCurrentUser(r).None? && !IsAdmin(r)
    ensures r.users == st.users
  {
    SetCurrentUser(st, None)
  }

  /** `initializeAuth`: on an empty table, registers the one administrator
      account; on any other table it does nothing. */
  function InitializeAuth(st: AuthStore, stamp: int, nowIso: string): (r: AuthStore)
    ensures |st.users| == 0 ==>
              r == st.(users := [User(stamp, AdminEmail, "admin123", Admin, "Admin User", nowIso)])
    ensures |st.users| > 0 ==> r == st
  {
    if |st.users| == 0 then Register(st, AdminEmail, "admin123", "Admin User", Some(Admin), stamp, nowIso).store
    else st
  }

  /** After initialising an empty table, the built-in credentials log in as
      an administrator. */
  lemma InitializedAdminCanLogIn(st: AuthStore, stamp: int, nowIso: string)
    requires |st.users| == 0
    ensures var r := Login(InitializeAuth(st, stamp, nowIso), AdminEmail, "admin123");
            r.reply.success && IsAdmin(r.store)
  {
    var st' := InitializeAuth(st, stamp, nowIso);
    assert st'.users[0].email == AdminEmail && st'.users[0].password == "admin123";
  }
}
