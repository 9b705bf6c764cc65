/** Signing in, self-registration and signing out. */
module Auth {
  import opened Common
  import opened Schema
  import opened Access
  import opened Users

  /** Some row carries the username. */
  predicate HasUsername(rows: map<int, UserRow>, username: string) {
    exists k :: k in rows && rows[k].username == username
  }

  /** `SELECT ... FROM Users WHERE Username = %s` followed by `fetchone()`:
      the one row with that username, if any. */
  function FindUser(rows: map<int, UserRow>, username: string): (r: Option<int>)
    requires UsernamesUnique(rows)
    ensures r.None? <==> !HasUsername(rows, username)
    ensures r.Some? ==> r.value in rows && rows[r.value].username == username
  {
    if HasUsername(rows, username) then
      var k :| k in rows && rows[k].username == username;
      Some(k)
    else
      None
  }

  datatype LoginOutcome = AlreadyIn | SignedInAs(user: User) | InvalidCredentials

  /** POST /login. `matches` stands for `bcrypt.checkpw`. A caller already
      signed in is sent on without a lookup; otherwise the session carries
      the principal built from the row whose username and password match. */
  function Login(s: Session, db: Db, username: string, password: string, matches: (string, string) -> bool): (r: (Session, LoginOutcome))
    requires UsernamesUnique(db.users.rows)
    ensures s.SignedIn? ==> r == (s, AlreadyIn)
    ensures s.Anonymous? ==> r.1 != AlreadyIn
    ensures s.Anonymous? ==> (r.1.SignedInAs? <==> exists k :: k in db.users.rows && db.users.rows[k].username == username
                                                          && matches(password, db.users.rows[k].passwordHash))
    ensures r.1.SignedInAs? ==>
      && r.0 == SignedIn(r.1.user) && r.1.user.id in db.users.rows
      && var row := db.users.rows[r.1.user.id];
         r.1.user == User(r.1.user.id, row.username, row.email, row.role, row.partnerId) && row.username == username
    ensures r.1 == InvalidCredentials ==> r.0 == s
  {
    if s.SignedIn? then (s, AlreadyIn)
    else match FindUser(db.users.rows, username)
      case None => (s, InvalidCredentials)
      case Some(k) =>
        var row := db.users.rows[k];
        if matches(password, row.passwordHash) then
          var u := User(k, row.username, row.email, row.role, row.partnerId);
          (SignedIn(u), SignedInAs(u))
        else
          (s, InvalidCredentials)
  }

  /** An unknown username and a wrong password are indistinguishable to the
      caller: both leave the session anonymous with the same outcome. */
  lemma UnknownUserLooksLikeWrongPassword(db1: Db, db2: Db, username: string, password: string, matches: (string, string) -> bool)
    requires UsernamesUnique(db1.users.rows) && UsernamesUnique(db2.users.rows)
    requires !HasUsername(db1.users.rows, username)
    requires forall k :: k in db2.users.rows && db2.users.rows[k].username == username ==> !matches(password, db2.users.rows[k].passwordHash)
    ensures Login(Anonymous, db1, username, password, matches) == Login(Anonymous, db2, username, password, matches)
    ensures Login(Anonymous, db1, username, password, matches) == (Anonymous, InvalidCredentials)
  {
  }

  /** POST /register: a signed-in caller is sent on with nothing inserted;
      anyone else creates an account by the same rule as `/add_user`. */
  function Register(s: Session, db: Db, f: AccountForm, hash: string -> string, parseInt: string -> Option<int>): (r: (Db, AccountOutcome))
    ensures s.SignedIn? ==> r == (db, AlreadySignedIn)
    ensures s.Anonymous? ==> r == Users.AddUser(db, f, hash, parseInt)
  {
    if s.SignedIn? then (db, AlreadySignedIn) else CreateUser(db, f, hash, parseInt)
  }

  /** Registering and then signing in with the same username and password
      (a password matches its own hash) yields the account just created,
      with the role and partner link it was registered with. */
  lemma {:induction false} RegisterThenLogin(db: Db, f: AccountForm, hash: string -> string, parseInt: string -> Option<int>,
                                             matches: (string, string) -> bool)
    requires UsernamesUnique(db.users.rows)
    requires matches(f.password, hash(f.password))
    requires Register(Anonymous, db, f, hash, parseInt).1.AccountCreated?
    ensures UsernamesUnique(Register(Anonymous, db, f, hash, parseInt).0.users.rows)
    ensures var (db', out) := Register(Anonymous, db, f, hash, parseInt);
      var (s, res) := Login(Anonymous, db', f.username, f.password, matches);
      && res.SignedInAs? && res.user.id == out.userId && s == SignedIn(res.user)
      && res.user.username == f.username && res.user.email == f.email && res.user.role == RoleOf(f)
  {
    var (db', out) := Register(Anonymous, db, f, hash, parseInt);
    CreateKeepsUsernamesUnique(db, f, hash, parseInt);
    var id := out.userId;
    assert db'.users.rows[id].username == f.username;
    var k := FindUser(db'.users.rows, f.username).value;
    assert k == id;
  }
}
