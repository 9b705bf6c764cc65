/** Creating a user account, as `/add_user` does and `/register` repeats:
    the role defaults to partner, the partner link may be empty, a partner
    account needs a link, and only a hash of the password is stored. */
module Users {
  import opened Common
  import opened Schema
  import opened Access

  /** The account form as submitted: username, e-mail and password are
      required fields; role and partner id come from `request.form.get`. */
  datatype AccountForm = AccountForm(
    username: string,
    email: string,
    password: string,
    role: Option<string>,
    partnerId: Option<string>)

  datatype AccountOutcome =
    | AccountCreated(userId: int)
    | PartnerRequired
    | Taken
    | StoreError
    | AlreadySignedIn

  /** `request.form.get('role', 'partner')`: only an absent role defaults. */
  function RoleOf(f: AccountForm): string {
    f.role.GetOr(PartnerRole)
  }

  /** The store's UNIQUE constraint on Users.Username. */
  predicate UsernamesUnique(rows: map<int, UserRow>) {
    forall a, b :: a in rows && b in rows && rows[a].username == rows[b].username ==> a == b
  }

  /** The UNIQUE constraints on Username and Email would refuse the row. */
  predicate AccountTaken(rows: map<int, UserRow>, username: string, email: string) {
    exists k :: k in rows && (rows[k].username == username || rows[k].email == email)
  }

  /** The account-creation rule. `hash` stands for bcrypt with a fresh salt;
      `parseInt` for the store's cast of the partner id. A refused insert is
      rolled back. */
  function CreateUser(db: Db, f: AccountForm, hash: string -> string, parseInt: string -> Option<int>): (r: (Db, AccountOutcome))
    ensures !r.1.AccountCreated? ==> r.0 == db
    ensures r.1 != AlreadySignedIn
    ensures r.1 == PartnerRequired <==> RoleOf(f) == PartnerRole && Blank(f.partnerId).None?
    ensures r.1.AccountCreated? <==>
      && !(RoleOf(f) == PartnerRole && Blank(f.partnerId).None?)
      && (Blank(f.partnerId).None? || parseInt(f.partnerId.value).Some?)
      && !AccountTaken(db.users.rows, f.username, f.email)
    ensures r.1.AccountCreated? ==>
      && r.1.userId !in db.users.rows
      && r.0.users.rows == db.users.rows[r.1.userId := UserRow(f.username, f.email, hash(f.password), RoleOf(f),
           if Blank(f.partnerId).None? then None else parseInt(f.partnerId.value))]
      && r.0 == db.(users := r.0.users)
  {
    var role := RoleOf(f);
    var link := Blank(f.partnerId);
    if role == PartnerRole && link.None? then (db, PartnerRequired)
    else if link.Some? && parseInt(link.value).None? then (db, StoreError)
    else if AccountTaken(db.users.rows, f.username, f.email) then (db, Taken)
    else
      var row := UserRow(f.username, f.email, hash(f.password), role, if link.None? then None else parseInt(link.value));
      var (users', id) := Insert(db.users, row);
      (db.(users := users'), AccountCreated(id))
  }

  /** Account creation keeps usernames unique, so a login lookup finds at
      most one row. */
  lemma CreateKeepsUsernamesUnique(db: Db, f: AccountForm, hash: string -> string, parseInt: string -> Option<int>)
    requires UsernamesUnique(db.users.rows)
    ensures UsernamesUnique(CreateUser(db, f, hash, parseInt).0.users.rows)
  {
    var (db', out) := CreateUser(db, f, hash, parseInt);
    if out.AccountCreated? {
      var id := out.userId;
      forall a, b | a in db'.users.rows && b in db'.users.rows && db'.users.rows[a].username == db'.users.rows[b].username
        ensures a == b
      {
        if a != id && b != id {
        } else if a == id && b != id {
          assert false;
        } else if a != id && b == id {
          assert false;
        }
      }
    }
  }

  /** POST /add_user, once the manager gate has let the caller through. */
  function AddUser(db: Db, f: AccountForm, hash: string -> string, parseInt: string -> Option<int>): (r: (Db, AccountOutcome))
    ensures !r.1.AccountCreated? ==> r.0 == db
    ensures r.0 == db.(users := r.0.users)
    ensures r.1.AccountCreated? ==> && r.1.userId !in db.users.rows && r.1.userId in r.0.users.rows
                                    && |r.0.users.rows| == |db.users.rows| + 1
                                    && (forall k :: k in db.users.rows ==> k in r.0.users.rows && r.0.users.rows[k] == db.users.rows[k])
    ensures r.1.AccountCreated? ==> r.0.users.rows[r.1.userId].passwordHash == hash(f.password)
  {
    CreateUser(db, f, hash, parseInt)
  }
}
