/** The application as a whole: every state-changing route over one store,
    each behind the gate its handler uses, and self-registration, which has
    none. */
module App {
  import opened Common
  import opened Schema
  import opened Access
  import Upload
  import Supplies
  import Requests
  import Partners
  import Products
  import Calc
  import Users
  import Auth

  /** What the handlers take from outside the store: number parsing,
      password hashing, the partner-discount function, the clock, and
      whether the store raises on a supply write. */
  datatype Env = Env(
    parseReal: string -> Option<real>,
    parseInt: string -> Option<int>,
    hash: string -> string,
    discount: int -> Option<real>,
    now: int,
    writeFails: bool)

  /** A POST to one of the state-changing routes, with its form.
      `SelfRegister` is POST /register, the one such route without a gate. */
  datatype Action =
    | UploadPartners(file: Option<Upload.CsvFile>)
    | RecordSupply(supply: Supplies.SupplyForm)
    | CreateRequest(request: Requests.RequestForm)
    | ChangeRequest(requestId: int, request: Requests.RequestForm, status: string)
    | CreatePartner(partner: Partners.PartnerForm)
    | RemovePartner(partnerId: int)
    | CreateProduct(product: Products.ProductForm)
    | ChangeProduct(productId: int, product: Products.ProductForm)
    | RemoveProduct(productId: int)
    | CreatePair(productId: int, materialId: int, quantity: real)
    | ChangePair(productId: int, materialId: int, quantity: real)
    | RemovePair(productId: int, materialId: int)
    | CreateAccount(account: Users.AccountForm)
    | SelfRegister(account: Users.AccountForm)

  /** The actions whose route has a role gate: all but self-registration. */
  predicate Gated(a: Action) {
    !a.SelfRegister?
  }

  /** The guarded route each gated action is posted to. */
  function RouteOf(a: Action): Route
    requires Gated(a)
  {
    match a
    case UploadPartners(_) => Upload
    case RecordSupply(_) => Supplies
    case CreateRequest(_) => AddRequest
    case ChangeRequest(_, _, _) => EditRequest
    case CreatePartner(_) => AddPartner
    case RemovePartner(_) => DeletePartner
    case CreateProduct(_) => AddProduct
    case ChangeProduct(_, _) => EditProduct
    case RemoveProduct(_) => DeleteProduct
    case CreatePair(_, _, _) => AddComposition
    case ChangePair(_, _, _) => EditComposition
    case RemovePair(_, _) => DeleteComposition
    case CreateAccount(_) => AddUser
  }

  /** What a handler reports back. */
  datatype Reply =
    | UploadReply(upload: Upload.UploadOutcome)
    | SupplyReply(supply: Supplies.SupplyOutcome)
    | RequestReply(request: Requests.RequestOutcome)
    | PartnerReply(partner: Partners.PartnerOutcome)
    | ProductReply(product: Products.ProductOutcome)
    | PairReply(pair: Calc.CompositionOutcome)
    | AccountReply(account: Users.AccountOutcome)

  /** The replies that report a committed change. */
  predicate Committed(r: Reply) {
    match r
    case UploadReply(o) => o.Imported? && o.inserted > 0
    case SupplyReply(o) => o.Added?
    case RequestReply(o) => o.Created? || o.Updated?
    case PartnerReply(o) => o.PartnerAdded? || o == Partners.PartnerDeleted
    case ProductReply(o) => o.ProductAdded? || o == Products.ProductEdited || o == Products.ProductDeleted
    case PairReply(o) => o in {Calc.CompositionAdded, Calc.CompositionEdited, Calc.CompositionDeleted}
    case AccountReply(o) => o.AccountCreated?
  }

  /** The upload, supply and request handlers. */
  function PerformOrders(db: Db, a: Action, env: Env): (r: (Db, Reply))
    requires a.UploadPartners? || a.RecordSupply? || a.CreateRequest? || a.ChangeRequest?
    ensures !Committed(r.1) ==> r.0 == db
  {
    match a
    case UploadPartners(file) =>
      var (t, o) := Upload.Run(file, db.partners, env.parseReal);
      (db.(partners := t), UploadReply(o))
    case RecordSupply(f) =>
      var (db', o) := Supplies.AddSupply(db, f, env.parseReal, env.parseInt, env.writeFails);
      (db', SupplyReply(o))
    case CreateRequest(f) =>
      var (db', o) := Requests.AddRequest(db, f, env.discount);
      (db', RequestReply(o))
    case ChangeRequest(id, f, status) =>
      var (db', o) := Requests.EditRequest(db, id, f, status, env.discount);
      (db', RequestReply(o))
  }

  /** The partner, product and account handlers. */
  function PerformCatalog(db: Db, a: Action, env: Env): (r: (Db, Reply))
    requires a.CreatePartner? || a.RemovePartner? || a.CreateProduct? || a.ChangeProduct? || a.RemoveProduct? || a.CreateAccount?
    ensures !Committed(r.1) ==> r.0 == db
  {
    match a
    case CreatePartner(f) =>
      var (db', o) := Partners.AddPartner(db, f, env.parseReal);
      (db', PartnerReply(o))
    case RemovePartner(id) =>
      var (db', o) := Partners.DeletePartner(db, id);
      (db', PartnerReply(o))
    case CreateProduct(f) =>
      var (db', o) := Products.AddProduct(db, f, env.parseReal, env.now);
      (db', ProductReply(o))
    case ChangeProduct(id, f) =>
      var (db', o) := Products.EditProduct(db, id, f, env.parseReal);
      (db', ProductReply(o))
    case RemoveProduct(id) =>
      var (db', o) := Products.DeleteProduct(db, id);
      (db', ProductReply(o))
    case CreateAccount(f) =>
      var (db', o) := Users.AddUser(db, f, env.hash, env.parseInt);
      (db', AccountReply(o))
  }

  /** The composition handlers. */
  function PerformPairs(db: Db, a: Action): (r: (Db, Reply))
    requires a.CreatePair? || a.ChangePair? || a.RemovePair?
    ensures !Committed(r.1) ==> r.0 == db
  {
    match a
    case CreatePair(p, m, q) =>
      var (db', o) := Calc.AddComposition(db, p, m, q);
      (db', PairReply(o))
    case ChangePair(p, m, q) =>
      var (db', o) := Calc.EditComposition(db, p, m, q);
      (db', PairReply(o))
    case RemovePair(p, m) =>
      var (db', o) := Calc.DeleteComposition(db, p, m);
      (db', PairReply(o))
  }

  /** The handler body of each action, once the gate has allowed it. Every
      reply but a committed change leaves the store exactly as it was. */
  function Perform(db: Db, a: Action, env: Env): (r: (Db, Reply))
    requires Gated(a)
    ensures !Committed(r.1) ==> r.0 == db
  {
    if a.UploadPartners? || a.RecordSupply? || a.CreateRequest? || a.ChangeRequest? then PerformOrders(db, a, env)
    else if a.CreatePair? || a.ChangePair? || a.RemovePair? then PerformPairs(db, a)
    else PerformCatalog(db, a, env)
  }

  /** A POST from session `s`. A gated action meets its route's gate first,
      then the handler, and a denied call has no reply and no effect.
      Self-registration is never denied: it goes straight to its handler. */
  function Dispatch(s: Session, db: Db, a: Action, env: Env): (r: (Db, Option<Reply>))
    ensures Gated(a) && Gate(s, RouteOf(a)) != Allow ==> r == (db, None)
    ensures Gated(a) && Gate(s, RouteOf(a)) == Allow ==> r.1.Some? && (r.0, r.1.value) == Perform(db, a, env)
    ensures a.SelfRegister? ==> && r.1.Some? && r.1.value.AccountReply?
                                && (r.0, r.1.value.account) == Auth.Register(s, db, a.account, env.hash, env.parseInt)
    ensures r.0 != db ==> r.1.Some? && Committed(r.1.value)
  {
    if a.SelfRegister? then
      var (db', o) := Auth.Register(s, db, a.account, env.hash, env.parseInt);
      (db', Some(AccountReply(o)))
    else
      Guard(s, AllowedRoles(RouteOf(a)), db, (d: Db) => Perform(d, a, env))
  }

  /** Every gated state-changing route admits the manager role alone. */
  lemma ChangesAreManagerOnly(a: Action)
    requires Gated(a)
    ensures AllowedRoles(RouteOf(a)) == [Manager]
  {
  }

  /** The store after `db'` differs from `db` at most by Users rows added:
      every other table and every existing account are as they were. */
  predicate OnlyAccountsAdded(db: Db, db': Db) {
    && db' == db.(users := db'.users)
    && (forall k :: k in db.users.rows ==> k in db'.users.rows && db'.users.rows[k] == db.users.rows[k])
  }

  /** A caller who is not a signed-in manager is denied every gated action,
      which leaves the store as it was. */
  lemma OnlyManagersChangeTheStore(s: Session, db: Db, a: Action, env: Env)
    requires s.Anonymous? || s.user.role != Manager
    requires Gated(a)
    ensures Dispatch(s, db, a, env) == (db, None)
  {
    ChangesAreManagerOnly(a);
    InlineCheckIsAuthorize(s, AllowedRoles(RouteOf(a)));
  }

  /** Self-registration, which has no gate, changes nothing for a signed-in
      caller of any role; for an anonymous one it adds at most one Users row
      and leaves every other table and every existing account as it was. */
  lemma SelfRegistrationOnlyAddsAccounts(s: Session, db: Db, f: Users.AccountForm, env: Env)
    ensures s.SignedIn? ==> Dispatch(s, db, SelfRegister(f), env).0 == db
    ensures OnlyAccountsAdded(db, Dispatch(s, db, SelfRegister(f), env).0)
    ensures |Dispatch(s, db, SelfRegister(f), env).0.users.rows| <= |db.users.rows| + 1
  {
  }

  /** One POST from a caller who is not a manager: at most one account added. */
  lemma NonManagerStep(s: Session, db: Db, a: Action, env: Env)
    requires s.Anonymous? || s.user.role != Manager
    ensures var db' := Dispatch(s, db, a, env).0;
      && OnlyAccountsAdded(db, db') && |db'.users.rows| <= |db.users.rows| + 1
      && (s.SignedIn? || Gated(a) ==> db' == db)
  {
    if Gated(a) {
      OnlyManagersChangeTheStore(s, db, a, env);
    } else {
      SelfRegistrationOnlyAddsAccounts(s, db, a.account, env);
    }
  }

  /** Self-registration has no gate and takes the role from the form: an
      anonymous visitor can register a manager account, sign in with it,
      and then pass the gate of every route but the partner's own history,
      so every gated action reaches its handler. */
  lemma AnonymousVisitorCanBecomeManager(db: Db, f: Users.AccountForm, env: Env, matches: (string, string) -> bool, a: Action)
    requires Users.UsernamesUnique(db.users.rows)
    requires matches(f.password, env.hash(f.password))
    requires Users.RoleOf(f) == Manager
    requires Blank(f.partnerId).None? || env.parseInt(f.partnerId.value).Some?
    requires !Users.AccountTaken(db.users.rows, f.username, f.email)
    ensures var db' := Dispatch(Anonymous, db, SelfRegister(f), env).0;
      && db' != db
      && Users.UsernamesUnique(db'.users.rows)
      && var s := Auth.Login(Anonymous, db', f.username, f.password, matches).0;
         && s.SignedIn? && s.user.role == Manager
         && (forall r: Route :: r != MyRequests ==> Gate(s, r) == Allow)
         && (Gated(a) ==> Dispatch(s, db', a, env).1.Some?)
  {
    var (db', out) := Auth.Register(Anonymous, db, f, env.hash, env.parseInt);
    assert out.AccountCreated?;
    assert |db'.users.rows| == |db.users.rows| + 1;
    Auth.RegisterThenLogin(db, f, env.hash, env.parseInt, matches);
    ManagerPassesEveryGate(Auth.Login(Anonymous, db', f.username, f.password, matches).0);
    if Gated(a) {
      ChangesAreManagerOnly(a);
    }
  }

  /** A product that a composition pair has just been added for cannot be
      deleted: the store refuses the DELETE, and nothing changes. */
  lemma ComposedProductIsNotDeleted(db: Db, productId: int, materialId: int, q: real)
    requires Calc.Insertable(db, productId, materialId)
    requires !ProductRequested(db.requests.rows, productId)
    ensures var db1 := Calc.AddComposition(db, productId, materialId, q).0;
      Products.DeleteProduct(db1, productId) == (db1, Products.StoreRefused)
  {
    var db1 := Calc.AddComposition(db, productId, materialId, q).0;
    assert (productId, materialId) in db1.composition;
  }

  /** After signing out, every gated POST is refused by its gate and changes
      nothing, whatever the session was before; self-registration still
      creates an account by the `/add_user` rule. */
  lemma NothingChangesAfterLogout(s: Session, db: Db, a: Action, env: Env)
    ensures Gated(a) ==> Dispatch(Logout(s), db, a, env) == (db, None)
    ensures a.SelfRegister? ==> Dispatch(Logout(s), db, a, env).0 == Users.AddUser(db, a.account, env.hash, env.parseInt).0
  {
    if Gated(a) {
      LoggedOutCallerIsSentToLogin(s, RouteOf(a));
    }
  }

  /** A sequence of POSTs from one session, in order. */
  function Replay(s: Session, db: Db, actions: seq<Action>, env: Env): Db
    decreases |actions|
  {
    if actions == [] then db
    else Replay(s, Dispatch(s, db, actions[0], env).0, actions[1..], env)
  }

  /** However many POSTs a caller who is not a manager sends, the store ends
      as it began when the caller is signed in (an analyst or a partner) or
      sends no self-registration. */
  lemma {:induction false} NonManagerSessionIsInert(s: Session, db: Db, actions: seq<Action>, env: Env)
    requires s.Anonymous? || s.user.role != Manager
    requires s.SignedIn? || forall i :: 0 <= i < |actions| ==> Gated(actions[i])
    ensures Replay(s, db, actions, env) == db
    decreases |actions|
  {
    if actions != [] {
      NonManagerStep(s, db, actions[0], env);
      assert forall i :: 0 <= i < |actions[1..]| ==> actions[1..][i] == actions[i + 1];
      NonManagerSessionIsInert(s, db, actions[1..], env);
    }
  }

  /** Whatever POSTs a caller who is not a manager sends, every table but
      Users ends as it began, every existing account is kept, and at most
      one account is added per POST. */
  lemma {:induction false} NonManagerSessionOnlyAddsAccounts(s: Session, db: Db, actions: seq<Action>, env: Env)
    requires s.Anonymous? || s.user.role != Manager
    ensures OnlyAccountsAdded(db, Replay(s, db, actions, env))
    ensures |Replay(s, db, actions, env).users.rows| <= |db.users.rows| + |actions|
    decreases |actions|
  {
    if actions != [] {
      var db1 := Dispatch(s, db, actions[0], env).0;
      NonManagerStep(s, db, actions[0], env);
      NonManagerSessionOnlyAddsAccounts(s, db1, actions[1..], env);
    }
  }
}
