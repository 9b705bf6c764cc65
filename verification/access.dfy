/** The signed-in principal and the access gate every route passes through:
    `login_required` followed by `role_required(*roles)` or by an inline
    `current_user.role` test in the handler. */
module Access {
  import opened Common

  /** The principal attached to a session (models.User). */
  datatype User = User(id: int, username: string, email: string, role: string, partnerId: Option<int>)

  datatype Session = Anonymous | SignedIn(user: User)

  /** What the gate decides: run the handler, send the caller to the login
      page, or refuse with 403. */
  datatype Decision = Allow | RedirectToLogin | Forbidden

  const Manager := "manager"
  const Analyst := "analyst"
  const PartnerRole := "partner"

  /** flask_login's `login_required`: only an anonymous caller is stopped. */
  function LoginRequired(s: Session): Decision {
    if s.SignedIn? then Allow else RedirectToLogin
  }

  /** The `role_required(*roles)` decorator on its own. */
  function RoleRequired(s: Session, roles: seq<string>): (d: Decision)
    ensures d != RedirectToLogin
    ensures d == Forbidden <==> (s.Anonymous? || forall i :: 0 <= i < |roles| ==> roles[i] != s.user.role)
  {
    if s.SignedIn? && s.user.role in roles then Allow else Forbidden
  }

  /** `login_required` stacked over `role_required(*roles)`. */
  function Authorize(s: Session, roles: seq<string>): Decision {
    if LoginRequired(s) != Allow then RedirectToLogin else RoleRequired(s, roles)
  }

  /** `login_required` followed by the handler's own first statement,
      `if current_user.role not in roles: abort(403)`. */
  function InlineCheck(s: Session, roles: seq<string>): Decision {
    match s
    case Anonymous => RedirectToLogin
    case SignedIn(u) => if u.role !in roles then Forbidden else Allow
  }

  /** Both ways of guarding a route decide alike, and they allow exactly the
      signed-in callers whose role is listed. */
  lemma InlineCheckIsAuthorize(s: Session, roles: seq<string>)
    ensures InlineCheck(s, roles) == Authorize(s, roles)
    ensures Authorize(s, roles) == Allow <==> s.SignedIn? && s.user.role in roles
    ensures Authorize(s, roles) == RedirectToLogin <==> s.Anonymous?
  {
  }

  /** Runs a handler behind the gate. The handler maps a state to its
      successor and a reply; on denial the state is returned as it was and
      there is no reply. */
  function Guard<S, R>(s: Session, roles: seq<string>, st: S, handler: S -> (S, R)): (out: (S, Option<R>))
    ensures Authorize(s, roles) != Allow ==> out == (st, None)
    ensures Authorize(s, roles) == Allow ==> out.0 == handler(st).0 && out.1 == Some(handler(st).1)
  {
    if Authorize(s, roles) == Allow then
      var (st', reply) := handler(st);
      (st', Some(reply))
    else
      (st, None)
  }

  /** A denied call never invokes its handler: any two handlers give the
      same outcome, and with an allowed call the handler's own outcome is
      passed through. */
  lemma DeniedHandlerNeverRuns<S, R>(s: Session, roles: seq<string>, st: S, h1: S -> (S, R), h2: S -> (S, R))
    ensures Authorize(s, roles) != Allow ==> Guard(s, roles, st, h1) == Guard(s, roles, st, h2)
    ensures Authorize(s, roles) == Allow ==> Guard(s, roles, st, h1) == (h1(st).0, Some(h1(st).1))
  {
  }

  /** Every route the application guards. */
  datatype Route =
    | ListPartners | AddPartner | DeletePartner | PartnerRequests
    | ListProducts | AddProduct | EditProduct | DeleteProduct
    | ListRequests | MyRequests | AddRequest | EditRequest
    | Supplies | Calc | AddComposition | EditComposition | DeleteComposition
    | Upload | ListUsers | AddUser

  /** The roles each route admits, as its decorator or inline test lists them. */
  function AllowedRoles(r: Route): seq<string> {
    match r
    case ListPartners => [Analyst, Manager]
    case PartnerRequests => [Analyst, Manager]
    case ListProducts => [Manager, PartnerRole]
    case MyRequests => [PartnerRole]
    case Calc => [Analyst, Manager, PartnerRole]
    case _ => [Manager]
  }

  /** The routes whose handler tests the role inline instead of using the decorator. */
  predicate InlineGuarded(r: Route) {
    r in {ListProducts, AddProduct, EditProduct, DeleteProduct,
          ListRequests, MyRequests, AddRequest, EditRequest, ListUsers, AddUser}
  }

  /** The gate of a route, in the style its handler uses. */
  function Gate(s: Session, r: Route): (d: Decision)
    ensures d == Authorize(s, AllowedRoles(r))
  {
    if InlineGuarded(r) then InlineCheck(s, AllowedRoles(r)) else Authorize(s, AllowedRoles(r))
  }

  /** The partner role reaches the product list, its own request history and
      the calculation page, and nothing else. */
  lemma PartnerRoleReach(r: Route)
    ensures PartnerRole in AllowedRoles(r) <==> r in {ListProducts, MyRequests, Calc}
  {
  }

  /** The analyst role only reads: the partner list, a partner's requests and
      the calculation page. */
  lemma AnalystRoleReach(r: Route)
    ensures Analyst in AllowedRoles(r) <==> r in {ListPartners, PartnerRequests, Calc}
  {
  }

  /** The manager role reaches every route except the partner's own history. */
  lemma ManagerRoleReach(r: Route)
    ensures Manager in AllowedRoles(r) <==> r != MyRequests
  {
  }

  /** A signed-in manager passes the gate of every route but the partner's
      own history, where the role test refuses them. */
  lemma ManagerPassesEveryGate(s: Session)
    requires s.SignedIn? && s.user.role == Manager
    ensures forall r: Route :: Gate(s, r) == Allow <==> r != MyRequests
  {
    forall r: Route ensures Gate(s, r) == Allow <==> r != MyRequests {
      ManagerRoleReach(r);
    }
  }

  /** Ending a session (`logout_user`): the caller is anonymous afterwards,
      whatever it was before. */
  function Logout(s: Session): Session {
    Anonymous
  }

  /** After signing out every guarded route sends the caller to the login
      page, whichever role the session carried before. */
  lemma LoggedOutCallerIsSentToLogin(s: Session, r: Route)
    ensures Gate(Logout(s), r) == RedirectToLogin
    ensures Gate(Logout(s), r) != Gate(s, r) <==> s.SignedIn?
  {
    if s.SignedIn? {
      assert Gate(s, r) != RedirectToLogin;
    }
  }
}
