/** Sales requests: the manager's list page and its query, a partner's own
    history of completed requests, and creating or editing a request subject
    to the partner's price floor. */
module Requests {
  import opened Common
  import opened Schema
  import opened Queries
  import opened Access

  /** The status of a fulfilled request, the only one a partner's history shows. */
  const Completed := "Выполнена"
  /** The status every new request receives. */
  const Pending := "pending"
  /** The manager every new request is assigned to, whoever creates it. */
  const DefaultManager := 1

  /** The sort keys of the list page, in the handler's `elif` order. */
  const Sorts: seq<(string, string)> := [
    ("created_at_desc", "r.CreatedAt DESC"),
    ("created_at_asc", "r.CreatedAt ASC"),
    ("total_price_desc", "r.TotalPrice DESC"),
    ("total_price_asc", "r.TotalPrice ASC"),
    ("partner_name_asc", "p.Name ASC"),
    ("partner_name_desc", "p.Name DESC")]

  const SortKeys: set<string> := {"created_at_desc", "created_at_asc", "total_price_desc", "total_price_asc", "partner_name_asc", "partner_name_desc"}

  /** The keys of the sort chain are exactly SortKeys. */
  lemma SortKeysRecognised(sort: string)
    ensures Recognised(sort, Sorts) <==> sort in SortKeys
  {
    if sort in SortKeys {
      assert Sorts[0].0 == sort || Sorts[1].0 == sort || Sorts[2].0 == sort || Sorts[3].0 == sort || Sorts[4].0 == sort || Sorts[5].0 == sort;
    }
  }

  /** The list page's query: `search` adds a partner-name ILIKE,
      `status_filter` an exact status match, in that order; the sort key
      defaults to newest first, and an unknown key sorts nothing. */
  function ListQuery(args: map<string, string>): (q: Query)
    ensures var search := Arg(args, "search", "");
            var status := Arg(args, "status_filter", "");
      && q.clauses == (if search != "" then ["p.Name ILIKE %s"] else []) + (if status != "" then ["r.Status = %s"] else [])
      && q.params == (if search != "" then [Text(Like(search))] else []) + (if status != "" then [Text(status)] else [])
    ensures q.orderBy.Some? <==> Arg(args, "sort", "created_at_desc") in SortKeys
    ensures "sort" !in args ==> q.orderBy == Some("r.CreatedAt DESC")
  {
    var search := Arg(args, "search", "");
    var status := Arg(args, "status_filter", "");
    var sort := Arg(args, "sort", "created_at_desc");
    var a := Filter(search, "p.Name ILIKE %s", Text(Like(search)));
    var b := Filter(status, "r.Status = %s", Text(status));
    TwoFilterQuery(a, b, sort, Sorts);
    SortKeysRecognised(sort);
    Build([a, b], sort, Sorts)
  }

  /** A request survives the list pages' inner joins with Managers and
      Products (and, on the pages that also join it, Partners). */
  predicate JoinsManagerAndProduct(db: Db, r: Request) {
    r.managerId in db.managers && r.productId in db.products.rows
  }

  /** What `/my_requests` shows a partner. */
  datatype History = Unlinked | Listed(ids: set<int>)

  /** `not current_user.partner_id`: no link, or the id 0, counts as unlinked. */
  predicate Linked(u: User) {
    u.partnerId.Some? && u.partnerId.value != 0
  }

  /** The partner's own completed requests; an unlinked partner user gets
      an empty page before any query runs. */
  function MyRequests(db: Db, u: User): (h: History)
    ensures h.Unlinked? <==> !Linked(u)
    ensures h.Listed? ==> forall k :: k in h.ids <==>
      && k in db.requests.rows
      && db.requests.rows[k].partnerId == u.partnerId.value
      && db.requests.rows[k].status == Completed
      && db.requests.rows[k].partnerId in db.partners.rows
      && JoinsManagerAndProduct(db, db.requests.rows[k])
  {
    if !Linked(u) then Unlinked
    else
      var pid := u.partnerId.value;
      Listed(set k | k in db.requests.rows && db.requests.rows[k].partnerId == pid
                     && db.requests.rows[k].status == Completed
                     && db.requests.rows[k].partnerId in db.partners.rows
                     && JoinsManagerAndProduct(db, db.requests.rows[k]))
  }

  /** fn_GetPartnerDiscountNew(partner) `or 0`, as a fraction of the price. */
  function Discount(discount: int -> Option<real>, partnerId: int): real {
    discount(partnerId).GetOr(0.0)
  }

  /** The lowest unit price allowed: the product's minimum partner price
      less the partner's discount. */
  function Floor(minPrice: real, d: real): real {
    minPrice * (1.0 - d)
  }

  /** The price check shared by creating and editing: a price below the
      floor is refused with the floor, a price at or above it passes. */
  function CheckPrice(unitPrice: real, minPrice: real, d: real): (r: Result<(), real>)
    ensures r.Ok? <==> unitPrice >= minPrice * (1.0 - d)
    ensures r.Err? ==> r.error == minPrice * (1.0 - d) && unitPrice < r.error
  {
    var floor := Floor(minPrice, d);
    if unitPrice < floor then Err(floor) else Ok(())
  }

  /** The floor only falls as the discount grows (for a non-negative
      minimum price), so a price accepted for one partner is accepted for
      every partner with a larger discount. */
  lemma FloorFallsWithDiscount(unitPrice: real, minPrice: real, d1: real, d2: real)
    requires minPrice >= 0.0 && d1 <= d2
    ensures Floor(minPrice, d2) <= Floor(minPrice, d1)
    ensures CheckPrice(unitPrice, minPrice, d1).Ok? ==> CheckPrice(unitPrice, minPrice, d2).Ok?
  {
    assert minPrice * (d2 - d1) >= 0.0;
    assert Floor(minPrice, d1) - Floor(minPrice, d2) == minPrice * (d2 - d1);
  }

  /** The submitted form, after the handler's `float()` conversions. */
  datatype RequestForm = RequestForm(partnerId: int, productId: int, quantity: real, unitPrice: real)

  datatype RequestOutcome =
    | Created(requestId: int)
    | Updated
    | ProductNotFound
    | BelowFloor(floor: real)
    | RequestNotFound
    | StoreError

  /** The checks before the write: the product must exist, its minimum
      price must not be NULL (a NULL makes the multiplication raise, which
      the handler reports as an error), and the price must clear the floor. */
  function Admissible(db: Db, f: RequestForm, discount: int -> Option<real>): (r: Result<(), RequestOutcome>)
    ensures f.productId !in db.products.rows ==> r == Err(ProductNotFound)
    ensures r.Ok? <==> && f.productId in db.products.rows
                       && db.products.rows[f.productId].minPartnerPrice.Some?
                       && CheckPrice(f.unitPrice, db.products.rows[f.productId].minPartnerPrice.value,
                                     Discount(discount, f.partnerId)).Ok?
    ensures r.Err? ==> r.error in {ProductNotFound, StoreError} || r.error.BelowFloor?
  {
    if f.productId !in db.products.rows then Err(ProductNotFound)
    else match db.products.rows[f.productId].minPartnerPrice
      case None => Err(StoreError)
      case Some(minPrice) =>
        match CheckPrice(f.unitPrice, minPrice, Discount(discount, f.partnerId))
        case Err(floor) => Err(BelowFloor(floor))
        case Ok(_) => Ok(())
  }

  /** POST /add_request: a request that passes the checks is inserted as
      pending, assigned to the default manager; nothing else changes. */
  function AddRequest(db: Db, f: RequestForm, discount: int -> Option<real>): (r: (Db, RequestOutcome))
    ensures !r.1.Created? ==> r.0 == db
    ensures r.1.Created? <==> Admissible(db, f, discount).Ok?
    ensures Admissible(db, f, discount).Err? ==> r.1 == Admissible(db, f, discount).error
    ensures r.1.Created? ==> && r.1.requestId !in db.requests.rows
                             && r.0.requests.rows == db.requests.rows[r.1.requestId :=
                                  Request(f.partnerId, DefaultManager, f.productId, f.quantity, f.unitPrice, Pending)]
                             && r.0 == db.(requests := r.0.requests)
  {
    match Admissible(db, f, discount)
    case Err(e) => (db, e)
    case Ok(_) =>
      var (requests', id) := Insert(db.requests, Request(f.partnerId, DefaultManager, f.productId, f.quantity, f.unitPrice, Pending));
      (db.(requests := requests'), Created(id))
  }

  /** POST /edit_request/<id>: the same checks, then an UPDATE of partner,
      product, quantity, price and status on that one request; a missing id
      matches no row and is rolled back. */
  function EditRequest(db: Db, requestId: int, f: RequestForm, status: string, discount: int -> Option<real>): (r: (Db, RequestOutcome))
    ensures !r.1.Updated? ==> r.0 == db
    ensures r.1.Updated? <==> Admissible(db, f, discount).Ok? && requestId in db.requests.rows
    ensures Admissible(db, f, discount).Err? ==> r.1 == Admissible(db, f, discount).error
    ensures Admissible(db, f, discount).Ok? && requestId !in db.requests.rows ==> r.1 == RequestNotFound
    ensures r.1.Updated? ==> && r.0.requests.rows.Keys == db.requests.rows.Keys
                             && r.0.requests.rows[requestId] == Request(f.partnerId, db.requests.rows[requestId].managerId,
                                                                        f.productId, f.quantity, f.unitPrice, status)
                             && (forall k :: k in db.requests.rows && k != requestId ==> r.0.requests.rows[k] == db.requests.rows[k])
                             && r.0 == db.(requests := r.0.requests)
  {
    match Admissible(db, f, discount)
    case Err(e) => (db, e)
    case Ok(_) =>
      if requestId !in db.requests.rows then (db, RequestNotFound)
      else
        var old_ := db.requests.rows[requestId];
        var updated := Request(f.partnerId, old_.managerId, f.productId, f.quantity, f.unitPrice, status);
        (db.(requests := Update(db.requests, requestId, updated)), Updated)
  }

  /** Creating and editing apply one and the same price rule: for the same
      form, an existing request can be edited to a price exactly when a new
      request at that price would be created, and both report the same floor
      otherwise. */
  lemma AddAndEditShareFloor(db: Db, requestId: int, f: RequestForm, status: string, discount: int -> Option<real>)
    requires requestId in db.requests.rows
    ensures AddRequest(db, f, discount).1.Created? <==> EditRequest(db, requestId, f, status, discount).1.Updated?
    ensures AddRequest(db, f, discount).1.BelowFloor? <==> EditRequest(db, requestId, f, status, discount).1.BelowFloor?
    ensures AddRequest(db, f, discount).1.BelowFloor? ==>
      AddRequest(db, f, discount).1 == EditRequest(db, requestId, f, status, discount).1
  {
  }

  /** Editing is idempotent: submitting the same form twice leaves the store
      as one submission did. */
  lemma {:induction false} EditIdempotent(db: Db, requestId: int, f: RequestForm, status: string, discount: int -> Option<real>)
    ensures var once := EditRequest(db, requestId, f, status, discount).0;
      EditRequest(once, requestId, f, status, discount).0 == once
  {
    var (once, out) := EditRequest(db, requestId, f, status, discount);
    if out.Updated? {
      assert once.products == db.products;
      assert Admissible(once, f, discount) == Admissible(db, f, discount);
      var (twice, _) := EditRequest(once, requestId, f, status, discount);
      assert twice.requests.rows == once.requests.rows;
    }
  }

  /** A request created at exactly the floor is accepted. */
  lemma FloorItselfAccepted(db: Db, f: RequestForm, discount: int -> Option<real>)
    requires f.productId in db.products.rows && db.products.rows[f.productId].minPartnerPrice.Some?
    requires f.unitPrice == Floor(db.products.rows[f.productId].minPartnerPrice.value, Discount(discount, f.partnerId))
    ensures AddRequest(db, f, discount).1.Created?
  {
  }
}
