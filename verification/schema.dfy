/** The relational store as immutable data: one table per entity the route
    handlers read or write, keyed by id. Columns no handler uses are left out. */
module Schema {
  import opened Common

  /** A row of Partners. Name and INN carry the store's UNIQUE constraints. */
  datatype Partner = Partner(
    name: string,
    legalAddress: Option<string>,
    inn: Option<string>,
    director: Option<string>,
    phone: Option<string>,
    email: Option<string>,
    rating: Option<real>)

  /** A row of Users; the password column holds a hash only. */
  datatype UserRow = UserRow(
    username: string,
    email: string,
    passwordHash: string,
    role: string,
    partnerId: Option<int>)

  /** A row of Products; CreatedAt is set once, on insert. */
  datatype Product = Product(
    name: string,
    description: Option<string>,
    standardNumber: Option<string>,
    manufactureDays: Option<string>,
    costPrice: Option<real>,
    minPartnerPrice: Option<real>,
    createdAt: int)

  /** A row of Materials: the name and the running stock. */
  datatype Material = Material(name: string, stock: real)

  /** A row of Supplies. */
  datatype Supply = Supply(supplierId: int, materialId: int, managerId: int, quantity: real)

  /** A row of Requests (a sales order). TotalPrice is derived by the store. */
  datatype Request = Request(
    partnerId: int,
    managerId: int,
    productId: int,
    quantity: real,
    unitPrice: real,
    status: string)

  /** The whole store. ProductComposition is keyed by its (ProductID, MaterialID) pair. */
  datatype Db = Db(
    partners: Table<Partner>,
    users: Table<UserRow>,
    products: Table<Product>,
    materials: map<int, Material>,
    suppliers: set<int>,
    managers: set<int>,
    supplies: Table<Supply>,
    requests: Table<Request>,
    composition: map<(int, int), real>)

  /** The UNIQUE constraints on Partners.Name and Partners.INN would refuse p
      (a NULL INN never collides). */
  predicate NameOrInnTaken(rows: map<int, Partner>, p: Partner) {
    exists k :: k in rows && (rows[k].name == p.name || (p.inn.Some? && rows[k].inn == p.inn))
  }

  /** Some user row is linked to the partner. */
  predicate PartnerHasUsers(users: map<int, UserRow>, partnerId: int) {
    exists k :: k in users && users[k].partnerId == Some(partnerId)
  }

  /** Some request names the product. */
  predicate ProductRequested(requests: map<int, Request>, productId: int) {
    exists k :: k in requests && requests[k].productId == productId
  }

  /** Every user's partner link names an existing partner. */
  predicate UserLinksResolve(db: Db) {
    forall k :: k in db.users.rows && db.users.rows[k].partnerId.Some? ==>
      db.users.rows[k].partnerId.value in db.partners.rows
  }

  /** Every request names an existing product. */
  predicate RequestProductsResolve(db: Db) {
    forall k :: k in db.requests.rows ==> db.requests.rows[k].productId in db.products.rows
  }

  /** Some ProductComposition pair names the product. */
  predicate ProductComposed(composition: map<(int, int), real>, productId: int) {
    exists k :: k in composition && k.0 == productId
  }

  /** Every ProductComposition pair names an existing product: the foreign
      key by which the store refuses a pair for an unknown product and the
      delete of a product some pair still names. */
  predicate CompositionProductsResolve(db: Db) {
    forall k :: k in db.composition ==> k.0 in db.products.rows
  }
}
