/** Products: the list page and its query, adding and editing a product,
    and deleting one that no request refers to. */
module Products {
  import opened Common
  import opened Schema
  import opened Queries

  const Sorts: seq<(string, string)> := [
    ("name_asc", "Name ASC"),
    ("name_desc", "Name DESC"),
    ("min_price_desc", "MinPartnerPrice DESC"),
    ("min_price_asc", "MinPartnerPrice ASC")]

  const SortKeys: set<string> := {"name_asc", "name_desc", "min_price_desc", "min_price_asc"}

  /** The keys of the sort chain are exactly SortKeys. */
  lemma SortKeysRecognised(sort: string)
    ensures Recognised(sort, Sorts) <==> sort in SortKeys
  {
    if sort in SortKeys {
      assert Sorts[0].0 == sort || Sorts[1].0 == sort || Sorts[2].0 == sort || Sorts[3].0 == sort;
    }
  }

  /** The list page's query: `search` adds a name ILIKE; the sort key
      defaults to name_asc and an unknown key sorts nothing. */
  function ListQuery(args: map<string, string>): (q: Query)
    ensures var search := Arg(args, "search", "");
      && q.clauses == (if search != "" then ["Name ILIKE %s"] else [])
      && q.params == (if search != "" then [Text(Like(search))] else [])
    ensures q.orderBy.Some? <==> Arg(args, "sort", "name_asc") in SortKeys
    ensures "sort" !in args ==> q.orderBy == Some("Name ASC")
  {
    var search := Arg(args, "search", "");
    var sort := Arg(args, "sort", "name_asc");
    var a := Filter(search, "Name ILIKE %s", Text(Like(search)));
    OneFilterQuery(a, sort, Sorts);
    SortKeysRecognised(sort);
    Build([a], sort, Sorts)
  }

  /** The add and edit form: the name as submitted, the other fields as
      `request.form.get` returns them. */
  datatype ProductForm = ProductForm(
    name: string,
    description: Option<string>,
    standardNumber: Option<string>,
    manufactureDays: Option<string>,
    costPrice: Option<string>,
    minPartnerPrice: Option<string>)

  datatype ProductOutcome =
    | ProductAdded(productId: int)
    | ProductEdited
    | BadPrice
    | ProductNotFound
    | InUse
    | StoreRefused
    | ProductDeleted

  /** Both prices convert (or are empty). */
  predicate PricesParse(f: ProductForm, parseReal: string -> Option<real>) {
    OptionalReal(f.costPrice, parseReal).Ok? && OptionalReal(f.minPartnerPrice, parseReal).Ok?
  }

  /** The row the form describes, with the given creation time; empty
      optional fields become NULL. */
  function Row(f: ProductForm, parseReal: string -> Option<real>, createdAt: int): (p: Product)
    requires PricesParse(f, parseReal)
    ensures p.name == f.name && p.createdAt == createdAt
    ensures p.description == Blank(f.description) && p.standardNumber == Blank(f.standardNumber)
    ensures p.manufactureDays == Blank(f.manufactureDays)
    ensures p.costPrice.None? <==> Blank(f.costPrice).None?
    ensures p.costPrice.Some? ==> p.costPrice == parseReal(f.costPrice.value)
    ensures p.minPartnerPrice.None? <==> Blank(f.minPartnerPrice).None?
    ensures p.minPartnerPrice.Some? ==> p.minPartnerPrice == parseReal(f.minPartnerPrice.value)
  {
    Product(f.name, Blank(f.description), Blank(f.standardNumber), Blank(f.manufactureDays),
            OptionalReal(f.costPrice, parseReal).value, OptionalReal(f.minPartnerPrice, parseReal).value, createdAt)
  }

  /** POST /add_product at time `now`: one new row, stamped with `now`. A
      price that does not convert makes `float()` raise before the store is
      touched. */
  function AddProduct(db: Db, f: ProductForm, parseReal: string -> Option<real>, now: int): (r: (Db, ProductOutcome))
    ensures !r.1.ProductAdded? ==> r.0 == db
    ensures r.1.ProductAdded? <==> PricesParse(f, parseReal)
    ensures r.1.ProductAdded? ==> && r.1.productId !in db.products.rows
                                  && r.0.products.rows == db.products.rows[r.1.productId := Row(f, parseReal, now)]
                                  && r.0 == db.(products := r.0.products)
  {
    if !PricesParse(f, parseReal) then (db, BadPrice)
    else
      var (products', id) := Insert(db.products, Row(f, parseReal, now));
      (db.(products := products'), ProductAdded(id))
  }

  /** POST /edit_product/<id>: overwrites the six editable columns of an
      existing product and keeps its creation time; a missing id matches no
      row and is rolled back. The prices are converted first. */
  function EditProduct(db: Db, productId: int, f: ProductForm, parseReal: string -> Option<real>): (r: (Db, ProductOutcome))
    ensures !r.1.ProductEdited? ==> r.0 == db
    ensures !PricesParse(f, parseReal) ==> r.1 == BadPrice
    ensures r.1.ProductEdited? <==> PricesParse(f, parseReal) && productId in db.products.rows
    ensures r.1.ProductEdited? ==> && r.0.products.rows.Keys == db.products.rows.Keys
                                   && r.0.products.rows[productId] == Row(f, parseReal, db.products.rows[productId].createdAt)
                                   && (forall k :: k in db.products.rows && k != productId ==> r.0.products.rows[k] == db.products.rows[k])
                                   && r.0 == db.(products := r.0.products)
  {
    if !PricesParse(f, parseReal) then (db, BadPrice)
    else if productId !in db.products.rows then (db, ProductNotFound)
    else
      var row := Row(f, parseReal, db.products.rows[productId].createdAt);
      (db.(products := Update(db.products, productId, row)), ProductEdited)
  }

  /** Editing is idempotent, and an edit submitted with the values a product
      already holds changes nothing. */
  lemma {:induction false} EditIdempotent(db: Db, productId: int, f: ProductForm, parseReal: string -> Option<real>)
    ensures var once := EditProduct(db, productId, f, parseReal).0;
      EditProduct(once, productId, f, parseReal).0 == once
    ensures productId in db.products.rows && PricesParse(f, parseReal)
            && Row(f, parseReal, db.products.rows[productId].createdAt) == db.products.rows[productId]
      ==> EditProduct(db, productId, f, parseReal).0 == db
  {
    var (once, out) := EditProduct(db, productId, f, parseReal);
    if out.ProductEdited? {
      var (twice, _) := EditProduct(once, productId, f, parseReal);
      assert twice.products.rows == once.products.rows;
    }
    if productId in db.products.rows && PricesParse(f, parseReal)
       && Row(f, parseReal, db.products.rows[productId].createdAt) == db.products.rows[productId] {
      assert once.products.rows == db.products.rows;
    }
  }

  /** POST /delete_product: refused while any request names the product;
      otherwise the row is deleted, or not found and nothing is committed.
      While a composition pair still names the product, the store refuses
      the DELETE by its foreign key, and the error is reported and rolled
      back. */
  function DeleteProduct(db: Db, productId: int): (r: (Db, ProductOutcome))
    ensures r.1 == InUse <==> ProductRequested(db.requests.rows, productId)
    ensures r.1 == ProductNotFound <==> !ProductRequested(db.requests.rows, productId) && productId !in db.products.rows
    ensures r.1 == StoreRefused <==> && !ProductRequested(db.requests.rows, productId)
                                     && productId in db.products.rows
                                     && ProductComposed(db.composition, productId)
    ensures r.1 != ProductDeleted ==> r.0 == db
    ensures r.1 == ProductDeleted ==> && r.0.products.rows.Keys == db.products.rows.Keys - {productId}
                                      && (forall k :: k in r.0.products.rows ==> r.0.products.rows[k] == db.products.rows[k])
                                      && r.0 == db.(products := r.0.products)
  {
    if ProductRequested(db.requests.rows, productId) then (db, InUse)
    else if productId !in db.products.rows then (db, ProductNotFound)
    else if ProductComposed(db.composition, productId) then (db, StoreRefused)
    else (db.(products := Delete(db.products, productId)), ProductDeleted)
  }

  /** The guard keeps every request pointing at an existing product. */
  lemma DeleteKeepsRequestLinks(db: Db, productId: int)
    requires RequestProductsResolve(db)
    ensures RequestProductsResolve(DeleteProduct(db, productId).0)
  {
    var (db', out) := DeleteProduct(db, productId);
    if out == ProductDeleted {
      forall k | k in db'.requests.rows ensures db'.requests.rows[k].productId in db'.products.rows {
        assert db.requests.rows[k].productId != productId;
      }
    }
  }

  /** The foreign key keeps every composition pair pointing at an existing
      product across a delete. */
  lemma DeleteKeepsCompositionLinks(db: Db, productId: int)
    requires CompositionProductsResolve(db)
    ensures CompositionProductsResolve(DeleteProduct(db, productId).0)
  {
    var (db', out) := DeleteProduct(db, productId);
    if out == ProductDeleted {
      forall k | k in db'.composition ensures k.0 in db'.products.rows {
        assert k in db.composition;
      }
    }
  }

  /** Deleting a product just added (before any request or composition pair
      names it) gives the Products rows back as they were. */
  lemma {:induction false} AddThenDeleteRestores(db: Db, f: ProductForm, parseReal: string -> Option<real>, now: int)
    requires RequestProductsResolve(db) && CompositionProductsResolve(db)
    requires PricesParse(f, parseReal)
    ensures var (db1, out) := AddProduct(db, f, parseReal, now);
      var (db2, out2) := DeleteProduct(db1, out.productId);
      out2 == ProductDeleted && db2.products.rows == db.products.rows
  {
    var (db1, out) := AddProduct(db, f, parseReal, now);
    var id := out.productId;
    assert !ProductRequested(db1.requests.rows, id) by {
      forall k | k in db1.requests.rows ensures db1.requests.rows[k].productId != id {
        assert db.requests.rows[k].productId in db.products.rows;
      }
    }
    assert !ProductComposed(db1.composition, id) by {
      forall k | k in db1.composition ensures k.0 != id {
        assert k.0 in db.products.rows;
      }
    }
    var (db2, out2) := DeleteProduct(db1, id);
    assert db2.products.rows == db.products.rows;
  }
}
