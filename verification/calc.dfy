/** The material calculator: the product-composition list and its query,
    the calculation that only analysts and managers may submit, and adding,
    editing and deleting composition rows. */
module Calc {
  import opened Common
  import opened Schema
  import opened Queries
  import opened Access

  const Sorts: seq<(string, string)> := [
    ("product_name_asc", "p.Name ASC"),
    ("product_name_desc", "p.Name DESC"),
    ("material_name_asc", "m.Name ASC"),
    ("material_name_desc", "m.Name DESC"),
    ("quantity_desc", "pc.Quantity DESC"),
    ("quantity_asc", "pc.Quantity ASC")]

  const SortKeys: set<string> :=
    {"product_name_asc", "product_name_desc", "material_name_asc", "material_name_desc", "quantity_desc", "quantity_asc"}

  /** The keys of the sort chain are exactly SortKeys. */
  lemma SortKeysRecognised(sort: string)
    ensures Recognised(sort, Sorts) <==> sort in SortKeys
  {
    if sort in SortKeys {
      assert Sorts[0].0 == sort || Sorts[1].0 == sort || Sorts[2].0 == sort || Sorts[3].0 == sort || Sorts[4].0 == sort || Sorts[5].0 == sort;
    }
  }

  /** The composition list's query: `search_product` and `search_material`
      each add one ILIKE on their own name column, product first; the sort
      key defaults to product_name_asc and an unknown key sorts nothing. */
  function ListQuery(args: map<string, string>): (q: Query)
    ensures var sp := Arg(args, "search_product", "");
            var sm := Arg(args, "search_material", "");
      && q.clauses == (if sp != "" then ["p.Name ILIKE %s"] else []) + (if sm != "" then ["m.Name ILIKE %s"] else [])
      && q.params == (if sp != "" then [Text(Like(sp))] else []) + (if sm != "" then [Text(Like(sm))] else [])
    ensures q.orderBy.Some? <==> Arg(args, "sort", "product_name_asc") in SortKeys
    ensures "sort" !in args ==> q.orderBy == Some("p.Name ASC")
  {
    var sp := Arg(args, "search_product", "");
    var sm := Arg(args, "search_material", "");
    var sort := Arg(args, "sort", "product_name_asc");
    var a := Filter(sp, "p.Name ILIKE %s", Text(Like(sp)));
    var b := Filter(sm, "m.Name ILIKE %s", Text(Like(sm)));
    TwoFilterQuery(a, b, sort, Sorts);
    SortKeysRecognised(sort);
    Build([a, b], sort, Sorts)
  }

  /** The five fields of the calculation form, as submitted. */
  datatype CalcForm = CalcForm(productId: string, materialId: string, quantity: string, param1: string, param2: string)

  /** The converted arguments of fn_CalcRequiredMaterial. */
  datatype CalcArgs = CalcArgs(productId: int, materialId: int, quantity: int, param1: real, param2: real)

  /** What the page shows about a calculation. */
  datatype Calculation =
    | NotRequested
    | FormatError
    | CalcFailed
    | Computed(result: Option<real>)

  /** The roles whose POST runs the calculation. */
  const CalcRoles: seq<string> := [Analyst, Manager]

  /** The three `int()` and two `float()` conversions; any failure is the
      same ValueError. */
  function ParseCalc(f: CalcForm, parseInt: string -> Option<int>, parseReal: string -> Option<real>): (r: Option<CalcArgs>)
    ensures r.Some? <==> && parseInt(f.productId).Some? && parseInt(f.materialId).Some? && parseInt(f.quantity).Some?
                         && parseReal(f.param1).Some? && parseReal(f.param2).Some?
    ensures r.Some? ==> r.value == CalcArgs(parseInt(f.productId).value, parseInt(f.materialId).value,
                                            parseInt(f.quantity).value, parseReal(f.param1).value, parseReal(f.param2).value)
  {
    if && parseInt(f.productId).Some? && parseInt(f.materialId).Some? && parseInt(f.quantity).Some?
       && parseReal(f.param1).Some? && parseReal(f.param2).Some?
    then Some(CalcArgs(parseInt(f.productId).value, parseInt(f.materialId).value, parseInt(f.quantity).value,
                       parseReal(f.param1).value, parseReal(f.param2).value))
    else None
  }

  /** The calculation on /calc. `required` stands for fn_CalcRequiredMaterial:
      its value (possibly NULL), or Err when the store raises. */
  function Calculate(isPost: bool, u: User, f: CalcForm, parseInt: string -> Option<int>, parseReal: string -> Option<real>,
                     required: CalcArgs -> Result<Option<real>, ()>): (c: Calculation)
    ensures c != NotRequested <==> isPost && u.role in CalcRoles
    ensures c == FormatError <==> isPost && u.role in CalcRoles && ParseCalc(f, parseInt, parseReal).None?
    ensures c.Computed? <==> && isPost && u.role in CalcRoles && ParseCalc(f, parseInt, parseReal).Some?
                             && required(ParseCalc(f, parseInt, parseReal).value).Ok?
    ensures c.Computed? ==> c.result == required(ParseCalc(f, parseInt, parseReal).value).value
  {
    if !(isPost && u.role in CalcRoles) then NotRequested
    else match ParseCalc(f, parseInt, parseReal)
      case None => FormatError
      case Some(args) =>
        match required(args)
        case Err(_) => CalcFailed
        case Ok(v) => Computed(v)
  }

  /** A partner reaches /calc but never gets a result, whatever the form and
      the method; an analyst and a manager submitting the same form get the
      same answer. */
  lemma PartnerNeverCalculates(isPost: bool, u: User, f: CalcForm, parseInt: string -> Option<int>, parseReal: string -> Option<real>,
                               required: CalcArgs -> Result<Option<real>, ()>)
    ensures u.role == PartnerRole ==> Calculate(isPost, u, f, parseInt, parseReal, required) == NotRequested
    ensures Calculate(isPost, u.(role := Analyst), f, parseInt, parseReal, required)
         == Calculate(isPost, u.(role := Manager), f, parseInt, parseReal, required)
  {
  }

  datatype CompositionOutcome =
    | CompositionAdded
    | CompositionEdited
    | CompositionDeleted
    | Refused
    | PairNotFound
    | InUse

  /** The store refuses a composition row whose pair already exists or
      whose product or material does not exist. */
  predicate Insertable(db: Db, productId: int, materialId: int) {
    && (productId, materialId) !in db.composition
    && productId in db.products.rows
    && materialId in db.materials
  }

  /** POST /add_product_material: one new pair, or a refusal that is rolled back. */
  function AddComposition(db: Db, productId: int, materialId: int, quantity: real): (r: (Db, CompositionOutcome))
    ensures r.1 == CompositionAdded <==> Insertable(db, productId, materialId)
    ensures r.1 != CompositionAdded ==> r.0 == db && r.1 == Refused
    ensures r.1 == CompositionAdded ==> && r.0.composition == db.composition[(productId, materialId) := quantity]
                                        && r.0 == db.(composition := r.0.composition)
  {
    if Insertable(db, productId, materialId) then
      (db.(composition := db.composition[(productId, materialId) := quantity]), CompositionAdded)
    else
      (db, Refused)
  }

  /** POST /edit_product_material/<p>/<m>: sets the quantity of that one
      pair; a missing pair matches no row and is rolled back. */
  function EditComposition(db: Db, productId: int, materialId: int, quantity: real): (r: (Db, CompositionOutcome))
    ensures r.1 == CompositionEdited <==> (productId, materialId) in db.composition
    ensures r.1 != CompositionEdited ==> r.0 == db && r.1 == PairNotFound
    ensures r.1 == CompositionEdited ==> && r.0.composition.Keys == db.composition.Keys
                                         && r.0.composition[(productId, materialId)] == quantity
                                         && (forall k :: k in db.composition && k != (productId, materialId) ==> r.0.composition[k] == db.composition[k])
                                         && r.0 == db.(composition := r.0.composition)
  {
    if (productId, materialId) in db.composition then
      (db.(composition := db.composition[(productId, materialId) := quantity]), CompositionEdited)
    else
      (db, PairNotFound)
  }

  /** POST /delete_product_material: refused while the product appears in
      any request, whichever material the pair names; otherwise the pair is
      deleted, or not found and nothing is committed. */
  function DeleteComposition(db: Db, productId: int, materialId: int): (r: (Db, CompositionOutcome))
    ensures r.1 == InUse <==> ProductRequested(db.requests.rows, productId)
    ensures r.1 == PairNotFound <==> !ProductRequested(db.requests.rows, productId) && (productId, materialId) !in db.composition
    ensures r.1 != CompositionDeleted ==> r.0 == db
    ensures r.1 == CompositionDeleted ==> && r.0.composition == db.composition - {(productId, materialId)}
                                          && r.0 == db.(composition := r.0.composition)
  {
    if ProductRequested(db.requests.rows, productId) then (db, InUse)
    else if (productId, materialId) !in db.composition then (db, PairNotFound)
    else (db.(composition := db.composition - {(productId, materialId)}), CompositionDeleted)
  }

  /** Adding, editing and deleting pairs keep every pair pointing at an
      existing product. */
  lemma CompositionKeepsProductLinks(db: Db, productId: int, materialId: int, q: real)
    requires CompositionProductsResolve(db)
    ensures CompositionProductsResolve(AddComposition(db, productId, materialId, q).0)
    ensures CompositionProductsResolve(EditComposition(db, productId, materialId, q).0)
    ensures CompositionProductsResolve(DeleteComposition(db, productId, materialId).0)
  {
  }

  /** The refusal to delete is about the product alone: for a requested
      product every pair is refused, even one that does not exist. */
  lemma DeleteRefusalIgnoresMaterial(db: Db, productId: int, m1: int, m2: int)
    ensures DeleteComposition(db, productId, m1).1 == InUse <==> DeleteComposition(db, productId, m2).1 == InUse
    ensures ProductRequested(db.requests.rows, productId) ==> DeleteComposition(db, productId, m1).0 == db
  {
  }

  /** Adding a pair and deleting it again, for a product no request names,
      gives the composition back as it was; editing a pair just added sets
      its quantity. */
  lemma {:induction false} AddThenDeleteRestores(db: Db, productId: int, materialId: int, q: real, q': real)
    requires Insertable(db, productId, materialId)
    requires !ProductRequested(db.requests.rows, productId)
    ensures DeleteComposition(AddComposition(db, productId, materialId, q).0, productId, materialId) == (db, CompositionDeleted)
    ensures EditComposition(AddComposition(db, productId, materialId, q).0, productId, materialId, q').0
         == AddComposition(db, productId, materialId, q').0
  {
    var db1 := AddComposition(db, productId, materialId, q).0;
    assert db1.composition - {(productId, materialId)} == db.composition;
  }
}
