/** Recording a delivery of material (`POST /supplies`): the form is parsed,
    the supplier, material and manager are looked up in that order, and then
    one Supplies row is inserted and the material's stock raised by the
    delivered quantity, both in one transaction. */
module Supplies {
  import opened Common
  import opened Schema

  /** The four form fields as `request.form.get` returns them (None when absent). */
  datatype SupplyForm = SupplyForm(
    supplierId: Option<string>,
    materialId: Option<string>,
    managerId: Option<string>,
    quantity: Option<string>)

  /** The form once every field has been converted. */
  datatype Delivery = Delivery(supplierId: int, materialId: int, managerId: int, quantity: real)

  /** What the handler reports. `Crashed` is the outer handler's error page:
      converting an absent field raises TypeError, which the inner
      `except ValueError` does not catch. */
  datatype SupplyOutcome =
    | Added(supplyId: int)
    | BadFormat
    | NotPositive
    | SupplierNotFound
    | MaterialNotFound
    | ManagerNotFound
    | WriteFailed
    | Crashed

  /** Every field is present and converts, and the quantity is positive. */
  predicate WellFormed(f: SupplyForm, parseReal: string -> Option<real>, parseInt: string -> Option<int>) {
    && f.quantity.Some? && parseReal(f.quantity.value).Some? && parseReal(f.quantity.value).value > 0.0
    && f.supplierId.Some? && parseInt(f.supplierId.value).Some?
    && f.materialId.Some? && parseInt(f.materialId.value).Some?
    && f.managerId.Some? && parseInt(f.managerId.value).Some?
  }

  /** `int(field)` inside the handler's `try`: an absent field crashes, a
      malformed one is a format error. */
  function ParseId(field: Option<string>, parseInt: string -> Option<int>): (r: Result<int, SupplyOutcome>)
    ensures r.Ok? <==> field.Some? && parseInt(field.value).Some?
    ensures r.Ok? ==> r.value == parseInt(field.value).value
    ensures r.Err? ==> r.error == (if field.None? then Crashed else BadFormat)
  {
    match field
    case None => Err(Crashed)
    case Some(text) =>
      match parseInt(text)
      case None => Err(BadFormat)
      case Some(n) => Ok(n)
  }

  /** The conversion block: the quantity first (`float`, then the `<= 0`
      test), then the three ids in form order. */
  function ParseForm(f: SupplyForm, parseReal: string -> Option<real>, parseInt: string -> Option<int>): (r: Result<Delivery, SupplyOutcome>)
    ensures r.Ok? <==> WellFormed(f, parseReal, parseInt)
    ensures r.Ok? ==> r.value == Delivery(parseInt(f.supplierId.value).value, parseInt(f.materialId.value).value,
                                         parseInt(f.managerId.value).value, parseReal(f.quantity.value).value)
    ensures f.quantity.None? ==> r == Err(Crashed)
    ensures f.quantity.Some? && parseReal(f.quantity.value).None? ==> r == Err(BadFormat)
    ensures f.quantity.Some? && parseReal(f.quantity.value).Some? && parseReal(f.quantity.value).value <= 0.0 ==> r == Err(NotPositive)
    ensures r.Err? ==> r.error in {Crashed, BadFormat, NotPositive}
  {
    match f.quantity
    case None => Err(Crashed)
    case Some(qText) =>
      match parseReal(qText)
      case None => Err(BadFormat)
      case Some(q) =>
        if q <= 0.0 then Err(NotPositive)
        else
          match ParseId(f.supplierId, parseInt)
          case Err(e) => Err(e)
          case Ok(supplier) =>
            match ParseId(f.materialId, parseInt)
            case Err(e) => Err(e)
            case Ok(material) =>
              match ParseId(f.managerId, parseInt)
              case Err(e) => Err(e)
              case Ok(manager) => Ok(Delivery(supplier, material, manager, q))
  }

  /** The three lookups, in the handler's order; Ok when all rows exist. */
  function CheckParties(db: Db, d: Delivery): (r: Result<(), SupplyOutcome>)
    ensures r.Ok? <==> d.supplierId in db.suppliers && d.materialId in db.materials && d.managerId in db.managers
    ensures d.supplierId !in db.suppliers ==> r == Err(SupplierNotFound)
    ensures d.supplierId in db.suppliers && d.materialId !in db.materials ==> r == Err(MaterialNotFound)
    ensures d.supplierId in db.suppliers && d.materialId in db.materials && d.managerId !in db.managers ==> r == Err(ManagerNotFound)
  {
    if d.supplierId !in db.suppliers then Err(SupplierNotFound)
    else if d.materialId !in db.materials then Err(MaterialNotFound)
    else if d.managerId !in db.managers then Err(ManagerNotFound)
    else Ok(())
  }

  /** The two writes: one new Supplies row, and `QuantityInStock =
      QuantityInStock + quantity` on the delivered material. */
  function Record(db: Db, d: Delivery): (r: (Db, int))
    requires d.materialId in db.materials
    ensures r.1 !in db.supplies.rows
    ensures r.0.supplies.rows == db.supplies.rows[r.1 := Supply(d.supplierId, d.materialId, d.managerId, d.quantity)]
    ensures r.0.materials.Keys == db.materials.Keys
    ensures r.0.materials[d.materialId] == db.materials[d.materialId].(stock := db.materials[d.materialId].stock + d.quantity)
    ensures forall m :: m in db.materials && m != d.materialId ==> r.0.materials[m] == db.materials[m]
    ensures r.0 == db.(supplies := r.0.supplies, materials := r.0.materials)
  {
    var (supplies', id) := Insert(db.supplies, Supply(d.supplierId, d.materialId, d.managerId, d.quantity));
    var m := db.materials[d.materialId];
    (db.(supplies := supplies', materials := db.materials[d.materialId := m.(stock := m.stock + d.quantity)]), id)
  }

  /** The POST branch. `writeFails` stands for either write raising, which
      rolls both back. */
  function AddSupply(db: Db, f: SupplyForm, parseReal: string -> Option<real>, parseInt: string -> Option<int>, writeFails: bool): (r: (Db, SupplyOutcome))
    ensures !r.1.Added? ==> r.0 == db
    ensures r.1.Added? <==> && WellFormed(f, parseReal, parseInt)
                            && ParseForm(f, parseReal, parseInt).value.supplierId in db.suppliers
                            && ParseForm(f, parseReal, parseInt).value.materialId in db.materials
                            && ParseForm(f, parseReal, parseInt).value.managerId in db.managers
                            && !writeFails
    ensures ParseForm(f, parseReal, parseInt).Err? ==> r.1 == ParseForm(f, parseReal, parseInt).error
    ensures ParseForm(f, parseReal, parseInt).Ok? && CheckParties(db, ParseForm(f, parseReal, parseInt).value).Err?
      ==> r.1 == CheckParties(db, ParseForm(f, parseReal, parseInt).value).error
    ensures r.1 == WriteFailed <==> writeFails && ParseForm(f, parseReal, parseInt).Ok? && CheckParties(db, ParseForm(f, parseReal, parseInt).value).Ok?
  {
    match ParseForm(f, parseReal, parseInt)
    case Err(e) => (db, e)
    case Ok(d) =>
      match CheckParties(db, d)
      case Err(e) => (db, e)
      case Ok(_) =>
        if writeFails then (db, WriteFailed)
        else
          var (db', id) := Record(db, d);
          (db', Added(id))
  }

  /** A recorded supply changes exactly the Supplies table and the stock of
      its own material: that stock grows by the quantity the new row records,
      every other material and every other table is as it was. */
  lemma AddedSupplyMatchesStock(db: Db, f: SupplyForm, parseReal: string -> Option<real>, parseInt: string -> Option<int>, writeFails: bool)
    requires AddSupply(db, f, parseReal, parseInt, writeFails).1.Added?
    ensures var (db', out) := AddSupply(db, f, parseReal, parseInt, writeFails);
      var s := db'.supplies.rows[out.supplyId];
      && out.supplyId !in db.supplies.rows && |db'.supplies.rows| == |db.supplies.rows| + 1
      && s.quantity > 0.0 && s.materialId in db.materials
      && db'.materials[s.materialId].stock == db.materials[s.materialId].stock + s.quantity
      && (forall m :: m in db.materials && m != s.materialId ==> db'.materials[m] == db.materials[m])
      && db'.partners == db.partners && db'.users == db.users && db'.products == db.products
      && db'.requests == db.requests && db'.composition == db.composition
  {
  }

  /** Stock only grows: no material's stock is lower after the handler, and
      no material appears or disappears. */
  lemma StockNeverDecreases(db: Db, f: SupplyForm, parseReal: string -> Option<real>, parseInt: string -> Option<int>, writeFails: bool)
    ensures var db' := AddSupply(db, f, parseReal, parseInt, writeFails).0;
      db'.materials.Keys == db.materials.Keys
      && forall m :: m in db.materials ==> db'.materials[m].stock >= db.materials[m].stock
  {
  }

  /** Because the increment is relative, two deliveries that both succeed
      leave the same stock whichever is recorded first, and the second of
      them succeeds in either order. */
  lemma {:induction false} DeliveriesCommute(db: Db, d1: Delivery, d2: Delivery)
    requires d1.materialId in db.materials && d2.materialId in db.materials
    ensures Record(Record(db, d1).0, d2).0.materials == Record(Record(db, d2).0, d1).0.materials
  {
    var a := Record(Record(db, d1).0, d2).0.materials;
    var b := Record(Record(db, d2).0, d1).0.materials;
    assert a.Keys == b.Keys;
    forall m | m in a.Keys ensures a[m] == b[m] {
      if m == d1.materialId && m == d2.materialId {
        assert a[m].stock == db.materials[m].stock + d1.quantity + d2.quantity;
        assert b[m].stock == db.materials[m].stock + d2.quantity + d1.quantity;
      }
    }
  }

  /** Success of a delivery depends only on the form and the three
      reference tables, which a recorded supply never changes: a delivery
      that succeeds now still succeeds after any other recorded delivery. */
  lemma SuccessSurvivesOtherDelivery(db: Db, d: Delivery, f: SupplyForm, parseReal: string -> Option<real>, parseInt: string -> Option<int>)
    requires d.materialId in db.materials
    requires AddSupply(db, f, parseReal, parseInt, false).1.Added?
    ensures AddSupply(Record(db, d).0, f, parseReal, parseInt, false).1.Added?
  {
  }
}
