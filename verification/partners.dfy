/** Partners: the list page and its query, adding a partner, deleting one
    that no user is linked to, and a partner's request list. */
module Partners {
  import opened Common
  import opened Schema
  import opened Queries
  import opened Access
  import Requests

  const Sorts: seq<(string, string)> := [
    ("name_asc", "Name ASC"),
    ("name_desc", "Name DESC"),
    ("rating_desc", "Rating DESC"),
    ("discount_desc", "fn_GetPartnerDiscountNew(PartnerID) DESC")]

  const SortKeys: set<string> := {"name_asc", "name_desc", "rating_desc", "discount_desc"}

  /** The keys of the sort chain are exactly SortKeys. */
  lemma SortKeysRecognised(sort: string)
    ensures Recognised(sort, Sorts) <==> sort in SortKeys
  {
    if sort in SortKeys {
      assert Sorts[0].0 == sort || Sorts[1].0 == sort || Sorts[2].0 == sort || Sorts[3].0 == sort;
    }
  }

  /** The list page's query: `search` adds a name ILIKE and `rating_filter`
      a `Rating >= x` bound, in that order; a rating filter that is not a
      number makes `float()` raise and the page shows an error instead. */
  function ListQuery(args: map<string, string>, parseReal: string -> Option<real>): (r: Option<Query>)
    ensures var rating := Arg(args, "rating_filter", "");
      r.None? <==> rating != "" && parseReal(rating).None?
    ensures r.Some? ==> var search := Arg(args, "search", "");
                        var rating := Arg(args, "rating_filter", "");
      && r.value.clauses == (if search != "" then ["Name ILIKE %s"] else []) + (if rating != "" then ["Rating >= %s"] else [])
      && r.value.params == (if search != "" then [Text(Like(search))] else [])
                           + (if rating != "" then [Number(parseReal(rating).value)] else [])
    ensures r.Some? ==> (r.value.orderBy.Some? <==> Arg(args, "sort", "name_asc") in SortKeys)
    ensures r.Some? && "sort" !in args ==> r.value.orderBy == Some("Name ASC")
  {
    var search := Arg(args, "search", "");
    var rating := Arg(args, "rating_filter", "");
    var sort := Arg(args, "sort", "name_asc");
    if rating != "" && parseReal(rating).None? then None
    else
      var bound := if rating != "" then parseReal(rating).value else 0.0;
      var a := Filter(search, "Name ILIKE %s", Text(Like(search)));
      var b := Filter(rating, "Rating >= %s", Number(bound));
      TwoFilterQuery(a, b, sort, Sorts);
      SortKeysRecognised(sort);
      Some(Build([a, b], sort, Sorts))
  }

  /** The add form: the name as submitted, the other fields as
      `request.form.get` returns them. */
  datatype PartnerForm = PartnerForm(
    name: string,
    legalAddress: Option<string>,
    inn: Option<string>,
    director: Option<string>,
    phone: Option<string>,
    email: Option<string>,
    rating: Option<string>)

  datatype PartnerOutcome =
    | PartnerAdded(partnerId: int)
    | Duplicate
    | BadRating
    | HasUsers
    | PartnerNotFound
    | PartnerDeleted

  /** POST /add_partner: the row inserted when nothing refuses it; the
      store's UNIQUE constraints on Name and INN refuse a duplicate, which
      is rolled back. */
  function AddPartner(db: Db, f: PartnerForm, parseReal: string -> Option<real>): (r: (Db, PartnerOutcome))
    ensures !r.1.PartnerAdded? ==> r.0 == db
    ensures r.1 == BadRating <==> OptionalReal(f.rating, parseReal).Err?
    ensures r.1.PartnerAdded? || r.1 == Duplicate || r.1 == BadRating
    ensures OptionalReal(f.rating, parseReal).Ok? ==>
      var p := Partner(f.name, Blank(f.legalAddress), Blank(f.inn), Blank(f.director), Blank(f.phone), Blank(f.email),
                       OptionalReal(f.rating, parseReal).value);
      && (r.1 == Duplicate <==> NameOrInnTaken(db.partners.rows, p))
      && (r.1.PartnerAdded? ==>
            && r.1.partnerId !in db.partners.rows
            && r.0.partners.rows == db.partners.rows[r.1.partnerId := p]
            && r.0 == db.(partners := r.0.partners))
  {
    match OptionalReal(f.rating, parseReal)
    case Err(_) => (db, BadRating)
    case Ok(rating) =>
      var p := Partner(f.name, Blank(f.legalAddress), Blank(f.inn), Blank(f.director), Blank(f.phone), Blank(f.email), rating);
      if NameOrInnTaken(db.partners.rows, p) then (db, Duplicate)
      else
        var (partners', id) := Insert(db.partners, p);
        (db.(partners := partners'), PartnerAdded(id))
  }

  /** POST /delete_partner: refused while any user is linked to the
      partner; otherwise the row is deleted, or not found and nothing is
      committed. */
  function DeletePartner(db: Db, partnerId: int): (r: (Db, PartnerOutcome))
    ensures r.1 == HasUsers <==> PartnerHasUsers(db.users.rows, partnerId)
    ensures r.1 == PartnerNotFound <==> !PartnerHasUsers(db.users.rows, partnerId) && partnerId !in db.partners.rows
    ensures r.1 != PartnerDeleted ==> r.0 == db
    ensures r.1 == PartnerDeleted ==> && r.0.partners.rows.Keys == db.partners.rows.Keys - {partnerId}
                                      && (forall k :: k in r.0.partners.rows ==> r.0.partners.rows[k] == db.partners.rows[k])
                                      && r.0 == db.(partners := r.0.partners)
  {
    if PartnerHasUsers(db.users.rows, partnerId) then (db, HasUsers)
    else if partnerId !in db.partners.rows then (db, PartnerNotFound)
    else (db.(partners := Delete(db.partners, partnerId)), PartnerDeleted)
  }

  /** The guard keeps every user's partner link pointing at a partner. */
  lemma DeleteKeepsUserLinks(db: Db, partnerId: int)
    requires UserLinksResolve(db)
    ensures UserLinksResolve(DeletePartner(db, partnerId).0)
  {
    var (db', out) := DeletePartner(db, partnerId);
    if out == PartnerDeleted {
      forall k | k in db'.users.rows && db'.users.rows[k].partnerId.Some?
        ensures db'.users.rows[k].partnerId.value in db'.partners.rows
      {
        assert db.users.rows[k].partnerId != Some(partnerId);
      }
    }
  }

  /** Deleting a partner just added (before anyone links to it) gives the
      Partners rows back as they were. */
  lemma {:induction false} AddThenDeleteRestores(db: Db, f: PartnerForm, parseReal: string -> Option<real>)
    requires UserLinksResolve(db)
    requires AddPartner(db, f, parseReal).1.PartnerAdded?
    ensures var (db1, out) := AddPartner(db, f, parseReal);
      var (db2, out2) := DeletePartner(db1, out.partnerId);
      out2 == PartnerDeleted && db2.partners.rows == db.partners.rows
  {
    var (db1, out) := AddPartner(db, f, parseReal);
    var id := out.partnerId;
    assert !PartnerHasUsers(db1.users.rows, id) by {
      forall k | k in db1.users.rows ensures db1.users.rows[k].partnerId != Some(id) {
        if db.users.rows[k].partnerId.Some? {
          assert db.users.rows[k].partnerId.value in db.partners.rows;
        }
      }
    }
    var (db2, out2) := DeletePartner(db1, id);
    assert db2.partners.rows == db.partners.rows;
  }

  /** What `/partner_requests/<id>` shows. */
  datatype RequestList = UnknownPartner | PartnerRequestIds(ids: set<int>)

  /** The requests of one partner that survive the joins with Managers and
      Products; an unknown partner id is reported as not found. */
  function PartnerRequests(db: Db, partnerId: int): (r: RequestList)
    ensures r.UnknownPartner? <==> partnerId !in db.partners.rows
    ensures r.PartnerRequestIds? ==> forall k :: k in r.ids <==>
      && k in db.requests.rows
      && db.requests.rows[k].partnerId == partnerId
      && Requests.JoinsManagerAndProduct(db, db.requests.rows[k])
  {
    if partnerId !in db.partners.rows then UnknownPartner
    else PartnerRequestIds(set k | k in db.requests.rows && db.requests.rows[k].partnerId == partnerId
                                   && Requests.JoinsManagerAndProduct(db, db.requests.rows[k]))
  }

  /** A partner's own history never shows more than the manager's view of
      that partner: it is the completed part of the partner's request list. */
  lemma HistoryWithinPartnerRequests(db: Db, u: User)
    requires Requests.MyRequests(db, u).Listed?
    requires u.partnerId.value in db.partners.rows
    ensures PartnerRequests(db, u.partnerId.value).PartnerRequestIds?
    ensures Requests.MyRequests(db, u).ids
         == set k | k in PartnerRequests(db, u.partnerId.value).ids && db.requests.rows[k].status == Requests.Completed
  {
  }
}
