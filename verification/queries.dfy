/** The shape every list page gives its SELECT: a base query ending in
    `WHERE 1=1`, one `AND <clause>` with one parameter for each non-empty
    filter in the query string, and an ORDER BY picked from a fixed chain of
    `if sort == ...: elif ...` keys. Only the clause and parameter lists are
    modelled; the store evaluates them. */
module Queries {
  import opened Common

  /** A bound parameter: a text pattern or a number. */
  datatype Param = Text(text: string) | Number(number: real)

  /** One optional filter: the query-string value that switches it on, and
      the clause and parameter it adds when that value is non-empty. */
  datatype Filter = Filter(value: string, clause: string, param: Param)

  /** The parts of the SELECT the handler assembles. */
  datatype Query = Query(clauses: seq<string>, params: seq<Param>, orderBy: Option<string>)

  /** `f"%{s}%"`: the ILIKE pattern for "contains s". */
  function Like(s: string): (r: string)
    ensures |r| == |s| + 2
    ensures r[0] == '%' && r[|r| - 1] == '%'
    ensures r[1..|r| - 1] == s
  {
    "%" + s + "%"
  }

  /** The handler's sequence of `if value: query += clause;
      params.append(param)` statements, applied in order. */
  function AddFilters(fs: seq<Filter>): (r: (seq<string>, seq<Param>))
    ensures |r.0| == |r.1| <= |fs|
    decreases |fs|
  {
    if fs == [] then ([], [])
    else
      var (clauses, params) := AddFilters(fs[..|fs| - 1]);
      var f := fs[|fs| - 1];
      if f.value != "" then (clauses + [f.clause], params + [f.param]) else (clauses, params)
  }

  /** The filters that are switched on, in their original order. */
  function Active(fs: seq<Filter>): (r: seq<Filter>)
    ensures |r| <= |fs|
    ensures forall i :: 0 <= i < |r| ==> r[i] in fs && r[i].value != ""
    decreases |fs|
  {
    if fs == [] then []
    else (if fs[0].value != "" then [fs[0]] else []) + Active(fs[1..])
  }

  function Clauses(fs: seq<Filter>): (r: seq<string>)
    ensures |r| == |fs|
    ensures forall i :: 0 <= i < |fs| ==> r[i] == fs[i].clause
  {
    seq(|fs|, i requires 0 <= i < |fs| => fs[i].clause)
  }

  function Params(fs: seq<Filter>): (r: seq<Param>)
    ensures |r| == |fs|
    ensures forall i :: 0 <= i < |fs| ==> r[i] == fs[i].param
  {
    seq(|fs|, i requires 0 <= i < |fs| => fs[i].param)
  }

  lemma {:induction false} ActiveSnoc(fs: seq<Filter>, f: Filter)
    ensures Active(fs + [f]) == Active(fs) + (if f.value != "" then [f] else [])
    decreases |fs|
  {
    if fs == [] {
      assert [f][1..] == [];
    } else {
      assert (fs + [f])[1..] == fs[1..] + [f];
      ActiveSnoc(fs[1..], f);
    }
  }

  /** The clause list is exactly the clauses of the switched-on filters and
      the parameter list their parameters, both in filter order: each
      non-empty filter adds one clause and one parameter, an empty one adds
      nothing, and the i-th parameter belongs to the i-th clause. */
  lemma {:induction false} FiltersAddActiveClauses(fs: seq<Filter>)
    ensures AddFilters(fs).0 == Clauses(Active(fs))
    ensures AddFilters(fs).1 == Params(Active(fs))
    decreases |fs|
  {
    if fs != [] {
      var init := fs[..|fs| - 1];
      var f := fs[|fs| - 1];
      assert fs == init + [f];
      FiltersAddActiveClauses(init);
      ActiveSnoc(init, f);
    }
  }

  /** The `if sort == k1: ... elif sort == k2: ...` chain: the ORDER BY of
      the first key equal to sort, or none when no key is. */
  function SortClause(sort: string, chain: seq<(string, string)>): (r: Option<string>)
    ensures r.None? <==> forall i :: 0 <= i < |chain| ==> chain[i].0 != sort
    ensures r.Some? ==> exists i :: 0 <= i < |chain| && chain[i] == (sort, r.value)
                          && forall j :: 0 <= j < i ==> chain[j].0 != sort
    decreases |chain|
  {
    if chain == [] then None
    else if chain[0].0 == sort then Some(chain[0].1)
    else
      var r := SortClause(sort, chain[1..]);
      if r.Some? then
        assert exists i :: 0 <= i < |chain| && chain[i] == (sort, r.value) && forall j :: 0 <= j < i ==> chain[j].0 != sort by {
          var i :| 0 <= i < |chain[1..]| && chain[1..][i] == (sort, r.value) && forall j :: 0 <= j < i ==> chain[1..][j].0 != sort;
          assert chain[i + 1] == (sort, r.value);
          forall j | 0 <= j < i + 1 ensures chain[j].0 != sort {
            if j > 0 { assert chain[j] == chain[1..][j - 1]; }
          }
        }
        r
      else
        r
  }

  /** Some key of the chain equals sort. */
  predicate Recognised(sort: string, chain: seq<(string, string)>) {
    exists i :: 0 <= i < |chain| && chain[i].0 == sort
  }

  /** The whole query: the filters in order, then the sort chain. */
  function Build(fs: seq<Filter>, sort: string, chain: seq<(string, string)>): (q: Query)
    ensures q.clauses == Clauses(Active(fs)) && q.params == Params(Active(fs))
    ensures q.orderBy.Some? <==> Recognised(sort, chain)
  {
    FiltersAddActiveClauses(fs);
    var (clauses, params) := AddFilters(fs);
    Query(clauses, params, SortClause(sort, chain))
  }

  /** The query of a page with one filter: one clause and one parameter
      when its value is non-empty, none otherwise. */
  lemma OneFilterQuery(a: Filter, sort: string, chain: seq<(string, string)>)
    ensures Build([a], sort, chain).clauses == (if a.value != "" then [a.clause] else [])
    ensures Build([a], sort, chain).params == (if a.value != "" then [a.param] else [])
  {
    assert [a][1..] == [];
  }

  /** The query of a page with two filters: one entry per non-empty value,
      the first filter's before the second's, clauses and parameters in step. */
  lemma TwoFilterQuery(a: Filter, b: Filter, sort: string, chain: seq<(string, string)>)
    ensures Build([a, b], sort, chain).clauses
         == (if a.value != "" then [a.clause] else []) + (if b.value != "" then [b.clause] else [])
    ensures Build([a, b], sort, chain).params
         == (if a.value != "" then [a.param] else []) + (if b.value != "" then [b.param] else [])
  {
    assert [a, b][1..] == [b];
    assert [b][1..] == [];
    assert Active([b]) == (if b.value != "" then [b] else []) + Active([]);
    assert Active([a, b]) == (if a.value != "" then [a] else []) + Active([b]);
    var act := Active([a, b]);
    assert act == (if a.value != "" then [a] else []) + (if b.value != "" then [b] else []);
  }
}
