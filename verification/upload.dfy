/** The partner CSV import (`/upload`): file and header checks, per-row
    normalisation, the ordered validation chain, and the accounting of
    inserted rows and row errors. */
module Upload {
  import opened Common
  import opened Text
  import opened Patterns
  import opened Schema

  /** A record as `csv.DictReader` yields it: each header name maps to its
      cell, and a row shorter than the header yields None for the cells it
      lacks. */
  type CsvRow = map<string, Option<string>>

  /** An uploaded file after decoding: its name, the header row (None for an
      empty file) and the records after the header. */
  datatype CsvFile = CsvFile(filename: string, header: Option<seq<string>>, records: seq<CsvRow>)

  const RequiredColumns: set<string> :=
    {"Name", "LegalAddress", "INN", "DirectorFullName", "Phone", "Email", "Rating"}

  /** Records are numbered from 2: line 1 holds the header. */
  const FirstRowNumber := 2

  /** The seven fields of a record after normalisation. */
  datatype Fields = Fields(
    name: string,
    legalAddress: Option<string>,
    inn: Option<string>,
    director: Option<string>,
    phone: Option<string>,
    email: Option<string>,
    rating: Option<string>)

  /** Why a record was not imported. */
  datatype Rejection =
    | NameRequired
    | InnRequired
    | InnFormat
    | PhoneFormat
    | EmailFormat
    | RatingOutOfRange
    | RatingNotNumber
    | AlreadyExists(name: string, inn: Option<string>)

  /** One entry of the error list: the record's row number and the reason. */
  datatype RowError = RowError(row: int, reason: Rejection)

  predicate HasCell(row: CsvRow, column: string) {
    column in row && row[column].Some?
  }

  /** Every required column holds a string (the row was not short). */
  predicate Complete(row: CsvRow) {
    && HasCell(row, "Name") && HasCell(row, "LegalAddress") && HasCell(row, "INN")
    && HasCell(row, "DirectorFullName") && HasCell(row, "Phone") && HasCell(row, "Email")
    && HasCell(row, "Rating")
  }

  /** `cell.strip() or None`. */
  function Optional(cell: string): (r: Option<string>)
    ensures r.None? <==> Strip(cell) == ""
    ensures r.Some? ==> r.value == Strip(cell)
  {
    NoneIfEmpty(Strip(cell))
  }

  /** An optional field after normalisation: absent, or non-empty and trimmed. */
  predicate Clean(o: Option<string>) {
    o.None? || (o.value != "" && Trimmed(o.value))
  }

  predicate Normalized(f: Fields) {
    && Trimmed(f.name) && Clean(f.legalAddress) && Clean(f.inn) && Clean(f.director)
    && Clean(f.phone) && Clean(f.email) && Clean(f.rating)
  }

  /** An optional field read from `cell`: None iff the cell is blank once
      stripped, and otherwise the stripped cell. */
  predicate StrippedOrNone(o: Option<string>, cell: string) {
    (o.None? <==> Strip(cell) == "") && (o.Some? ==> o.value == Strip(cell))
  }

  /** Strips every field and turns empty optional fields into None. A short
      row makes `.strip()` fail on a missing cell, which aborts the upload. */
  function Normalize(row: CsvRow): (r: Option<Fields>)
    ensures r.Some? <==> Complete(row)
    ensures r.Some? ==> Normalized(r.value)
    ensures r.Some? ==> r.value.name == Strip(row["Name"].value)
    ensures r.Some? ==> && StrippedOrNone(r.value.legalAddress, row["LegalAddress"].value)
                        && StrippedOrNone(r.value.inn, row["INN"].value)
                        && StrippedOrNone(r.value.director, row["DirectorFullName"].value)
                        && StrippedOrNone(r.value.phone, row["Phone"].value)
                        && StrippedOrNone(r.value.email, row["Email"].value)
                        && StrippedOrNone(r.value.rating, row["Rating"].value)
  {
    if !Complete(row) then None
    else Some(Fields(
      Strip(row["Name"].value),
      Optional(row["LegalAddress"].value),
      Optional(row["INN"].value),
      Optional(row["DirectorFullName"].value),
      Optional(row["Phone"].value),
      Optional(row["Email"].value),
      Optional(row["Rating"].value)))
  }

  /** A record written out from normalised fields, an absent field as an
      empty cell. */
  function Cells(f: Fields): CsvRow {
    map["Name" := Some(f.name), "LegalAddress" := Some(f.legalAddress.GetOr("")), "INN" := Some(f.inn.GetOr("")),
        "DirectorFullName" := Some(f.director.GetOr("")), "Phone" := Some(f.phone.GetOr("")),
        "Email" := Some(f.email.GetOr("")), "Rating" := Some(f.rating.GetOr(""))]
  }

  /** Normalisation loses nothing a normalised record carries: writing the
      fields out as cells and reading them back gives the same fields. */
  lemma NormalizeRecoversFields(f: Fields)
    requires Normalized(f)
    ensures Normalize(Cells(f)) == Some(f)
  {
    var row := Cells(f);
    assert row["Name"] == Some(f.name);
    assert row["LegalAddress"] == Some(f.legalAddress.GetOr(""));
    assert row["INN"] == Some(f.inn.GetOr(""));
    assert row["DirectorFullName"] == Some(f.director.GetOr(""));
    assert row["Phone"] == Some(f.phone.GetOr(""));
    assert row["Email"] == Some(f.email.GetOr(""));
    assert row["Rating"] == Some(f.rating.GetOr(""));
    TrimmedIsFixed(f.name);
    OptionalRecovers(f.legalAddress);
    OptionalRecovers(f.inn);
    OptionalRecovers(f.director);
    OptionalRecovers(f.phone);
    OptionalRecovers(f.email);
    OptionalRecovers(f.rating);
  }

  /** One clean optional field survives being written out and read back. */
  lemma OptionalRecovers(o: Option<string>)
    requires Clean(o)
    ensures Optional(o.GetOr("")) == o
  {
    if o.Some? {
      TrimmedIsFixed(o.value);
    } else {
      TrimmedIsFixed("");
    }
  }

  /** A partner row the validation chain lets through. */
  predicate Acceptable(p: Partner) {
    && p.name != ""
    && p.inn.Some? && InnMatches(p.inn.value)
    && (p.phone.None? || PhoneMatches(p.phone.value))
    && (p.email.None? || EmailMatches(p.email.value))
    && (p.rating.None? || 0.0 <= p.rating.value <= 5.0)
  }

  /** `float(rating)` followed by the range test; an absent rating stays None. */
  function RatingValue(rating: Option<string>, parse: string -> Option<real>): (r: Result<Option<real>, Rejection>)
    ensures rating.None? ==> r == Ok(None)
    ensures rating.Some? ==> (r == Err(RatingNotNumber) <==> parse(rating.value).None?)
    ensures rating.Some? && parse(rating.value).Some? ==>
      && (r.Ok? <==> 0.0 <= parse(rating.value).value <= 5.0)
      && (r.Ok? ==> r.value == parse(rating.value))
      && (r.Err? ==> r.error == RatingOutOfRange)
    ensures r.Ok? && r.value.Some? ==> 0.0 <= r.value.value <= 5.0
  {
    if rating.None? then Ok(None)
    else match parse(rating.value)
      case None => Err(RatingNotNumber)
      case Some(v) => if 0.0 <= v <= 5.0 then Ok(Some(v)) else Err(RatingOutOfRange)
  }

  /** The validation chain in the handler's order; the first failing check
      names the rejection, and a record that passes becomes a Partners row. */
  function Validate(f: Fields, parse: string -> Option<real>): (r: Result<Partner, Rejection>)
    ensures r.Ok? ==> (r.value.name == f.name && r.value.inn == f.inn && r.value.phone == f.phone
      && r.value.email == f.email && r.value.legalAddress == f.legalAddress && r.value.director == f.director)
    ensures r.Ok? ==> r.value.rating == (if f.rating.None? then None else parse(f.rating.value))
  {
    if f.name == "" then Err(NameRequired)
    else if f.inn.None? then Err(InnRequired)
    else if !InnRegex(f.inn.value) then Err(InnFormat)
    else if f.phone.Some? && !PhoneRegex(f.phone.value) then Err(PhoneFormat)
    else if f.email.Some? && !EmailRegex(f.email.value) then Err(EmailFormat)
    else match RatingValue(f.rating, parse)
      case Err(e) => Err(e)
      case Ok(rating) => Ok(Partner(f.name, f.legalAddress, f.inn, f.director, f.phone, f.email, rating))
  }

  /** A uniqueness conflict is never the chain's own verdict: only the store
      reports one. */
  lemma ChainNeverReportsConflict(fields: seq<Fields>, parse: string -> Option<real>)
    ensures var vs := Verdicts(fields, parse);
      forall i :: 0 <= i < |vs| && vs[i].Err? ==> !vs[i].error.AlreadyExists?
  {
  }

  /** On normalised fields the checks amount to the patterns themselves, so
      whatever the chain lets through is an acceptable partner row. */
  lemma ValidatedRowsAcceptable(f: Fields, parse: string -> Option<real>)
    requires Normalized(f)
    ensures Validate(f, parse).Ok? ==> Acceptable(Validate(f, parse).value)
  {
    if Validate(f, parse).Ok? {
      RegexOnTrimmed(f.inn.value);
      if f.phone.Some? { RegexOnTrimmed(f.phone.value); }
      if f.email.Some? { RegexOnTrimmed(f.email.value); }
    }
  }

  // Each check of the chain on its own, independent of the others.

  function NameCheck(f: Fields): Option<Rejection> {
    if f.name == "" then Some(NameRequired) else None
  }

  function InnPresentCheck(f: Fields): Option<Rejection> {
    if f.inn.None? then Some(InnRequired) else None
  }

  function InnFormatCheck(f: Fields): Option<Rejection> {
    if f.inn.Some? && !InnRegex(f.inn.value) then Some(InnFormat) else None
  }

  function PhoneCheck(f: Fields): Option<Rejection> {
    if f.phone.Some? && !PhoneRegex(f.phone.value) then Some(PhoneFormat) else None
  }

  function EmailCheck(f: Fields): Option<Rejection> {
    if f.email.Some? && !EmailRegex(f.email.value) then Some(EmailFormat) else None
  }

  function RatingCheck(f: Fields, parse: string -> Option<real>): Option<Rejection> {
    match RatingValue(f.rating, parse)
    case Err(e) => Some(e)
    case Ok(_) => None
  }

  /** The six checks in the order the handler runs them. */
  function Checks(f: Fields, parse: string -> Option<real>): seq<Option<Rejection>> {
    [NameCheck(f), InnPresentCheck(f), InnFormatCheck(f), PhoneCheck(f), EmailCheck(f), RatingCheck(f, parse)]
  }

  /** The first failure of a list of checks. */
  function FirstFailure(checks: seq<Option<Rejection>>): (r: Option<Rejection>)
    ensures r.None? <==> forall i :: 0 <= i < |checks| ==> checks[i].None?
    ensures r.Some? ==> exists i :: 0 <= i < |checks| && checks[i] == r && NoneBefore(checks, i)
  {
    if checks == [] then None
    else if checks[0].Some? then
      assert NoneBefore(checks, 0);
      checks[0]
    else
      assert forall i :: 0 <= i < |checks[1..]| ==> checks[1..][i] == checks[i + 1];
      assert forall i :: 0 <= i < |checks[1..]| && NoneBefore(checks[1..], i) ==> NoneBefore(checks, i + 1);
      FirstFailure(checks[1..])
  }

  predicate NoneBefore(checks: seq<Option<Rejection>>, i: int) {
    forall j :: 0 <= j < i && j < |checks| ==> checks[j].None?
  }

  /** The chain rejects a record exactly when one of the six checks fails,
      and it reports the first failing one. */
  lemma ValidateReportsFirstFailure(f: Fields, parse: string -> Option<real>)
    ensures Validate(f, parse).Err? <==> FirstFailure(Checks(f, parse)).Some?
    ensures Validate(f, parse).Err? ==> Validate(f, parse).error == FirstFailure(Checks(f, parse)).value
  {
    var cs := Checks(f, parse);
    assert cs[0] == NameCheck(f) && cs[1] == InnPresentCheck(f) && cs[2] == InnFormatCheck(f);
    assert cs[3] == PhoneCheck(f) && cs[4] == EmailCheck(f) && cs[5] == RatingCheck(f, parse);
    assert cs[1..][1..][1..][1..][1..][1..] == [];
  }

  /** Normalises every record, or fails if one is short. The handler
      interleaves this with the inserts, but a short record aborts the
      upload before any commit, so the outcome is the same. */
  function NormalizeAll(records: seq<CsvRow>): (r: Option<seq<Fields>>)
    ensures r.None? <==> exists i :: 0 <= i < |records| && !Complete(records[i])
    ensures r.Some? ==> |r.value| == |records|
    ensures r.Some? ==> forall i :: 0 <= i < |r.value| ==> Normalized(r.value[i])
  {
    if forall i :: 0 <= i < |records| ==> Complete(records[i]) then
      Some(seq(|records|, i requires 0 <= i < |records| => Normalize(records[i]).value))
    else
      None
  }

  /** The file is normalised record by record, in file order. */
  lemma NormalizeAllInOrder(records: seq<CsvRow>, i: int)
    requires 0 <= i < |records| && NormalizeAll(records).Some?
    ensures Normalize(records[i]) == Some(NormalizeAll(records).value[i])
  {
  }

  /** The verdict of the validation chain on each record, in file order. */
  function Verdicts(fields: seq<Fields>, parse: string -> Option<real>): (r: seq<Result<Partner, Rejection>>)
    ensures |r| == |fields|
    ensures forall i :: 0 <= i < |fields| ==> r[i] == Validate(fields[i], parse)
  {
    seq(|fields|, i requires 0 <= i < |fields| => Validate(fields[i], parse))
  }

  /** On normalised records every verdict the chain accepts is acceptable. */
  lemma VerdictsAcceptable(fields: seq<Fields>, parse: string -> Option<real>)
    requires forall i :: 0 <= i < |fields| ==> Normalized(fields[i])
    ensures AcceptedAcceptable(Verdicts(fields, parse))
  {
    var vs := Verdicts(fields, parse);
    forall i | 0 <= i < |vs| && vs[i].Ok? ensures Acceptable(vs[i].value) {
      ValidatedRowsAcceptable(fields[i], parse);
    }
  }

  /** Acts on one verdict: a rejected record is reported under its row
      number; an accepted one is inserted unless the UNIQUE constraints on
      Name and INN refuse it, in which case it is reported and skipped. */
  function Admit(v: Result<Partner, Rejection>, rowNum: int, t: Table<Partner>): (r: (Table<Partner>, Result<int, RowError>))
    ensures v.Err? ==> r == (t, Err(RowError(rowNum, v.error)))
    ensures r.1.Err? ==> r.0 == t && r.1.error.row == rowNum
    ensures r.1.Ok? <==> v.Ok? && !NameOrInnTaken(t.rows, v.value)
    ensures r.1.Ok? ==> r.1.value !in t.rows && r.0.rows == t.rows[r.1.value := v.value]
  {
    match v
    case Err(e) => (t, Err(RowError(rowNum, e)))
    case Ok(p) =>
      if NameOrInnTaken(t.rows, p) then (t, Err(RowError(rowNum, AlreadyExists(p.name, p.inn))))
      else
        var (t', id) := Insert(t, p);
        (t', Ok(id))
  }

  /** The running table, the number of records inserted, and the errors in order. */
  datatype Tally = Tally(partners: Table<Partner>, inserted: nat, errors: seq<RowError>)

  /** The import loop (`for row_num, row in enumerate(csv_reader, start=2)`)
      over the verdicts, each record's insert isolated from the others:
      every record yields either one insert or one error. */
  function AdmitAll(vs: seq<Result<Partner, Rejection>>, rowNum: int, t: Table<Partner>): (r: Tally)
    ensures r.inserted + |r.errors| == |vs|
    ensures |r.partners.rows| == |t.rows| + r.inserted
    ensures forall i :: 0 <= i < |vs| && vs[i].Err? ==> RowError(rowNum + i, vs[i].error) in r.errors
    decreases |vs|
  {
    if vs == [] then Tally(t, 0, [])
    else
      var (t1, step) := Admit(vs[0], rowNum, t);
      var rest := AdmitAll(vs[1..], rowNum + 1, t1);
      assert forall i :: 1 <= i < |vs| ==> vs[1..][i - 1] == vs[i];
      if step.Ok? then Tally(rest.partners, rest.inserted + 1, rest.errors)
      else Tally(rest.partners, rest.inserted, [step.error] + rest.errors)
  }

  /** Every row of `before` is still in `after`, unchanged. */
  predicate Extends(before: Table<Partner>, after: Table<Partner>) {
    forall k :: k in before.rows ==> k in after.rows && after.rows[k] == before.rows[k]
  }

  /** Every row `after` holds beyond `before` passed validation. */
  predicate AddedRowsAcceptable(before: Table<Partner>, after: Table<Partner>) {
    forall k :: k in after.rows && k !in before.rows ==> Acceptable(after.rows[k])
  }

  /** Every record the chain accepted is an acceptable partner row. */
  predicate AcceptedAcceptable(vs: seq<Result<Partner, Rejection>>) {
    forall i :: 0 <= i < |vs| && vs[i].Ok? ==> Acceptable(vs[i].value)
  }

  /** Error row numbers lie in [lo, hi) and strictly increase. */
  predicate OrderedWithin(errors: seq<RowError>, lo: int, hi: int) {
    && (forall i :: 0 <= i < |errors| ==> lo <= errors[i].row < hi)
    && (forall i, j :: 0 <= i < j < |errors| ==> errors[i].row < errors[j].row)
  }

  /** Earlier rows stay as they were, and every added row was accepted by
      the chain: a rejected record never reaches the insert. */
  lemma {:induction false} AdmitAllGrowth(vs: seq<Result<Partner, Rejection>>, rowNum: int, t: Table<Partner>)
    requires AcceptedAcceptable(vs)
    ensures Extends(t, AdmitAll(vs, rowNum, t).partners)
    ensures AddedRowsAcceptable(t, AdmitAll(vs, rowNum, t).partners)
    decreases |vs|
  {
    if vs != [] {
      var (t1, step) := Admit(vs[0], rowNum, t);
      assert AcceptedAcceptable(vs[1..]) by {
        forall i | 0 <= i < |vs[1..]| && vs[1..][i].Ok? ensures Acceptable(vs[1..][i].value) {
          assert vs[1..][i] == vs[i + 1];
        }
      }
      AdmitAllGrowth(vs[1..], rowNum + 1, t1);
    }
  }

  /** An error for row `lo` ahead of errors for later rows keeps the order. */
  lemma PrependOrdered(e: RowError, errors: seq<RowError>, lo: int, hi: int)
    requires e.row == lo < hi && OrderedWithin(errors, lo + 1, hi)
    ensures OrderedWithin([e] + errors, lo, hi)
  {
  }

  /** Errors carry the row numbers of their records, in file order. */
  lemma {:induction false} AdmitAllOrdered(vs: seq<Result<Partner, Rejection>>, rowNum: int, t: Table<Partner>)
    ensures OrderedWithin(AdmitAll(vs, rowNum, t).errors, rowNum, rowNum + |vs|)
    decreases |vs|
  {
    if vs != [] {
      var a := Admit(vs[0], rowNum, t);
      var rest := AdmitAll(vs[1..], rowNum + 1, a.0).errors;
      AdmitAllOrdered(vs[1..], rowNum + 1, a.0);
      if a.1.Err? {
        PrependOrdered(a.1.error, rest, rowNum, rowNum + |vs|);
      }
    }
  }

  /** The outcome of one upload as the page reports it. */
  datatype UploadOutcome =
    | NoFile
    | NotCsv
    | BadColumns
    | Failed
    | Imported(inserted: nat, errors: seq<RowError>)

  /** `file.filename.endswith('.csv')`, case-sensitive. */
  predicate IsCsvName(filename: string) {
    EndsWith(filename, ".csv")
  }

  /** `expected_columns.issubset(csv_reader.fieldnames)`. */
  predicate HasRequiredColumns(header: seq<string>) {
    forall c :: c in RequiredColumns ==> c in header
  }

  /** The import proper, once the file and its header have been accepted:
      the working table is committed only when at least one record was
      inserted. */
  function ImportFile(records: seq<CsvRow>, t: Table<Partner>, parse: string -> Option<real>): (r: (Table<Partner>, UploadOutcome))
    ensures r.1.Failed? || r.1.Imported?
    ensures r.1.Failed? <==> exists i :: 0 <= i < |records| && !Complete(records[i])
    ensures r.1.Failed? ==> r.0 == t
    ensures r.1.Imported? ==> r.1.inserted + |r.1.errors| == |records|
  {
    match NormalizeAll(records)
    case None => (t, Failed)
    case Some(fields) => Commit(Verdicts(fields, parse), t)
  }

  /** The end of a completed import: the loop's tally is reported, and the
      working table is committed only when at least one record was inserted. */
  function Commit(vs: seq<Result<Partner, Rejection>>, t: Table<Partner>): (r: (Table<Partner>, UploadOutcome))
    ensures r.1.Imported? && r.1.inserted + |r.1.errors| == |vs|
    ensures r.1.inserted == 0 ==> r.0 == t
  {
    var tally := AdmitAll(vs, FirstRowNumber, t);
    var committed := if tally.inserted > 0 then tally.partners else t;
    (committed, Imported(tally.inserted, tally.errors))
  }

  /** A completed import grows the table by exactly the inserted count: rows
      present before are kept unchanged, and every added row passed
      validation. With nothing inserted, nothing is committed. */
  lemma ImportFileGrows(records: seq<CsvRow>, t: Table<Partner>, parse: string -> Option<real>)
    ensures var r := ImportFile(records, t, parse);
      r.1.Imported? ==> |r.0.rows| == |t.rows| + r.1.inserted && Extends(t, r.0) && AddedRowsAcceptable(t, r.0)
    ensures var r := ImportFile(records, t, parse);
      r.1.Imported? && r.1.inserted == 0 ==> r.0 == t
  {
    match NormalizeAll(records)
    case None =>
    case Some(fields) =>
      var vs := Verdicts(fields, parse);
      VerdictsAcceptable(fields, parse);
      AdmitAllGrowth(vs, FirstRowNumber, t);
  }

  /** The errors of a completed import carry the row numbers of their
      records, counted from 2, in file order. */
  lemma ImportFileOrdered(records: seq<CsvRow>, t: Table<Partner>, parse: string -> Option<real>)
    ensures var r := ImportFile(records, t, parse);
      r.1.Imported? ==> OrderedWithin(r.1.errors, FirstRowNumber, FirstRowNumber + |records|)
  {
    match NormalizeAll(records)
    case None =>
    case Some(fields) =>
      var vs := Verdicts(fields, parse);
      assert |vs| == |records|;
      AdmitAllOrdered(vs, FirstRowNumber, t);
  }

  /** POST /upload against the Partners table. Every exit other than a
      completed import leaves the table as it was. */
  function Run(file: Option<CsvFile>, t: Table<Partner>, parse: string -> Option<real>): (r: (Table<Partner>, UploadOutcome))
    ensures !r.1.Imported? ==> r.0 == t
    ensures r.1 == NoFile <==> file.None?
    ensures r.1 == NotCsv <==> file.Some? && !IsCsvName(file.value.filename)
    ensures r.1 == BadColumns <==> (file.Some? && IsCsvName(file.value.filename)
      && file.value.header.Some? && !HasRequiredColumns(file.value.header.value))
    ensures r.1 == Failed ==> file.Some? && IsCsvName(file.value.filename)
    ensures r.1.Imported? ==> file.Some? && IsCsvName(file.value.filename) && file.value.header.Some?
    ensures file.Some? && IsCsvName(file.value.filename) && file.value.header.Some? && HasRequiredColumns(file.value.header.value)
      ==> r == ImportFile(file.value.records, t, parse)
  {
    if file.None? then (t, NoFile)
    else if !IsCsvName(file.value.filename) then (t, NotCsv)
    else if file.value.header.None? then (t, Failed)
    else if !HasRequiredColumns(file.value.header.value) then (t, BadColumns)
    else ImportFile(file.value.records, t, parse)
  }

  /** An empty file has no header row: the subset test fails on None and the
      upload is reported as a processing error. */
  lemma EmptyFileFails(name: string, t: Table<Partner>, parse: string -> Option<real>)
    requires IsCsvName(name)
    ensures Run(Some(CsvFile(name, None, [])), t, parse) == (t, Failed)
  {
  }

  // The import as written. `except psycopg2.IntegrityError` names a module
  // upload.py never imports, so the first INSERT the store refuses raises
  // NameError while its handler is being chosen; the outer `except` then
  // reports a processing error and nothing is committed.

  /** AdmitAll as the handler is written: the first accepted record the
      UNIQUE constraints refuse aborts the upload (None). */
  function AdmitAllAsWritten(vs: seq<Result<Partner, Rejection>>, rowNum: int, t: Table<Partner>): (r: Option<Tally>)
    ensures r.Some? ==> r.value.inserted + |r.value.errors| == |vs|
    ensures r.Some? ==> |r.value.partners.rows| == |t.rows| + r.value.inserted
    decreases |vs|
  {
    if vs == [] then Some(Tally(t, 0, []))
    else if vs[0].Ok? && NameOrInnTaken(t.rows, vs[0].value) then None
    else
      var (t1, step) := Admit(vs[0], rowNum, t);
      match AdmitAllAsWritten(vs[1..], rowNum + 1, t1)
      case None => None
      case Some(rest) =>
        if step.Ok? then Some(Tally(rest.partners, rest.inserted + 1, rest.errors))
        else Some(Tally(rest.partners, rest.inserted, [step.error] + rest.errors))
  }

  /** Where the import as written completes, it agrees with the intended one. */
  lemma {:induction false} AsWrittenAgreesWhenItCompletes(vs: seq<Result<Partner, Rejection>>, rowNum: int, t: Table<Partner>)
    ensures AdmitAllAsWritten(vs, rowNum, t).Some? ==> AdmitAllAsWritten(vs, rowNum, t).value == AdmitAll(vs, rowNum, t)
    decreases |vs|
  {
    if vs != [] {
      var (t1, step) := Admit(vs[0], rowNum, t);
      AsWrittenAgreesWhenItCompletes(vs[1..], rowNum + 1, t1);
    }
  }

  /** The import as written aborts exactly when the intended one reports a
      record the UNIQUE constraints refused; the chain's own rejections
      never abort it. */
  lemma {:induction false} AsWrittenFailsIffRefused(vs: seq<Result<Partner, Rejection>>, rowNum: int, t: Table<Partner>)
    requires forall i :: 0 <= i < |vs| && vs[i].Err? ==> !vs[i].error.AlreadyExists?
    ensures AdmitAllAsWritten(vs, rowNum, t).None? <==> exists e :: e in AdmitAll(vs, rowNum, t).errors && e.reason.AlreadyExists?
    decreases |vs|
  {
    if vs != [] {
      var (t1, step) := Admit(vs[0], rowNum, t);
      assert forall i :: 0 <= i < |vs[1..]| ==> vs[1..][i] == vs[i + 1];
      AsWrittenFailsIffRefused(vs[1..], rowNum + 1, t1);
      var rest := AdmitAll(vs[1..], rowNum + 1, t1);
      if step.Err? {
        var all := [step.error] + rest.errors;
        assert AdmitAll(vs, rowNum, t).errors == all;
        assert (exists e :: e in all && e.reason.AlreadyExists?)
           <==> step.error.reason.AlreadyExists? || exists e :: e in rest.errors && e.reason.AlreadyExists?;
      }
    }
  }

  /** The file import as the handler is written: a record the UNIQUE
      constraints refuse fails the whole upload, like a short record, with
      nothing committed. Where it completes, it is the corrected import. */
  function ImportFileAsWritten(records: seq<CsvRow>, t: Table<Partner>, parse: string -> Option<real>): (r: (Table<Partner>, UploadOutcome))
    ensures r.1.Failed? || r.1.Imported?
    ensures r.1.Failed? ==> r.0 == t
  {
    match NormalizeAll(records)
    case None => (t, Failed)
    case Some(fields) => CommitAsWritten(Verdicts(fields, parse), t)
  }

  /** The end of the import as written: an aborted loop fails the upload
      with nothing committed; a completed one is reported and committed
      like the corrected import's tally. */
  function CommitAsWritten(vs: seq<Result<Partner, Rejection>>, t: Table<Partner>): (r: (Table<Partner>, UploadOutcome))
    ensures r.1.Failed? <==> AdmitAllAsWritten(vs, FirstRowNumber, t).None?
    ensures r.1.Failed? ==> r.0 == t
    ensures r.1.Imported? ==> r.1.inserted + |r.1.errors| == |vs|
  {
    match AdmitAllAsWritten(vs, FirstRowNumber, t)
    case None => (t, Failed)
    case Some(tally) =>
      var committed := if tally.inserted > 0 then tally.partners else t;
      (committed, Imported(tally.inserted, tally.errors))
  }

  /** The import as written fails whenever the corrected one does (a short
      record), and where it completes it is the corrected import exactly. */
  lemma AsWrittenImportAgrees(records: seq<CsvRow>, t: Table<Partner>, parse: string -> Option<real>)
    ensures ImportFile(records, t, parse).1.Failed? ==> ImportFileAsWritten(records, t, parse).1.Failed?
    ensures ImportFileAsWritten(records, t, parse).1.Imported? ==> ImportFileAsWritten(records, t, parse) == ImportFile(records, t, parse)
  {
    match NormalizeAll(records)
    case None =>
    case Some(fields) =>
      AsWrittenAgreesWhenItCompletes(Verdicts(fields, parse), FirstRowNumber, t);
  }

  /** The import as written fails exactly when the corrected import fails
      (a short record) or reports a record the UNIQUE constraints refused. */
  lemma ImportAsWrittenFailsIff(records: seq<CsvRow>, t: Table<Partner>, parse: string -> Option<real>)
    ensures var intended := ImportFile(records, t, parse).1;
      ImportFileAsWritten(records, t, parse).1.Failed?
      <==> intended.Failed? || (intended.Imported? && exists e :: e in intended.errors && e.reason.AlreadyExists?)
  {
    match NormalizeAll(records)
    case None =>
    case Some(fields) =>
      var vs := Verdicts(fields, parse);
      ChainNeverReportsConflict(fields, parse);
      AsWrittenFailsIffRefused(vs, FirstRowNumber, t);
      assert ImportFile(records, t, parse).1.errors == AdmitAll(vs, FirstRowNumber, t).errors;
  }

  /** A file carrying one accepted record twice: the intended import inserts
      it once and reports the repeat under row 3, while the import as
      written aborts and loses the first insert as well. */
  lemma DuplicateRecordAbortsImport(p: Partner)
    ensures AdmitAll([Ok(p), Ok(p)], FirstRowNumber, RawTable(map[], 0)).inserted == 1
    ensures AdmitAll([Ok(p), Ok(p)], FirstRowNumber, RawTable(map[], 0)).errors == [RowError(3, AlreadyExists(p.name, p.inn))]
    ensures AdmitAllAsWritten([Ok(p), Ok(p)], FirstRowNumber, RawTable(map[], 0)).None?
  {
    var vs: seq<Result<Partner, Rejection>> := [Ok(p), Ok(p)];
    var t0: Table<Partner> := RawTable(map[], 0);
    var (t1, id) := Insert(t0, p);
    assert NameOrInnTaken(t1.rows, p) by { assert id in t1.rows; }
    assert vs[1..] == [Ok(p)];
    assert vs[1..][1..] == [];
  }
  // With the import added, the handler still would not isolate records:
  // `conn.rollback()` ends the whole transaction, discarding every record
  // inserted earlier in the same upload, while `inserted` keeps counting them.

  /** AdmitAll with `psycopg2` imported, as the handler would then behave:
      a refused record rolls the working table back to `start`, the table
      as it was when the upload began. */
  function AdmitAllWithRollback(vs: seq<Result<Partner, Rejection>>, rowNum: int, start: Table<Partner>, t: Table<Partner>): (r: Tally)
    ensures r.inserted + |r.errors| == |vs|
    decreases |vs|
  {
    if vs == [] then Tally(t, 0, [])
    else
      var (t1, step) := Admit(vs[0], rowNum, t);
      var conflict := vs[0].Ok? && step.Err?;
      var rest := AdmitAllWithRollback(vs[1..], rowNum + 1, start, if conflict then start else t1);
      if step.Ok? then Tally(rest.partners, rest.inserted + 1, rest.errors)
      else Tally(rest.partners, rest.inserted, [step.error] + rest.errors)
  }

  /** The same duplicated record under the rollback: one insert is counted
      and announced, yet the table that would be committed holds nothing
      new, whereas the intended import keeps the count and the table in step. */
  lemma RollbackLosesCountedInsert(p: Partner)
    ensures AdmitAllWithRollback([Ok(p), Ok(p)], FirstRowNumber, RawTable(map[], 0), RawTable(map[], 0)).inserted == 1
    ensures AdmitAllWithRollback([Ok(p), Ok(p)], FirstRowNumber, RawTable(map[], 0), RawTable(map[], 0)).partners.rows == map[]
    ensures |AdmitAll([Ok(p), Ok(p)], FirstRowNumber, RawTable(map[], 0)).partners.rows| == 1
  {
    var vs: seq<Result<Partner, Rejection>> := [Ok(p), Ok(p)];
    var t0: Table<Partner> := RawTable(map[], 0);
    var (t1, id) := Insert(t0, p);
    assert NameOrInnTaken(t1.rows, p) by { assert id in t1.rows; }
    assert vs[1..] == [Ok(p)];
    assert vs[1..][1..] == [];
    assert Admit(Ok(p), FirstRowNumber + 1, t1).1.Err?;
    assert AdmitAllWithRollback([Ok(p)], FirstRowNumber + 1, t0, t1).partners == t0;
  }
}
