# master-pol: a Dafny model of the partner and sales back office

master-pol is a Flask application over PostgreSQL. A manufacturer uses it to manage:

- sales partners;
- products and their material composition;
- material supplies;
- partners' sales requests (orders).

Access is by role: `manager`, `analyst` or `partner`.

This project models the rules the route handlers apply:

- the login and role gate;
- the partner CSV import, with its validation chain and row accounting;
- supply recording, with its relative stock increment;
- the price floor on requests;
- the referential guards on deletes;
- update-only-if-present edits;
- the list pages' query builders;
- account creation, sign-in and sign-out.

The store is immutable data. Each table is an id-keyed map with a serial counter (`Common.Table`). A handler is a pure function from the store and the submitted form to a new store and an outcome. Every outcome other than a committed change returns the store unchanged, which models the handler's rollback.

Several things the handlers take from outside the store become function parameters:

- Python's `float()` and `int()`: partial functions `string -> Option<_>`.
- bcrypt: `hash` and `matches`.
- the stored functions `fn_GetPartnerDiscountNew` and `fn_CalcRequiredMaterial`.
- the clock: `now`.
- a failing write: `writeFails`.

Modules follow the repository's files:

- `Access` models `models.py` and the inline role tests.
- `Text` and `Patterns` model `str.strip`, `\d`/`\w` and the three regular expressions.
- `Upload`, `Supplies`, `Requests`, `Partners`, `Products`, `Calc`, `Users` and `Auth` each model the file of the same name.
- `Queries` is the query-builder shape the four list pages share.
- `App` dispatches every state-changing route: each guarded one behind its gate, and self-registration (POST /register, auth.py:39-78), which has none.

Where the intended behaviour and the code disagree, the model follows the code, with one exception (the CSV import, below):

- The INN pattern `^\d{10,12}$` accepts 11 digits, although the error message (upload.py:61) says "10 or 12" (`Patterns.InnMatches`).
- `/products` admits managers and partners but not analysts.
- Adding, editing and deleting composition rows is for managers only.
- Per-row isolation of uniqueness conflicts in the CSV import is intended, but the code does not deliver it. The model carries both: `Upload.ImportFileAsWritten` is the import as written, and `Upload.ImportFile`, which `Upload.Run` and `App.Dispatch` use, is the corrected one. See Findings.

## Model

| member | source | states |
|---|---|---|
| Access.RoleRequired | models.py:18-20 | The decorator refuses exactly when the caller is anonymous or the caller's role is not among the listed roles; it never redirects to login. |
| Access.Guard | models.py:17-21 | On denial the state comes back unchanged with no reply; on allow the handler's own successor state and reply are passed through unchanged. |
| Access.DeniedHandlerNeverRuns | models.py:18-21 | A denied call's outcome does not depend on the handler at all (any two handlers give the same result); an allowed call returns the handler's result. |
| Access.InlineCheckIsAuthorize | requests.py:13-15 | The handlers' inline `role not in ...: abort(403)` test after `login_required` decides exactly as `login_required` + `role_required`: allow iff signed in with a listed role, login redirect iff anonymous. |
| Access.Gate | products.py:14-16 | Every route's gate, whichever style its handler uses, is the stacked login and role check over that route's role list. |
| Access.PartnerRoleReach | requests.py:75-77 | The partner role reaches the product list, its own history and the calculation page, and no other route. |
| Access.AnalystRoleReach | partners.py:13 | The analyst role reaches only the partner list, a partner's requests and the calculation page. |
| Access.ManagerRoleReach | requests.py:75-77 | The manager role reaches every route except the partner's own history. |
| Access.ManagerPassesEveryGate | models.py:17-21 | A signed-in manager passes the gate of a route iff it is not the partner's own history. |
| Access.LoggedOutCallerIsSentToLogin | auth.py:91-95 | After `logout_user` (`Access.Logout`), every guarded route sends the caller to the login page, and the gate's decision changes iff the caller had been signed in. |
| App.NothingChangesAfterLogout | auth.py:91-95 | After signing out, every POST to a guarded route is refused and leaves the store as it was, whatever the session was before; self-registration still creates an account by the `/add_user` rule. |
| App.ComposedProductIsNotDeleted | products.py:179-195 | Once a composition pair is added for a product no request names, deleting the product is refused by the store and changes nothing. |
| Common.Blank | partners.py:77-81 | `form.get(k) or None`: an absent and an empty field both become None; any other value is kept. |
| Common.OptionalReal | partners.py:82 | `float(x) if x else None`: an absent or empty field is None; otherwise the outcome is Ok exactly when the text parses, and carries the parsed number. |
| Text.Strip | upload.py:46-52 | `strip()` returns a contiguous piece of the input with no whitespace at either end, removing only whitespace. |
| Text.StripIdempotent | upload.py:46-52 | Stripping twice equals stripping once, and a trimmed string is unchanged. |
| Patterns.PhoneMatchesIffPattern | upload.py:63-65 | The phone matcher accepts exactly ten to fifteen digits, optionally preceded by one "+". |
| Patterns.EmailMatchesIffPattern | upload.py:66-68 | The backtracking-free e-mail matcher accepts exactly the strings that split as `[\w.-]+ @ [\w.-]+ . \w+`. |
| Patterns.RegexOnTrimmed | upload.py:60-68 | On stripped input `re.match` with `$` agrees with a whole-string match for all three patterns. |
| Patterns.FinalNewlineAllowed | upload.py:60-68 | On unstripped input `$` lets one final newline through: each of the three patterns accepts s followed by a newline iff it accepts s. |
| Upload.Run | upload.py:17-34 | A missing file, a name not ending in ".csv" and a header lacking a required column are each reported as such, iff they occur; every outcome but a completed import leaves the Partners table as it was; an accepted file and header go to the import. |
| Upload.EmptyFileFails | upload.py:29-32 | A file without even a header row fails as a processing error and changes nothing. |
| Upload.ImportFile | upload.py:41-109 | The corrected import (each refused insert reported and skipped): it fails, with nothing committed, iff some record is short (a missing cell); otherwise inserts plus reported errors equal the number of records. |
| Upload.Commit | upload.py:97-99 | A completed import reports one count or error per verdict, and with nothing inserted nothing is committed. |
| Upload.ImportFileAsWritten | upload.py:81-109 | The import as written: it only ever fails or imports, and a failure commits nothing. |
| Upload.ImportAsWrittenFailsIff | upload.py:45-109 | The import as written fails exactly when a record is short or the corrected import reports a record the UNIQUE constraints refused. |
| Upload.CommitAsWritten | upload.py:90-109 | The upload as written fails, with nothing committed, exactly when the loop aborts; a completed loop reports one count or one error per record. |
| Upload.AsWrittenImportAgrees | upload.py:81-109 | The import as written fails whenever the corrected one does, and where it completes it is the corrected import exactly. |
| Upload.ImportFileGrows | upload.py:81-99 | After a completed import the table has grown by exactly the inserted count, earlier rows are unchanged, every added row passed validation, and with nothing inserted nothing is committed. |
| Upload.ImportFileOrdered | upload.py:45-77 | The errors of a completed import carry row numbers from 2 up to the last record's, strictly increasing in file order. |
| Upload.Optional | upload.py:47-52 | `cell.strip() or None`: None iff the stripped cell is empty, else the stripped cell. |
| Upload.Normalize | upload.py:45-52 | A record normalises iff no required cell is missing; then the name is the stripped cell and each of the six optional fields is None iff its stripped cell is empty, and otherwise the stripped cell. |
| Upload.NormalizeRecoversFields | upload.py:45-52 | Normalised fields written out as cells (an absent field as an empty cell) normalise back to the same fields. |
| Upload.NormalizeAll | upload.py:45-52 | The whole file normalises iff every record does, into one normalised record per record. |
| Upload.NormalizeAllInOrder | upload.py:45-52 | Each normalised record is its own record's normalisation, in file order. |
| Upload.RatingValue | upload.py:69-79 | An absent rating stays None. A present one is "not a number" iff it does not parse; a parsed one is accepted iff it lies in [0, 5], as that number, and is otherwise "out of range". |
| Upload.Validate | upload.py:54-87 | A record that passes becomes a Partners row carrying its name, INN, phone, e-mail, address and director unchanged, and its rating as the parsed number (None when absent). |
| Upload.ValidatedRowsAcceptable | upload.py:54-79 | On normalised fields whatever passes the chain has a non-empty name, a 10–12 digit INN, a matching phone and e-mail when present, and a rating in [0, 5] when present. |
| Upload.VerdictsAcceptable | upload.py:54-79 | Over a whole file of normalised records, every verdict the chain accepts is an acceptable partner row. |
| Upload.ValidateReportsFirstFailure | upload.py:54-77 | A record is rejected iff one of the six checks (Name, INN present, INN format, phone, e-mail, rating) fails, and the reason is the first failing check in that order. |
| Upload.Admit | upload.py:81-95 | A rejected record is reported under its row number with nothing written; an accepted one is inserted iff the UNIQUE constraints on name and INN allow it, under a fresh id. |
| Upload.AdmitAll | upload.py:45-95 | Every record yields exactly one insert or one error, the table grows by exactly the inserted count, and every rejected record appears in the error list with its own row number and the reason the chain gave. |
| Upload.AdmitAllGrowth | upload.py:54-89 | Rows present before the import are kept unchanged, and every added row passed validation: a rejected record never reaches the insert. |
| Upload.AdmitAllOrdered | upload.py:45-77 | Error row numbers lie between the first and last record's numbers and strictly increase. |
| Upload.AsWrittenAgreesWhenItCompletes | upload.py:81-95 | Where the import as written completes (no refused insert), it yields exactly the intended tally. |
| Upload.AdmitAllAsWritten | upload.py:81-95 | The import loop as written: where it completes, every record gave one insert or one error, and the table grew by the inserts. |
| Upload.AsWrittenFailsIffRefused | upload.py:81-95 | The loop as written aborts exactly when the intended loop reports a refused insert; the chain's own rejections never abort it. |
| Upload.ChainNeverReportsConflict | upload.py:54-79 | No check of the chain ever reports a uniqueness conflict; only the store does. |
| Upload.DuplicateRecordAbortsImport | upload.py:90-92 | A file with one accepted record twice: the intended import inserts it once and reports row 3, the import as written aborts. |
| Upload.AdmitAllWithRollback | upload.py:89-95 | With the missing import added, every record still yields one count or one error. |
| Upload.RollbackLosesCountedInsert | upload.py:89-95 | With the missing import added, the duplicated record is counted as inserted, yet the rollback leaves the table to be committed empty. |
| Queries.Like | requests.py:38 | `%s%`: the search text framed by one '%' on each side. |
| Queries.AddFilters | requests.py:36-42 | The filter statements add as many parameters as clauses, at most one per filter. |
| Queries.FiltersAddActiveClauses | requests.py:36-42 | The clause and parameter lists are exactly the clauses and parameters of the non-empty filters, in filter order, the i-th parameter belonging to the i-th clause. |
| Queries.SortClause | requests.py:44-55 | The `if/elif` sort chain yields the ORDER BY of the first key equal to the sort argument, and none iff no key equals it. |
| Queries.Build | requests.py:36-55 | A list query: the active filters' clauses and parameters, and an ORDER BY iff the sort key is recognised. |
| Queries.OneFilterQuery | products.py:33-35 | One filter adds one clause and one parameter when its value is non-empty, none otherwise. |
| Queries.TwoFilterQuery | calc.py:43-48 | Two filters add one entry each when non-empty, the first before the second, clauses and parameters in step. |
| Requests.ListQuery | requests.py:21-55 | `search` adds a partner-name ILIKE with `%search%` and `status_filter` an exact status match, in that order; ORDER BY iff the key is one of the six; with no key, newest first. |
| Requests.SortKeysRecognised | requests.py:44-55 | The six keys of the requests page are exactly the recognised ones. |
| Requests.MyRequests | requests.py:78-97 | A partner user with no (or a zero) partner id gets nothing; otherwise exactly the requests of that partner with status "Выполнена" that survive the joins. |
| Requests.CheckPrice | requests.py:133-139 | A price passes iff it is at least MinPartnerPrice × (1 − discount); a refusal reports that floor, which the price lies below. |
| Requests.FloorFallsWithDiscount | requests.py:133-137 | For a non-negative minimum price a larger discount never raises the floor, so an accepted price stays accepted. |
| Requests.FloorItselfAccepted | requests.py:137 | A price exactly at the floor is accepted. |
| Requests.Admissible | requests.py:126-139 | An unknown product is refused as not found; otherwise the request passes iff the product has a minimum price and the price clears the floor (a NULL discount counting as 0). |
| Requests.AddRequest | requests.py:126-150 | A request is created iff it is admissible; it is inserted as "pending" with manager 1 under a fresh id, nothing else changes, and a refusal changes nothing. |
| Requests.EditRequest | requests.py:194-223 | An edit succeeds iff admissible and the request exists; it overwrites partner, product, quantity, price and status of that request only, keeps its manager, and a missing id changes nothing. |
| Requests.AddAndEditShareFloor | requests.py:201-207 | Creating and editing apply the same price rule: for an existing request, an edit succeeds exactly when a create would, and both report the same floor otherwise. |
| Requests.EditIdempotent | requests.py:209-222 | Submitting the same edit twice leaves the store as one submission did. |
| Partners.ListQuery | partners.py:21-48 | `search` adds a name ILIKE and `rating_filter` a `Rating >= x` bound, parameters in clause order; a rating filter that is not a number yields no query; ORDER BY iff the key is one of the four. |
| Partners.SortKeysRecognised | partners.py:41-48 | The four keys of the partners page are exactly the recognised ones. |
| Partners.AddPartner | partners.py:76-105 | Empty optional fields become NULL; a rating that does not parse is refused; a duplicate name or INN is refused; otherwise exactly one new row; refusals change nothing. |
| Partners.DeletePartner | partners.py:126-138 | Refused iff some user is linked to the partner; otherwise not found iff the id is absent; only a delete changes the store, and only by removing that row. |
| Partners.DeleteKeepsUserLinks | partners.py:126-131 | The guard preserves the invariant that every user's partner link names an existing partner. |
| Partners.AddThenDeleteRestores | partners.py:76-138 | Deleting a partner just added succeeds and restores the Partners rows. |
| Partners.PartnerRequests | partners.py:158-176 | An unknown partner is reported as not found; otherwise exactly that partner's requests that survive the joins. |
| Partners.HistoryWithinPartnerRequests | partners.py:168-176 | A partner's own history is exactly the completed part of that partner's request list. |
| Products.ListQuery | products.py:22-44 | `search` adds one name ILIKE with one parameter; ORDER BY iff the key is one of the four; with no key, by name. |
| Products.SortKeysRecognised | products.py:37-44 | The four keys of the products page are exactly the recognised ones. |
| Products.Row | products.py:64-69 | Empty optional fields become NULL; the cost and minimum partner prices are the parsed numbers; the creation time is the one given. |
| Products.AddProduct | products.py:63-90 | A product is added iff both prices parse (or are empty), as exactly one new row stamped with the current time; a refusal changes nothing. |
| Products.EditProduct | products.py:107-129 | An edit succeeds iff the prices parse and the id exists; it overwrites the six editable columns of that row, keeps its creation time, and otherwise changes nothing. |
| Products.EditIdempotent | products.py:115-129 | Editing twice equals editing once, and an edit with the values already held changes nothing. |
| Products.DeleteProduct | products.py:179-195 | Refused iff some request names the product; otherwise not found iff absent; otherwise refused by the store, with nothing changed, iff a composition pair still names it; a delete removes only that row. |
| Products.DeleteKeepsCompositionLinks | products.py:186-195 | The store's refusal preserves the invariant that every composition pair names an existing product. |
| Products.DeleteKeepsRequestLinks | products.py:179-184 | The guard preserves the invariant that every request names an existing product. |
| Products.AddThenDeleteRestores | products.py:64-191 | Deleting a product just added succeeds and restores the Products rows, in a store where every request and composition pair names an existing product. |
| Calc.ListQuery | calc.py:30-61 | `search_product` and `search_material` each add one ILIKE, product first; ORDER BY iff the key is one of the six. |
| Calc.SortKeysRecognised | calc.py:50-61 | The six keys of the composition list are exactly the recognised ones. |
| Calc.ParseCalc | calc.py:70-74 | The five inputs convert iff all three `int()` and both `float()` succeed, to exactly those values. |
| Calc.Calculate | calc.py:68-85 | A calculation runs iff the request is a POST by an analyst or manager; non-numeric input gives a format error; otherwise the stored function's value, or a calculation error when it raises. |
| Calc.PartnerNeverCalculates | calc.py:68 | A partner never gets a result, and an analyst and a manager get the same one. |
| Calc.AddComposition | calc.py:125-143 | A pair is added iff it is new and both ids exist; a refusal changes nothing. |
| Calc.EditComposition | calc.py:174-190 | An edit succeeds iff the pair exists and changes only its quantity; a missing pair changes nothing. |
| Calc.DeleteComposition | calc.py:243-258 | Refused iff the product appears in any request; otherwise not found iff the pair is absent; a delete removes only that pair. |
| Calc.DeleteRefusalIgnoresMaterial | calc.py:243-247 | The refusal depends on the product alone, whichever material the pair names. |
| Calc.AddThenDeleteRestores | calc.py:125-258 | Adding a pair and deleting it restores the store; editing a pair just added sets its quantity. |
| Calc.CompositionKeepsProductLinks | calc.py:125-258 | Adding, editing and deleting pairs preserve the invariant that every pair names an existing product. |
| Supplies.ParseId | supplies.py:31-35 | `int()` on a form field: an absent field crashes, a malformed one is a format error, otherwise the parsed id. |
| Supplies.ParseForm | supplies.py:26-38 | The quantity is converted and tested first (absent: crash; malformed: format error; ≤ 0: not positive), then the three ids; success iff all convert and the quantity is positive. |
| Supplies.CheckParties | supplies.py:40-57 | Supplier, material and manager are looked up in that order and the first missing one is reported. |
| Supplies.Record | supplies.py:59-74 | One new Supplies row, and the delivered material's stock raised by the quantity; every other material and table unchanged. |
| Supplies.AddSupply | supplies.py:20-83 | A supply is recorded iff the form is well formed, all three parties exist and neither write fails; every other outcome, including a failed write, changes nothing. |
| Supplies.AddedSupplyMatchesStock | supplies.py:59-75 | After a recorded supply the Supplies table has one more row, the new row's material stock grew by exactly its quantity, and nothing else changed. |
| Supplies.StockNeverDecreases | supplies.py:67-74 | No material's stock is lower after the handler, and no material appears or disappears. |
| Supplies.DeliveriesCommute | supplies.py:67-74 | The relative increment makes two deliveries leave the same stock in either order. |
| Supplies.SuccessSurvivesOtherDelivery | supplies.py:40-57 | A delivery that succeeds still succeeds after any other recorded delivery. |
| Users.CreateUser | users.py:37-58 | The role defaults to partner; a partner account without a partner id is refused iff that is the case; a duplicate username or e-mail is refused; otherwise exactly one new row with the given fields and the hash of the password; refusals change nothing. |
| Users.CreateKeepsUsernamesUnique | users.py:52-56 | Account creation keeps usernames unique. |
| Users.AddUser | users.py:31-58 | A refused `/add_user` changes nothing; a successful one adds exactly one new row, keeps every other row, and stores the hash of the submitted password. |
| Auth.FindUser | auth.py:24-25 | The lookup finds a row iff one has the username, and that row. |
| Auth.Login | auth.py:13-30 | A signed-in caller, and only a signed-in one, is sent on; otherwise sign-in succeeds iff a row with the username exists and the password matches its hash, and the session then carries that row's id, username, e-mail, role and partner id. |
| Auth.UnknownUserLooksLikeWrongPassword | auth.py:26-30 | An unknown username and a wrong password give the same outcome and leave the caller anonymous. |
| Auth.Register | auth.py:41-78 | A signed-in caller is sent on with nothing inserted; anyone else creates an account by the same rule as `/add_user`. |
| Auth.RegisterThenLogin | auth.py:65-78 | After registering, signing in with the same username and password yields the new account with its e-mail and role. |
| App.Dispatch | models.py:17-21 | A denied POST to a guarded route has no reply and no effect; an allowed one is the handler's result; self-registration is never denied and is the `/register` handler's result; the store changes only with a reply reporting a committed change. |
| App.OnlyManagersChangeTheStore | users.py:34-36 | A caller who is not a signed-in manager is denied every guarded route, with no reply and the store unchanged. |
| App.SelfRegistrationOnlyAddsAccounts | auth.py:39-78 | Self-registration changes nothing for a signed-in caller; for an anonymous one it adds at most one Users row, with every other table and every existing account unchanged. |
| App.NonManagerStep | auth.py:39-78 | One POST from a caller who is not a manager adds at most one account and changes nothing else, and nothing at all when the caller is signed in or the route is guarded. |
| App.AnonymousVisitorCanBecomeManager | auth.py:56-78 | An anonymous visitor who registers with role "manager" (and a free username and e-mail) changes the store, can then sign in as a manager, and passes the gate of every route but the partner's own history. |
| App.NonManagerSessionIsInert | upload.py:14-15 | Any sequence of POSTs from a signed-in analyst or partner, or from an anonymous caller who never self-registers, leaves the store as it was. |
| App.NonManagerSessionOnlyAddsAccounts | auth.py:39-78 | Over any sequence of POSTs from a session that is not a manager's, every table but Users ends as it began, every account is kept, and at most one account is added per POST. |

## Left out

- Connection and configuration plumbing (db.py, config.py, app.py) is not part of this model, and neither is a failed connection: every handler then returns before touching the store.
- Flask, flask_login sessions, redirects, flash texts, templates and logging are not modelled; outcomes are datatypes.
- Denials are modelled as "no reply and no effect", not as an HTTP status. users.py calls `abort` without importing it, so a denial there is a server error instead of a 403; the store is untouched either way.
- SQL evaluation is not modelled: ILIKE matching, ORDER BY ordering, `rowcount` and COUNT. The query builders produce clause and parameter lists only. Deletes and edits use map membership in place of `rowcount`.
- The stored functions `fn_GetPartnerDiscountNew` and `fn_CalcRequiredMaterial` are opaque parameters, because their definitions are not in the repository.
- bcrypt is modelled as the parameters `hash` (salted hashing, so randomness is inside it) and `matches`.
- Python `float()` and `int()` are partial-function parameters. NaN and infinities, which `float()` accepts, are not modelled: prices, quantities and ratings are reals.
- `\d` and `\w` are modelled as ASCII. Python's `str` patterns also accept other Unicode digits and letters.
- CSV decoding (UTF-8, `csv.DictReader`, and its skipping of blank lines) is not modelled. Records arrive as already-split maps from column to cell.
- Partners.AddPartner, Products.AddProduct, Calc.AddComposition, Requests.AddRequest: a missing required form field (`request.form[...]`) raises before the store is touched. It is not modelled, and the forms carry those fields as given.
- Calc.Calculate: a missing form field raises a KeyError, which neither inner `except` catches. The handler's outer `except Exception` (calc.py:95-104) then reports it and renders an empty page. The model takes the five fields as given; the store is untouched either way.
- Requests.AddRequest and Requests.EditRequest take already-converted numbers. Their `float()` calls (requests.py:117-118, 189-190) sit outside any `try`, so a malformed number is a server error with no effect.
- Calc.AddComposition and Calc.EditComposition take already-converted ids and quantities. A malformed one makes `int()`/`float()` raise inside the handler's outer `try` (calc.py:119, 168), whose `except` (calc.py:150-153, 220-223) reports the error and redirects with the store unchanged.
- Requests.AddRequest: the store's foreign keys are not in the repository, so the model accepts any partner id. TotalPrice, which the store derives, is left out.
- Calc.AddComposition: the refusal of unknown product or material ids follows the handler's message ("already exists or wrong ids"), since the schema is not in the repository.
- Users.CreateUser: `psycopg2` is not imported in auth.py or users.py. A duplicate username or e-mail is therefore a server error instead of the intended notice. The model reports it as `Taken` with the store unchanged, which holds in both readings. A partner id that does not convert, and any other store error, leaves the store unchanged too (`StoreError`). The store's foreign key on the partner link is not in the repository, so the model accepts any partner id that converts, including one naming no partner.
- Users.CreateUser: self-registration accepts any role the form sends, manager included (auth.py:60). The model does not restrict it, because the code does not and the intended rule is not stated anywhere in the repository. `App.AnonymousVisitorCanBecomeManager` shows the consequence: an anonymous visitor can obtain a manager account.
- Requests.AddRequest, Requests.EditRequest, Partners.DeletePartner, Products.DeleteProduct, Calc.DeleteComposition: these ids reach SQL as the form's strings (requests.py:115-116, 187-188; partners.py:116; products.py:169; calc.py:232-233). One that does not convert makes the store raise, and the handler's `except` rolls back and reports it, so the store is unchanged. The model types these ids as integers and does not carry that error outcome.
- Auth.Login: usernames are assumed unique (the store's UNIQUE constraint). Account creation preserves this (Users.CreateKeepsUsernamesUnique).
- Products.DeleteProduct: the schema is not in the repository. The model assumes the ProductComposition foreign key on ProductID, which `Calc.AddComposition` also relies on, without ON DELETE CASCADE, so the store refuses the DELETE of a product a pair still names (caught at products.py:192-195). Any other store error is not modelled.
- Partners.DeletePartner: a DELETE the store refuses (caught by `except Exception` at partners.py:139-141, rolled back and reported) is not modelled. The model assumes no foreign key other than the user link guarded at partners.py:126-131 names a partner.
- Upload.ImportFile: models the intended per-row isolation of refused inserts, not the code. As written, the first insert the store refuses fails the whole upload with nothing committed (see Findings); that behaviour is `Upload.ImportFileAsWritten`, which `Upload.AsWrittenImportAgrees` and `Upload.ImportAsWrittenFailsIff` tie to the corrected import in both directions.
- Materials columns other than name and stock are not modelled, since no modelled handler reads or writes them.
- The GET pages' read queries are not modelled beyond their WHERE/ORDER BY construction, `my_requests` and `partner_requests`. This covers the dropdown lists, `/users`, the status list and the edit forms' prefill.
- The browser-side checks in scripts/scripts.js are not modelled.

## Findings

| source | as written | input that shows it | evidently intended | confidence | as-written member | corrected member |
|---|---|---|---|---|---|---|
| upload.py:90 | `except psycopg2.IntegrityError` names a module upload.py never imports (imports at lines 1-8). The first insert the store refuses raises NameError while the handler is chosen; the outer `except` (lines 107-109) reports a processing error and nothing is committed. | A CSV with the same valid record on rows 2 and 3 | A uniqueness conflict is reported for that row and the rest of the file is imported | not executed | Upload.AdmitAllAsWritten, Upload.ImportFileAsWritten, Upload.AsWrittenFailsIffRefused, Upload.DuplicateRecordAbortsImport | Upload.AdmitAll, Upload.ImportFile |
| upload.py:91 | With the import added, `conn.rollback()` rolls back the whole transaction. Rows inserted earlier in the same upload are lost, while `inserted` still counts them and the success message announces them. | The same file: one row counted and announced, none committed | Each row's insert is atomic on its own, and the committed rows match the count | not executed | Upload.AdmitAllWithRollback, Upload.RollbackLosesCountedInsert | Upload.AdmitAll |
