# Contact service: a Dafny model of its handlers and its table

The contact service is a small CRUD HTTP service in Go. It stores contacts (id,
name, email) in one SQLite table and has a login endpoint that issues a signed
token. This project models its core in Dafny:

- `models.dfy` (module `Models`) is the persistence layer. It holds the
  `Contact` record and the validator's field rules. The `contacts` table is the
  class `ContactTable`: the rows in insertion order, plus the AUTOINCREMENT
  counter `lastId`. Its four statements are methods: insert, paged and filtered
  select, update by id, delete by id. The select is a cursor loop, proved
  against the specification function `Query`. Update and delete are proved
  against `SetById` and `RemoveId`. The lemmas state the properties of those
  functions: nothing else changes, missing ids are no-ops, deletion is
  idempotent, pages are bounded.
- `contact_handlers.dfy` (module `ContactHandlers`) is the handler variant with
  validation, pagination and the JSON error envelope. Each handler is a method
  that calls the table. Its postcondition gives the status and body for every
  early exit, and the table's new state.
- `legacy_handlers.dfy` (module `LegacyHandlers`) is the older variant. It has
  no validation, no paging and plain-text errors.
- `auth.dfy` (module `Auth`) is the login decision.
- `http.dfy` (module `Http`) and `results.dfy` (module `Results`) hold the
  shared response, parse-outcome and result datatypes.

Everything the code hands to a library is an input or an oracle. That covers the
JSON decoder's outcome, `strconv.Atoi` and `fmt.Sscanf`, the email syntax check,
the driver's success or failure, the environment, the clock and the token
signer.

Four behaviours of the code a reader might not expect:

- Login does not fail closed. An unset `APP_USER` or `APP_PASSWORD` reads as
  the empty string. With both unset, an empty username and password are
  accepted (`Auth.EmptyCredentialsAcceptedWhenUnset`). With only `APP_USER`
  set, that user logs in with an empty password (`Auth.Authorized`).
- The validating variant does not validate on update. A stored contact can be
  overwritten with one that create would refuse
  (`ContactHandlers.UpdateSkipsValidation`).
- The name filter is SQLite's `LIKE`, which ignores case for ASCII letters
  only. The table's collation does not affect it.
- The select loop never reads `rows.Err()`. A driver failure in the middle of
  the iteration ends the loop early, and the rows read so far come back as a
  successful, shorter page with status 200 (`ContactHandlers.ListCutShort`).

## Model

| member | source | states |
|---|---|---|
| `Models.Validate` | models/contact.go:10-20 | A contact passes validation iff its name has at least 3 characters and its email is non-empty and has email syntax. An empty name or email fails on the `required` rule. A name of 1 or 2 characters fails on `min`; a non-empty email without email syntax fails on `email`. A field that meets its rules adds no error. Only Name and Email carry rules, at most one failure each, and Name's comes first. |
| `Models.ValidationMessage` | contact.go:61 | The validator's text appended to "Invalid contact data: ": empty iff there are no errors, exactly the error's own text for one error, and the two texts joined by a newline for two. |
| `Models.MissingEmailMessage` | integration_test.go:60-79 | `{"name":"josh"}` fails on exactly one rule, Email's `required`. The error text is that single field error's text. |
| `Models.Like` | models/contact.go:50-52 | `name LIKE '%filter%'`: an empty filter matches every name; a name equal to the filter up to ASCII case matches; a filter longer than the name never matches. |
| `Models.Matches` | models/contact.go:50-52 | The WHERE clause: with an empty filter there is none and every row matches; a matching row's name is at least as long as a non-empty filter; a name equal to the filter up to ASCII case matches. |
| `Models.Select` | models/contact.go:47-53 | The filtered select returns the stored rows that match the filter, unchanged, and no other rows. |
| `Models.SelectNoFilter` | models/contact.go:50-53 | An empty name filter adds no WHERE clause: every row is selected, in table order. |
| `Models.Window` | models/contact.go:55-56 | `LIMIT ? OFFSET ?` returns at most `limit` rows. Row k of the result is row offset+k of the input. The result is short only when the input runs out. A negative offset counts as 0. |
| `Models.Query` | models/contact.go:44-56 | The statement the list asks for: with a non-negative limit it holds at most `limit` rows, and every row is a stored row that matches the filter. |
| `Models.QueryPage` | models/contact.go:44-56 | For page ≥ 1 and limit ≥ 1, a page holds at most `limit` rows, each a stored row matching the filter. A short page means fewer than `(page-1)*limit + limit` rows match. |
| `Models.QueryBeyondEnd` | models/contact.go:45-56 | A page is empty exactly when `(page-1)*limit` is at least the number of matching rows. Otherwise it starts with the matching row at that position. |
| `Models.QueryAll` | handlers/contact.go:20 | The query without filter and without limit (page 1, negative limit) returns the whole table in order. |
| `Models.WrapInt64` | models/contact.go:45 | Go's 64-bit `int` arithmetic: the result lies in [-2^63, 2^63) and equals the exact value modulo 2^64; a value already in range is unchanged. |
| `Models.OffsetAsWritten` | models/contact.go:45 | The offset as the source computes it in a 64-bit `int`: always within the int64 range, and equal to the exact `(page-1)*limit` whenever that fits. |
| `Models.OffsetOverflowReturnsFirstPage` | models/contact.go:45 | The offset as written, for page 2^63-1 and limit 10, wraps to -20. SQLite reads that as offset 0, so the first page comes back. The exact offset gives an empty page. |
| `Models.SetById` | models/contact.go:74-81 | The update keeps the number of rows and every id. Rows with another id are unchanged. The row with that id gets the new name and email. |
| `Models.FindAfterSet` | models/contact.go:74-81 | After an update, looking up that id finds the new name and email, if the id was present, and nothing otherwise. Looking up any other id finds what it found before. |
| `Models.SetByIdMissing` | models/contact.go:74-81 | An update of an id no row has leaves the rows exactly as they were. |
| `Models.RemoveId` | models/contact.go:83-90 | The delete keeps exactly the rows whose id differs. |
| `Models.RemoveIdMissing` | models/contact.go:83-90 | A delete of an id no row has leaves the rows exactly as they were. |
| `Models.RemoveIdIdempotent` | models/contact.go:83-90 | Deleting the same id twice is the same as deleting it once. |
| `Models.RemoveIdCount` | models/contact.go:83-90 | On rows with strictly increasing ids (as `ContactTable.Valid()` keeps them), deleting a present id removes exactly one row. Deleting an absent id removes none. |
| `Models.RemoveIdIncreasing` | models/contact.go:83-90 | Deleting keeps the surviving rows in order, so ids stay strictly increasing. |
| `Models.ContactTable.constructor` | models/contact.go:22-33 | A freshly created table has no rows, has assigned no id yet, and satisfies the table invariant. |
| `Models.ContactTable.InsertContact` | models/contact.go:35-42 | On success, exactly one row is appended, with the given name and email. The contact's own id is ignored. The new id is the counter plus one, larger than every id in the table. A driver error, or a full counter (SQLITE_FULL), changes nothing. |
| `Models.ContactTable.GetContacts` | models/contact.go:44-72 | Without a driver failure during iteration, the cursor loop returns exactly `Query(rows, page, limit, name)`: the filtered rows, skipping `(page-1)*limit` and keeping at most `limit`. A failure after `failAfter` rows returns, still as a success, the first `failAfter` rows of that page (`Delivered`), since `rows.Err()` is never read. A driver error before the loop is the only error. No match gives an empty result. |
| `Models.WindowPrefix` | models/contact.go:55-71 | The rows a cursor has collected from the first candidates are always a prefix of the page it would collect from all of them. |
| `Models.Delivered` | models/contact.go:64-71 | The rows a cursor hands over before a driver failure after n rows: a prefix of the page, of length n or the whole page if it is shorter; the whole page without a failure. |
| `Models.CursorPrefix` | models/contact.go:64-71 | Wherever the row loop stops, the rows appended so far begin the query's page. |
| `Models.CursorStop` | models/contact.go:64-71 | When the row loop ends because the rows ran out, the page is full, or the driver failed after n rows, the rows appended are exactly what the failure lets through of the query's page. |
| `Models.ContactTable.UpdateContact` | models/contact.go:74-81 | On success the rows become `SetById(old rows, c.id, c.name, c.email)`. An id with no row is not an error. The counter and, on error, the table are unchanged. |
| `Models.ContactTable.DeleteContact` | models/contact.go:83-90 | On success the rows become `RemoveId(old rows, id)`. An id with no row is not an error. The counter and, on error, the table are unchanged. |
| `ContactHandlers.ClampPage` | contact.go:22-28 | The page is at least 1. A positive page passes unchanged. A missing, non-numeric, zero or negative page becomes 1. A positive out-of-range page becomes the largest int; a negative out-of-range page becomes 1. |
| `ContactHandlers.ClampLimit` | contact.go:23-31 | The limit is at least 1, and any positive limit passes unchanged (no upper cap). A missing, non-numeric, zero or negative limit becomes 10. |
| `ContactHandlers.PathId` | contact.go:86-93 | The path id is accepted iff it scans as an integer greater than 0, and then it is that integer. |
| `ContactHandlers.GetContacts` | contact.go:17-44 | A store error gives 500 "Error fetching contacts" in the envelope. Otherwise the answer is 200 with exactly the page the store returns for the clamped page and limit and the name filter, cut to its first `failAfter` rows when the driver fails during iteration. An empty page is written as `null`. |
| `ContactHandlers.ListCutShort` | models/contact.go:64-71 | With two stored contacts and a driver failure after the first row, the list request answers 200 with only the first contact. |
| `ContactHandlers.CreateContact` | contact.go:46-79 | An undecodable body gives 400 "Invalid request body". An invalid contact gives 400 "Invalid contact data: " followed by the validator's text. Neither touches the table. A valid contact is inserted exactly once: 201 on success, 500 "Failed to create contact" on a store error. |
| `ContactHandlers.UpdateContact` | contact.go:81-118 | A bad path id gives 400 "Invalid contact ID" whatever the body, with the table untouched. An undecodable body gives 400. Otherwise the body is written under the path id without validation, and 200 comes back even if no row had that id. A store error gives 500. |
| `ContactHandlers.DeleteContact` | contact.go:120-144 | A bad path id gives 400 with the table untouched. Otherwise the row with that id is deleted, and 204 comes back even if there was none. A store error gives 500. |
| `ContactHandlers.CreateThenList` | integration_test.go:83-100 | A valid contact posted to an empty table gives 201. A list request without parameters then returns 200 with exactly that contact, under id 1. |
| `ContactHandlers.CreateMissingEmail` | integration_test.go:55-81 | `{"name":"josh"}` gives 400 with the envelope code 400 and the Email `required` message. A later list finds the table empty (`null`). |
| `ContactHandlers.UpdateThenDelete` | integration_test.go:102-131 | A stored contact updated through its path id gives 200 and holds the new values, whatever id the body had. Deleting it gives 204 and an empty table. Deleting again still gives 204. |
| `ContactHandlers.UpdateSkipsValidation` | contact.go:95-103 | An update with an empty name and email gives 200 and stores a contact that fails validation. |
| `LegacyHandlers.GetContacts` | handlers/contact.go:15-31 | A store error gives 500 with the plain text "Error fetching contacts". Otherwise the answer is 200 with every row of the table, or with its first `failAfter` rows when the driver fails during iteration. |
| `LegacyHandlers.CreateContact` | handlers/contact.go:33-59 | An undecodable body gives 400 plain text with no insert. Any decoded contact is inserted with no validation: 201 on success, 500 on a store error. |
| `LegacyHandlers.UpdateContact` | handlers/contact.go:61-98 | Same id guard and stage order as the newer variant, with plain-text errors. The path id overrides the body's id. 200 whenever the store reports no error. |
| `LegacyHandlers.DeleteContact` | handlers/contact.go:100-124 | Same id guard, with plain-text errors. 204 whenever the store reports no error. |
| `LegacyHandlers.CreateEmptyThenList` | handlers/contact.go:38-57 | A contact with an empty name and email gives 201 and is then listed like any other. |
| `Auth.IssuedClaims` | handlers/auth.go:43-49 | The claims carry the submitted username. The expiry is the current time plus one hour, cut down to a whole second. |
| `Auth.GetEnvVar` | handlers/auth.go:23-25 | `os.Getenv`: the variable's value when it is set, the empty string when it is not. |
| `Auth.Authorized` | handlers/auth.go:35-38 | With APP_USER and APP_PASSWORD set, exactly that pair is accepted; with both unset, exactly the empty username and password are; with only one set, exactly its value paired with the empty string is. |
| `Auth.Login` | handlers/auth.go:27-61 | An undecodable body gives 400 before any comparison. Wrong credentials give 401. A signing error gives 500 "Internal Server Error". 200 happens iff the credentials equal APP_USER and APP_PASSWORD and signing succeeds, and then the body is a JSON object whose only key is `token`, holding the signed claims. |
| `Auth.EmptyCredentialsAcceptedWhenUnset` | handlers/auth.go:23-41 | With APP_USER and APP_PASSWORD unset, an empty username and password is not refused with 401. |

## Left out

- Routing and middleware (main.go, routes/routes.go) are not modelled. These files only register routes and the request-id middleware. The token-verification middleware is not part of this model.
- Logging, the request-id context and the debug `print` at contact.go:60 are not modelled. They do not affect any response or the table.
- JSON decoding and encoding are not modelled. Decoding is a success or failure outcome carrying the decoded value. Encoding is the `Body` datatype. Response headers (Content-Type) are not modelled.
- Email syntax is a predicate parameter `isEmail`. The validator's rule for it is not modelled. The message format of a field error follows go-playground validator v10.
- `strconv.Atoi` and `fmt.Sscanf` are outcomes given as inputs. `Sscanf` with `%d` accepts a leading integer followed by other text. That is an input that scans.
- The SQLite engine is not modelled beyond the four statements. The select has no ORDER BY, so SQLite promises no row order. The model assumes the order of a rowid scan, which AUTOINCREMENT makes insertion order. `CreateTable`'s DDL and `log.Fatal` reduce to the constructor's empty table. A driver failure before any row is read reduces to one `dbError` input. A failure during the row loop is the `failAfter` input. AUTOINCREMENT exhaustion (SQLITE_FULL) is modelled on its own.
- Models.Select: `%` and `_` in the filter are LIKE wildcards in SQLite and are not escaped. The model treats them as ordinary characters.
- Models.ContactTable.GetContacts: the offset `(page-1)*limit` is computed exactly. The source's 64-bit wrap-around is modelled separately by `Models.OffsetAsWritten` (see Findings).
- Models.ContactTable.GetContacts: scan errors inside the row loop (models/contact.go:66-68) are not modelled. The three columns always scan into the struct.
- Auth.Login: HS256 signing (RFC 7518 section 3.2) and the token format (RFC 7519) are not modelled. The signer is a function parameter, called with the claims and JWT_SECRET.
- Auth.Login: `os.Getenv` and `time.Now` are inputs: the environment as a map, the time in nanoseconds since the Unix epoch.
- Concurrent requests on the shared database handle are not modelled. Each handler runs alone against the table.

## Findings

| source | as written | input that shows it | evidently intended | confidence | as-written member | corrected member |
|---|---|---|---|---|---|---|
| models/contact.go:45 | `offset := (page - 1) * limit` in Go's 64-bit `int`. contact.go:22-31 passes any positive page and limit through, and an out-of-range page saturates to 2^63-1. | `GET /contacts?page=9223372036854775807&limit=10`: the offset wraps to -20, SQLite treats a negative offset as 0, and the first ten contacts come back | a page that starts past the last matching row is empty | medium; not executed | `Models.OffsetOverflowReturnsFirstPage` | `Models.QueryBeyondEnd` |
