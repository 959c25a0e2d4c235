# Hitronet EMS: a verified model of the console and its CRUD server

Hitronet EMS keeps four record collections for a network operator: customers
(`korisnici`), sites (`lokacije`), links between sites (`veze`) and equipment
(`oprema`). A FastAPI server stores them in SQLite. It offers create, list,
get, update and delete for each collection, plus a `/stats` summary. A
single-page React console shows one tab per collection and a create/edit
dialog, and reports outcomes in a notification banner.

This project models both halves in Dafny and proves what each promises.

- **Server** (`tables.dfy`, `schema.dfy`, `stats.dfy`):
  - Each table is a `Tables.Table` object: its rows in id order and the next id the database hands out.
  - Create, update and delete change the table in place. Each keeps the table invariant:
    - ids are ascending and fresh;
    - every row conforms to its schema;
    - the unique columns (`oib` for customers, `serijski_broj` for equipment) hold no duplicates.
  - Request bodies go through `Schema.Validate`, the model of the Pydantic `*Base` schemas:
    - required fields must be present and non-null with the right JSON type;
    - optional fields default to null;
    - other keys are dropped.
  - A body that fails validation gets 422 before the handler looks up the id, so a bad body on an absent id is 422, not 404.
  - A write that would duplicate a unique column is refused by the database. The model answers 500 and leaves the table unchanged.
  - Listing follows SQLite's `OFFSET`/`LIMIT`: a negative offset counts as 0 and a negative limit means no limit.
- **Console** (`app.dfy`, `drafts.dfy`, `inputs.dfy`):
  - `App.Console` is a class whose fields are the component's state.
  - Each handler is one atomic step. What the network answered and whether the user confirmed a delete are parameters.
  - Each handler returns the requests it issued, in order.
  - After a successful save, the effects land in this order: the dialog closes, the success banner is set, then the refresh's result arrives. A successful delete leaves the dialog as it was; it sets the success banner, then the refresh's result arrives.
- **Cross-checks** (`crosscheck.dfy`) connect the two halves:
  - an untouched new link or device draft is refused with 422;
  - a second untouched customer collides on the empty `oib`;
  - an unchanged edit round-trips;
  - the console only ever sees the first hundred rows of a collection.

`fetchData` (frontend/src/App.jsx:62-71) never checks `response.ok`. Any reply
with a JSON body replaces the collection, including an error body such as
`{"detail": ...}`. Only a thrown error (network failure, or a body that is not
JSON) keeps the previous collection. One would expect a failed list fetch to
keep the previous collection; `fetchData` does not. The model follows the code
(`App.AfterFetch`, `App.ErrorBodyReplacesCollection`).

## Model

| member | source | states |
|---|---|---|
| Entities.Parse | frontend/src/App.jsx:119-166 | a collection name selects exactly the entity it names; every other name selects none |
| Entities.EntityAt | frontend/src/App.jsx:95-99 | tab index i selects the i-th collection in tab order, and `TabOf` inverts it |
| Json.OrNull | frontend/src/App.jsx:358 | `v \|\| null`: falsy values become null and every other value is kept |
| Schema.Fields | backend/main.py:92-160 | the create/update schema of each entity; `id` is never one of its fields |
| Schema.References | backend/main.py:49-76 | every reference column is a declared whole-number field, required except `korisnik_id` and `redundantna_veza_id` |
| Schema.UniqueField | backend/main.py:26-80 | only customers (`oib`) and equipment (`serijski_broj`) have a unique column, a required text field |
| Schema.Check | backend/main.py:92-160 | a body passes exactly when every schema field is acceptable (present with its type, or null/absent when optional) |
| Schema.CheckCollects | backend/main.py:92-160 | a passing body yields a record with exactly the schema's keys, each holding the body's value or null |
| Schema.CheckReports | backend/main.py:92-160 | a failing body is reported with exactly the names of the fields that fail |
| Schema.Validate | backend/main.py:92-160 | 422 for a non-object or for exactly the bad fields; otherwise a conforming record carrying the body's values |
| Schema.ValidateConforming | backend/main.py:92-160 | a conforming record validates to itself |
| Schema.ValidateIgnoresExtra | backend/main.py:92-160 | adding a key outside the schema does not change validation |
| Schema.CheckAgrees | backend/main.py:92-160 | validation reads a body only through the schema's fields |
| Tables.Render | backend/main.py:105-170 | a response object holds the row's stored fields, each unchanged, plus its `id` |
| Tables.Collides | backend/main.py:26-80 | only customers and equipment can collide, and only on a non-null unique value that another row (not the one being updated) already holds; an empty table never collides |
| Tables.Find | backend/main.py:224 | `filter(id == ..).first()`: the first position holding the id, or none exactly when no row has it |
| Tables.Page | backend/main.py:217-220 | `offset(skip).limit(limit)`: the rows from position max(skip, 0), at most `limit` of them, none past the end |
| Tables.InvariantAppend | backend/main.py:209-215 | appending a conforming, non-colliding record under the next id keeps the table invariant |
| Tables.InvariantReplace | backend/main.py:229-240 | overwriting a row's fields with a conforming, non-colliding record keeps the invariant |
| Tables.IdsReplace | backend/main.py:229-240 | an update keeps ids ascending and below the counter |
| Tables.ConformsReplace | backend/main.py:229-240 | an update keeps every row conforming |
| Tables.NoDuplicatesReplace | backend/main.py:229-240 | an update that passes the uniqueness check keeps the unique column free of duplicates |
| Tables.WithoutShifts | backend/main.py:248 | after removing position k, later rows move down by one and earlier rows stay |
| Tables.AscendingRemove | backend/main.py:248 | a delete keeps ids ascending |
| Tables.NoDuplicatesRemove | backend/main.py:248 | a delete keeps the unique column free of duplicates |
| Tables.InvariantRemove | backend/main.py:242-250 | removing a row keeps the table invariant |
| Tables.RemovedIsGone | backend/main.py:242-250 | after a delete no row has the id, so a second delete of it is 404 |
| Tables.OthersKept | backend/main.py:242-250 | a delete keeps every other row and removes only rows with that id |
| Tables.AppendedIsFound | backend/main.py:209-227 | a created row is found under its new id at the end of the table |
| Tables.DefaultPageTruncates | backend/main.py:218 | with more than 100 rows the default list has exactly 100 and omits every later row |
| Tables.DefaultPageShowsAppended | backend/main.py:218 | below 100 rows, the default list after a create shows every row, the new one last |
| Tables.Table.constructor | backend/main.py:88-89 | a new table is empty and the first id it hands out is 1 |
| Tables.Table.Get | backend/main.py:222-227 | the rendered row when some row has the id; otherwise 404 "<Entity> not found" |
| Tables.Table.List | backend/main.py:217-220 | the whole page: as many items as `Page` has, the rendered rows at positions skip, skip+1, …, at most `limit` of them |
| Tables.Table.Create | backend/main.py:209-215 | 422 on a bad body; 500 on a unique-column duplicate; otherwise one row appended under a fresh id, all else unchanged |
| Tables.Table.Update | backend/main.py:229-240 | 422, then 404, then 500 on a duplicate; otherwise the row's fields fully replaced, id and other rows kept |
| Tables.Table.Delete | backend/main.py:242-250 | 404 with nothing changed; otherwise exactly that row removed and the "<Entity> deleted successfully" message |
| Stats.HasStatus | backend/main.py:392-393 | a row has a status exactly when its `status` column is present and holds that string |
| Stats.CountStatus | backend/main.py:392-393 | the number of rows whose status is exactly the given one: at most all, all iff every row, 0 iff none |
| Stats.CountStatusAppend | backend/main.py:392-393 | a created row raises a status count by one exactly when it has that status |
| Stats.CountStatusWithout | backend/main.py:392-393 | a deleted row lowers a status count by one exactly when it had that status |
| Stats.GetStatistics | backend/main.py:385-394 | the four totals are the table sizes; the active customers are the rows counted by `CountStatus` with `aktivan`, the active sites those with `aktivna`, each at most its total and equal to it exactly when every row is active |
| Drafts.ActiveStatus | frontend/src/App.jsx:563 | the status drawn with a success chip is one of the entity's status choices |
| Drafts.ChipActive | frontend/src/App.jsx:563-700 | a chip is coloured active only for a status string that is one of the entity's status choices |
| Drafts.Seed | frontend/src/App.jsx:119-167 | a new draft has the first kind, the active status and null references |
| Drafts.SeedKeys | frontend/src/App.jsx:119-167 | a new draft has exactly the fields of the server's schema for that entity |
| Drafts.CustomerSeedKeys | frontend/src/App.jsx:121-131 | the customer draft's keys are the customer schema's fields |
| Drafts.SiteSeedKeys | frontend/src/App.jsx:132-141 | the site draft's keys are the site schema's fields |
| Drafts.LinkSeedKeys | frontend/src/App.jsx:142-152 | the link draft's keys are the link schema's fields |
| Drafts.DeviceSeedKeys | frontend/src/App.jsx:153-163 | the equipment draft's keys are the equipment schema's fields |
| Drafts.GetEmptyItem | frontend/src/App.jsx:119-167 | the seed of a known collection name, `{}` for any other |
| Inputs.DigitRun | frontend/src/App.jsx:414 | the digits `parseInt` consumes: the longest run of leading digits |
| Inputs.TrimStart | frontend/src/App.jsx:414 | the result is a suffix of the input that does not start with ASCII white space, and everything dropped was ASCII white space |
| Inputs.ParseInt | frontend/src/App.jsx:414 | a number is read exactly when, after leading white space, the text starts with a digit or with a sign followed by a digit; a negative result needs a minus sign |
| Inputs.DecimalValueOfDecimal | frontend/src/App.jsx:414 | reading back the decimal text of n gives n |
| Inputs.DigitRunOfDigits | frontend/src/App.jsx:414 | `parseInt` stops exactly at the end of the digits |
| Inputs.UnsignedDigits | frontend/src/App.jsx:414 | a run of digits followed by a non-digit reads as the value of those digits |
| Inputs.ParseIntDigits | frontend/src/App.jsx:414 | `parseInt` of unsigned digits, then anything not a digit, is their value |
| Inputs.ParseIntNegatedDigits | frontend/src/App.jsx:414 | after a minus sign the value read is negated |
| Inputs.ParseIntShow | frontend/src/App.jsx:414 | `parseInt` reads back the integer a number field shows, whatever non-digit follows |
| Inputs.IntInput | frontend/src/App.jsx:414 | `parseInt(text) \|\| null`: null exactly for NaN or 0, otherwise the parsed non-zero integer |
| Inputs.IntInputShow | frontend/src/App.jsx:414-430 | a typed whole number is stored as itself, except 0, which is stored as null |
| Inputs.IntInputBlank | frontend/src/App.jsx:414-430 | clearing a number field, or leaving only white space in it, stores null |
| Inputs.SelectInput | frontend/src/App.jsx:358 | the empty customer choice is stored as null; a chosen customer id is kept |
| App.AfterFetch | frontend/src/App.jsx:62-71 | a reply with a body replaces only that entity's collection; a thrown fetch changes no collection |
| App.AfterFetchNotice | frontend/src/App.jsx:67-70 | a thrown fetch raises the error banner "Greška pri dohvaćanju <entity>"; otherwise the banner is untouched |
| App.ShowsPlaceholder | frontend/src/App.jsx:523-534 | a fetched list shows the "Nema podataka" placeholder exactly when it is empty, and so does a missing collection or an empty string; an object shows it exactly when its `length` key holds 0, since JavaScript reads `length` as an ordinary key |
| App.ErrorBodyReplacesCollection | frontend/src/App.jsx:62-66 | a non-2xx reply's error object still replaces the collection; the placeholder then shows exactly when that object's `length` is 0, so never for FastAPI's `{"detail": ...}`; `renderTable` then calls `items.map` on that object and throws (App.jsx:524, 553), which is rendering and not modelled |
| App.Console.constructor | frontend/src/App.jsx:47-59 | first tab, four empty collections, dialog closed, banner closed |
| App.Console.ShowSnackbar | frontend/src/App.jsx:91-93 | the banner opens with the message and severity |
| App.Console.DismissSnackbar | frontend/src/App.jsx:873 | the banner closes and keeps its message and severity |
| App.Console.FetchData | frontend/src/App.jsx:62-71 | one GET of the collection; collections and banner as `AfterFetch` and `AfterFetchNotice` say |
| App.Console.Mount | frontend/src/App.jsx:83-89 | the four collections are fetched in tab order; collections and banner end as the four `AfterFetch` and `AfterFetchNotice` steps in that order leave them |
| App.Console.HandleTabChange | frontend/src/App.jsx:95-99 | the tab and the current entity follow the selected index |
| App.Console.HandleOpen | frontend/src/App.jsx:101-111 | with a row: edit mode with that row as draft; without: create mode with the entity's seed; the dialog open |
| App.Console.HandleAdd | frontend/src/App.jsx:832-838 | a create dialog with the seed of the current tab's entity |
| App.Console.HandleRefresh | frontend/src/App.jsx:822-827 | a fetch of the current tab's collection; that collection and the banner change as `AfterFetch` and `AfterFetchNotice` say |
| App.Console.HandleClose | frontend/src/App.jsx:113-117 | dialog closed, edit mode off, draft empty, nothing else touched |
| App.Console.HandleInputChange | frontend/src/App.jsx:218-223 | exactly one key of the draft is set; every other key is kept |
| App.Console.HandleNumberChange | frontend/src/App.jsx:414-430 | a whole-number field stores `parseInt(text) \|\| null` |
| App.Console.HandleCustomerChange | frontend/src/App.jsx:356-359 | the customer select stores its choice, the empty choice as null |
| App.Console.HandleSave | frontend/src/App.jsx:169-196 | PUT to the draft's id in edit mode, else POST; on success: closed, "updated"/"added" by the earlier mode, that entity refreshed; on failure: dialog, draft and collections kept, error banner |
| App.Console.HandleDelete | frontend/src/App.jsx:198-216 | unconfirmed: no request, no change; confirmed: DELETE, then a refresh and a success banner, or the error banner with collections kept |
| Crosscheck.UneditedLinkRejected | frontend/src/App.jsx:142-152 | saving an untouched new link is 422 naming both end points |
| Crosscheck.UneditedDeviceRejected | frontend/src/App.jsx:153-163 | saving an untouched new device is 422 naming its site |
| Crosscheck.SecondUneditedCustomerCollides | backend/main.py:26 | a second untouched customer duplicates a stored empty `oib`, so its create is refused |
| Crosscheck.UnchangedEditRoundTrip | frontend/src/App.jsx:169-183 | a rendered row saved unchanged validates back to its stored fields and targets its own id |
| Crosscheck.UnchangedEditKeepsRows | backend/main.py:229-240 | an unchanged edit leaves the table's rows as they were |
| Crosscheck.ConsoleSeesFirstHundred | frontend/src/App.jsx:64 | the console's parameterless GET shows exactly the first hundred rows of a larger table |
| Crosscheck.ChipAgreesWithStats | frontend/src/App.jsx:563-607 | customer and site chips are coloured active exactly when `/stats` counts the row as active |
| Crosscheck.UneditedCustomerCountsActive | backend/main.py:392 | storing an untouched new customer raises the active-customer count by one |

## Left out

- HTTP and JSON transport: `fetch`, `response.json()`, FastAPI routing, CORS and uvicorn are not modelled. A reply is a parameter: a 2xx or non-2xx response with or without a JSON body, or a thrown error. The server's answers are the `Response` datatype.
- Path parameters: FastAPI's parsing of `{id}` into an `int` is not modelled, so ids arrive as integers. The console's `${currentItem.id}` is kept as an optional JSON value.
- Rendering: `renderFormFields`, `renderTable`, the dialog and the banner layout are not modelled. Only two presentation facts are kept: the empty-collection placeholder and the active-status chip.
- `value || ''` display coercions in the form are presentation only and are not modelled.
- `fetchStats` and the `stats` state of the console are not modelled; the server's `/stats` is. The mount effect and the refresh button therefore issue only the collection fetches in the model.
- The banner's 4-second auto-hide timer is not modelled; `DismissSnackbar` models the close it triggers.
- Async interleaving: every handler is atomic. Overlapping requests and late replies overwriting newer state are concurrency and are not modelled.
- Floats: latitude and longitude are opaque JSON numbers (`Float` holds their text). `parseFloat` in the site form is not modelled, and a float counts as truthy for `||`. For the same reason a float has no `length` in `ShowsPlaceholder`, and an object whose `length` is a float zero such as `0.0` does not show the placeholder in the model, while it does in the console.
- Timestamps: `created_at` and `datum_ugovora` default to the current time, and responses carry them. They are not modelled, and `Render` adds only `id`. `datum_instalacije` is checked only as a JSON string or number, so the model accepts text that Pydantic's `datetime` rejects.
- Schema.Validate: Pydantic's lax coercions are not modelled. These include a numeric string for an int, an integral float for an int, and a bool for an int. For these the model accepts only the JSON type itself, so it is stricter than the server. For `datum_instalacije` it is looser: any JSON string or number is accepted, while Pydantic's `datetime` rejects text that is not a date or time.
- Tables.Table.Create: SQLite's `INTEGER` holds 64 bits, and the sqlite3 driver raises OverflowError for a larger whole number (such as 10000000000000000000, which `parseInt` reads exactly), so the server answers 500. The model's integers are unbounded, and it answers `Success` and stores the value.
- Tables.Table.Update: the same 64-bit limit applies to updates; the model answers `Success` where the server answers 500.
- Inputs.ParseInt: the `0x` prefix, which JavaScript's `parseInt` reads as hexadecimal, is not modelled. Neither is the loss of precision above 2^53; integers are unbounded here. `IsSpace` holds only the six ASCII white-space characters; the non-ASCII white space `parseInt` also skips (U+00A0, U+FEFF, U+2028, U+2029 and the other space separators) is not modelled, so the model reads no number where JavaScript would.
- Foreign keys: SQLite does not enforce them by default, and the model does not check that references exist. SQLAlchemy's nulling of child references when a parent is deleted is library behaviour and is not modelled.
- Id assignment: SQLite hands out the largest id in the table plus one. Deleting the row with the highest id, not only emptying the table, makes that id reusable. The model hands out a strictly increasing fresh id instead.
- Unique-column failures: the model answers 500 (`ServerError`) with the table unchanged. The rollback of the failed session is not modelled.
- The other duplicates: a second untouched new equipment draft would collide on `serijski_broj`, but it is refused earlier for its missing site.
- backend/insert_demo_data.py is a script that POSTs fixed fixtures; it is not part of this model.
- The root endpoint `/` returns a fixed description and is not modelled.
