# Client records: validation and the client service

A Dafny model of the client-record module of a small CRM dashboard. The module has two parts.

- **The schemas** (`src/libs/supabase/schemas.ts`) validate a client record and the list filters.
  - Name: 1 to 100 characters.
  - Email: 1 to 255 characters, and it must be an email address.
  - Phone, company and address: each may be missing or null, and when given is capped at 20, 100 and 500 characters.
  - Status: one of `active`, `inactive`, `pending`. On create it defaults to `active`.
  - The update schema is the create schema with every field made optional.
  - Filters: an optional search text, an optional status, `limit` in 1..100, and `offset` ≥ 0.
- **The client service** (`src/libs/supabase/clients.ts`) reads and writes the `clients` table and answers uniform envelopes.
  - List: search, status filter, newest first, a limit/offset window, and an exact count.
  - Fetch one, create, update, delete one, delete many.

The model has six modules:

- `Options` and `Records` hold the shared data model: the client row, the insert and update payloads, and the filters.
- `Schemas` models every schema as a validator. A validator returns the normalised value, or the full list of field violations in the schema's field order.
- `ClientQuery` models how the list operation builds its query descriptor, and what each descriptor selects.
- `ClientRepository` models the service over an in-memory table.
  - The class `ClientTable` holds the rows and the id counter.
  - Each method that changes the table is proved against a pure step function over `Store`.
  - Lemmas state the service's promises about those step functions.
  - Whether a call reaches the table is a `Transport` parameter. A call can be delivered, fail with a storage error message, or throw.
- `Composition` joins the two parts the way the create and edit forms do: validate first, then write. The service never calls the schemas itself, so this composition is stated separately from the service.

The model follows what the code does:

- `createClient` and `updateClient` do not validate their payload.
- A missing id in `getClientById` or `updateClient` gives an ordinary error envelope (the single-row error). There is no separate not-found outcome.
- `createClient` reads the clock twice, so `created_at` and `updated_at` are two readings, and the model does not claim they are equal.
- `updateClient` passes a caller-supplied `created_at` through to the row. It overwrites only `updated_at`.

## Model

| member | source | states |
|---|---|---|
| Records.ParseStatus | src/libs/supabase/schemas.ts:4 | a string parses to a status iff it is one of the three enumeration literals, and the parsed status prints back as that string |
| Schemas.TextIssues | src/libs/supabase/schemas.ts:8-14 | a required text field passes iff it is a string within its bounds (and, for email, of email syntax), or a missing key under the update schema; for a string, "too small" is reported iff it is shorter than the minimum and "too big" iff it is longer than the maximum; an email is reported as not an email address iff the email predicate rejects it, so an empty email is reported both as too small and as not an email address whenever the predicate rejects the empty string, as the validation library's does |
| Schemas.NullableTextIssues | src/libs/supabase/schemas.ts:15-26 | an optional nullable text field passes iff it is missing, null or a string within its maximum; a failing value reports exactly one issue |
| Schemas.StatusIssues | src/libs/supabase/schemas.ts:4 | a status passes iff it is missing or a string that parses as one of the three literals |
| Schemas.NumberIssues | src/libs/supabase/schemas.ts:37-38 | an optional number passes iff it is missing or a number within its lower bound and its upper bound when there is one |
| Schemas.OptionalTextIssues | src/libs/supabase/schemas.ts:35 | an optional search text passes iff it is missing or a string |
| Schemas.IssuesOfAppend | src/libs/supabase/schemas.ts:7-28 | the issues reported for a field in two joined violation lists are the issues from each list, in order |
| Schemas.IssuesOfTag | src/libs/supabase/schemas.ts:7-28 | a tagged list reports its issues for its own field and none for any other field |
| Schemas.FieldsAreIndependent | src/libs/supabase/schemas.ts:7-28 | the violations a record reports for a field are exactly that field's own issues, whatever the other fields hold |
| Schemas.NoViolations | src/libs/supabase/schemas.ts:7-28 | a record has no violations iff each of its six fields has no issue |
| Schemas.EnumLiterals | src/libs/supabase/schemas.ts:4 | parsing succeeds exactly on the enumeration literals |
| Schemas.ValidateCreate | src/libs/supabase/schemas.ts:7-28 | accepted iff every field meets its create rule; a rejection carries every field's violations and is never empty; an accepted record keeps its strings, keeps missing nullable keys missing, and defaults a missing status to `active` |
| Schemas.ValidateUpdate | src/libs/supabase/schemas.ts:31 | accepted iff every present field meets its create rule; a missing key stays missing in the patch, and no status default is injected |
| Schemas.ValidateFilters | src/libs/supabase/schemas.ts:34-39 | accepted iff search is a string, status is a literal, limit is in 1..100 and offset is at least 0 (each when present); the accepted filters carry exactly the given values |
| Schemas.StatusNameInjective | src/libs/supabase/schemas.ts:4 | distinct statuses have distinct literals |
| Schemas.RawOfNullableOf | src/libs/supabase/schemas.ts:15-26 | normalising an accepted nullable value and writing it back gives the same input |
| Schemas.CreateAcceptedUpdateAccepts | src/libs/supabase/schemas.ts:7-31 | a record accepted on create is accepted on update, with every field carried over unchanged |
| Schemas.NormalisedRevalidates | src/libs/supabase/schemas.ts:7-31 | a normalised insert, written back as input, validates to itself on create and to the full patch on update |
| Schemas.NameLengthBoundary | src/libs/supabase/schemas.ts:8-10 | a name of 100 characters passes; one of 101 is reported as too big and, with otherwise valid fields, is the only violation |
| Schemas.EmptyNameAndBadEmail | src/libs/supabase/schemas.ts:7-28 | an empty name and a malformed email are both reported, the name first |
| ClientQuery.Fold | src/libs/supabase/clients.ts:31 | case folding keeps the length and lowers each character |
| ClientQuery.FoldIdempotent | src/libs/supabase/clients.ts:31 | folding twice is folding once |
| ClientQuery.ContainsTextIgnoresCase | src/libs/supabase/clients.ts:31 | the search match does not depend on the case of either text |
| ClientQuery.SubstringContains | src/libs/supabase/clients.ts:31 | any text that occurs in a column, at any position, matches it |
| ClientQuery.HoldsAllSnoc | src/libs/supabase/clients.ts:30-37 | adding a predicate to a descriptor and-combines it with the ones already there |
| ClientQuery.LeaderExists | src/libs/supabase/clients.ts:27 | every non-empty set of rows has a row listed before all the others |
| ClientQuery.Leader | src/libs/supabase/clients.ts:27 | the chosen row is listed before every other row of the set |
| ClientQuery.Rank | src/libs/supabase/clients.ts:27 | the ordering lists each selected id exactly once, newest first |
| ClientQuery.Rows | src/libs/supabase/clients.ts:26 | the listed rows are the stored rows of the ranked ids, in order |
| ClientQuery.RankedNewestFirst | src/libs/supabase/clients.ts:27 | the ranked rows are in descending order of creation time |
| ClientQuery.BuildQuery | src/libs/supabase/clients.ts:24-46 | the descriptor is newest first; it has one predicate for a non-empty search and one for a status; it selects exactly the rows the filters admit; and its window cuts exactly the page the filters ask for |
| ClientQuery.Slice | src/libs/supabase/clients.ts:40-46 | a kept window is no longer than the matching rows, and a range keeps the run from its start up to its end; a negative count or offset is refused, and an offset past the last matching row is refused as an unsatisfiable range |
| ClientQuery.Admits | src/libs/supabase/clients.ts:30-37 | with no status and no or empty search text every row is selected; a row selected by a search that its name and email do not contain has a company, so a NULL company never matches |
| ClientQuery.Page | src/libs/supabase/clients.ts:39-46 | a kept page is no longer than the matching rows, than the limit, or than 10 with only an offset; the window is refused as an unsatisfiable range iff the offset is present, non-negative and past the last matching row |
| ClientQuery.PageIsRun | src/libs/supabase/clients.ts:39-46 | a kept page starts within the matching rows and is the consecutive run from the offset (or the top), holding the limit, or 10 with an offset, or every row with neither |
| ClientQuery.PageKeepsOrder | src/libs/supabase/clients.ts:39-46 | the page keeps the relative order of the ordered rows |
| ClientQuery.PageKeepsNewestFirst | src/libs/supabase/clients.ts:27 | a page of rows that are newest first is itself newest first |
| ClientQuery.PageRefused | src/libs/supabase/clients.ts:39-46 | the engine refuses the window for a negative value exactly when the offset, the row count or the limit it receives is negative, and as an unsatisfiable range exactly when a non-negative offset lies past the last matching row |
| ClientRepository.Failed | src/libs/supabase/clients.ts:48-60 | a call that is not delivered either throws or answers the storage error with no data |
| ClientRepository.ShapeList | src/libs/supabase/clients.ts:48-60 | an error comes with no rows and a zero count; a thrown fault gives the generic message; on success a null list is empty, the rows are passed through, and the count is the reply's count, 0 when it is null |
| ClientRepository.ShapeItem | src/libs/supabase/clients.ts:73-84 | an error comes with no row; a thrown fault gives the generic message; on success the row is passed through |
| ClientRepository.ShapeDelete | src/libs/supabase/clients.ts:149-160 | success is reported iff no error was reported; a thrown fault gives the generic message |
| ClientRepository.Execute | src/libs/supabase/clients.ts:24-48 | a delivered query is answered; on success the count is the number of rows matching every predicate, and the page holds no more rows than that |
| ClientRepository.ListClients | src/libs/supabase/clients.ts:22-62 | an error comes with no rows and a zero count; on success the count is the number of admitted rows and the page is no longer; it succeeds iff the call is delivered, the offset is within the admitted rows and no value of the window is negative |
| ClientRepository.ListedIsPage | src/libs/supabase/clients.ts:24-56 | a successful listing is delivered, answers the page the filters cut from the ranked admitted rows, and counts all admitted rows |
| ClientRepository.ListedWindow | src/libs/supabase/clients.ts:39-56 | a successful listing is exactly the rows at positions offset, offset + 1, ... of the newest-first ranking of the admitted rows, none repeated and none skipped |
| ClientRepository.UnwindowedListsEveryHit | src/libs/supabase/clients.ts:24-56 | with neither a limit nor an offset, every admitted row is listed |
| ClientRepository.ListedRowsMatch | src/libs/supabase/clients.ts:30-37 | every listed row is a stored row with the requested status that contains the search text in its name, email or company |
| ClientRepository.ListedNewestFirst | src/libs/supabase/clients.ts:27 | listed rows are in descending order of creation time |
| ClientRepository.ListCounts | src/libs/supabase/clients.ts:39-56 | on success the count is the number of matching rows, an offset lies within them, and the page length follows the three window cases |
| ClientRepository.CountIgnoresWindow | src/libs/supabase/clients.ts:26 | the count is the same with or without limit and offset |
| ClientRepository.ListErrors | src/libs/supabase/clients.ts:48-60 | an error comes only from the transport or from a refused window, always with no rows and a zero count; the unsatisfiable-range error is answered iff a non-negative offset lies past the last admitted row |
| ClientRepository.OffsetPastEnd | src/libs/supabase/clients.ts:45-53 | five pending clients from offset 10, with three pending, are refused with no rows and a zero count |
| ClientRepository.GetClientById | src/libs/supabase/clients.ts:65-85 | the row is answered iff the call is delivered and the id is stored; a missing id gives the single-row error and no row; faults give their message |
| ClientRepository.NewRow | src/libs/supabase/clients.ts:92-96 | the inserted row has the issued id, the caller's name, email and status, a nullable column set iff the caller gave a string, and the two clock readings as timestamps |
| ClientRepository.Patched | src/libs/supabase/clients.ts:119-122 | every column the patch supplies is overwritten with it (a caller-supplied `created_at` included), every other column is kept, and `updated_at` is the clock reading |
| ClientRepository.CreateStep | src/libs/supabase/clients.ts:88-112 | a create succeeds iff it is delivered; then it adds exactly the next id to the table, advances the counter and answers the new row; a failure changes nothing |
| ClientRepository.UpdateStep | src/libs/supabase/clients.ts:115-139 | an update succeeds iff it is delivered and the id is stored, and then answers the rewritten row; it never adds or removes a row; a failure changes nothing and answers no row |
| ClientRepository.DeleteStep | src/libs/supabase/clients.ts:142-161 | a delete succeeds iff it is delivered, and then the table's ids lose exactly that id; the counter is unchanged |
| ClientRepository.DeleteManyStep | src/libs/supabase/clients.ts:164-183 | a batch delete succeeds iff it is delivered, and then exactly the listed ids leave the table; the counter is unchanged |
| ClientRepository.CreateAddsOneRow | src/libs/supabase/clients.ts:88-106 | a delivered create stores exactly one new row under an id never issued before, keeps every other row, answers the stored row, and keeps the table consistent |
| ClientRepository.CreateStampsTimes | src/libs/supabase/clients.ts:92-96 | the stored row keeps the caller's columns; its timestamps are the clock readings whatever timestamps the caller supplied |
| ClientRepository.CreateThenGet | src/libs/supabase/clients.ts:65-106 | fetching a created row by its id answers what the create answered |
| ClientRepository.IdsNeverReused | src/libs/supabase/clients.ts:88-98 | a row created after a delete never gets the deleted row's id |
| ClientRepository.UpdateTouchesOneRow | src/libs/supabase/clients.ts:115-133 | a delivered update overwrites exactly the supplied columns (a supplied `created_at` included) and `updated_at`, and keeps every other row, the key set and consistency |
| ClientRepository.UpdateMissingId | src/libs/supabase/clients.ts:117-131 | updating a missing id answers the single-row error, creates no row and changes nothing |
| ClientRepository.UpdateIdempotent | src/libs/supabase/clients.ts:117-123 | applying the same update twice at the same time gives the same row as once |
| ClientRepository.EmptyPatchOnlyStamps | src/libs/supabase/clients.ts:119-122 | an update that supplies no column only refreshes `updated_at` |
| ClientRepository.DeleteRemovesExactly | src/libs/supabase/clients.ts:142-155 | a delivered delete removes exactly the row with that id, keeps the others, and succeeds whether or not a row matched |
| ClientRepository.DeleteTwice | src/libs/supabase/clients.ts:142-155 | deleting the same id twice succeeds both times, and the second call changes nothing |
| ClientRepository.DeleteManyRemovesExactly | src/libs/supabase/clients.ts:164-177 | a delivered batch delete removes exactly the listed ids, keeps the others, and succeeds even when none matched |
| ClientRepository.FaultsChangeNothing | src/libs/supabase/clients.ts:57-183 | a call that does not reach the table changes nothing, and every operation answers the failure envelope with the storage message, or the generic message when the call throws |
| ClientRepository.ClientTable.GetClients | src/libs/supabase/clients.ts:22-62 | building the query, running it and shaping the reply answers exactly the filtered, ordered, windowed listing |
| ClientRepository.ClientTable.CreateClient | src/libs/supabase/clients.ts:88-112 | the new table and the answer are those of the create step, and the table stays consistent |
| ClientRepository.ClientTable.UpdateClient | src/libs/supabase/clients.ts:115-139 | the new table and the answer are those of the update step, and the table stays consistent |
| ClientRepository.ClientTable.DeleteClient | src/libs/supabase/clients.ts:142-161 | the new table and the answer are those of the delete step, and the table stays consistent |
| ClientRepository.ClientTable.DeleteClients | src/libs/supabase/clients.ts:164-183 | the new table and the answer are those of the batch delete step, and the table stays consistent |
| Composition.AcceptedCreateConforms | src/views/clients/ClientCreateView.tsx:42-59 | creating from input the create schema accepted stores a row that meets every schema bound, `active` when no status was given |
| Composition.AcceptedUpdateConforms | src/views/clients/ClientEditView.tsx:51-99 | updating a conforming row with input the update schema accepted keeps it conforming and keeps its id and creation time |
| Composition.AcceptedFiltersList | src/libs/supabase/schemas.ts:34-39 | a hypothetical composition, since the list view passes its filters unvalidated: filters the filter schema accepted are refused only as an unsatisfiable range, exactly when the offset lies past the last admitted row; on success a page holds at most the limit (so at most 100), or 10 with only an offset |
| Composition.SubmitCreate | src/views/clients/ClientCreateView.tsx:42-59 | rejected input reports its violations and leaves the table unchanged; accepted input is written as a create |
| Composition.SubmitUpdate | src/views/clients/ClientEditView.tsx:51-99 | rejected input reports its violations and leaves the table unchanged; accepted input is written as an update |
| Composition.MinimalCreate | src/views/clients/ClientCreateView.tsx:42-59 | a form with only a name and an email creates an `active` client with no phone, company or address, under the next id |

## Left out

- The storage service's client and transport are not modelled, nor the `console.error` logging. An in-memory table stands in for the `clients` table. A `Transport` parameter chooses between a delivered call, a storage error and a thrown fault.
- The email syntax check is a parameter (`isEmail`). The regular expression behind it belongs to the validation library and is not part of this model.
- String lengths are counted as sequence length. The validation library counts UTF-16 code units, so a character outside the Basic Multilingual Plane counts as one here and as two there.
- `limit` and `offset` are integers. Fractional numbers, which the number schema accepts, are not modelled.
- The search text is treated as literal data. The source interpolates it unescaped into the filter string. There, `%` and `_` act as wildcards, and commas or parentheses change the filter's structure. None of that is modelled.
- The schemas follow the `partial` and `default` semantics of zod 3: an optional field left out stays out, so the update schema injects no status default. Zod 4 applies an inner default inside an optional field, and under it `ValidateUpdate` would differ for a missing status.
- Case-insensitive matching folds only the ASCII letters A–Z. The database's full case folding is not modelled.
- Rows created at the same instant are listed by ascending id. The source leaves their order unspecified, and the lemmas promise only descending creation time.
- A negative offset, row count or limit is modelled as a storage error. The filter schema would reject such values, but `getClients` does not validate its filters itself.
- An offset past the last matching row is refused as an unsatisfiable range, as the storage service does for a query that asks for an exact count. That refusal is the service's behaviour, not code of this module.
- A call whose write is applied but whose reply is lost is not modelled. The `Transport` parameter decides before the table is touched, so `FaultsChangeNothing` covers only faults that happen before the write.
- Ids are natural numbers issued by a counter in the table. The database's id type and generation are not modelled, and neither is an `id` supplied inside an insert or update payload.
- A nullable column left out of an insert is stored as NULL. The column defaults of the database schema are not part of this model.
- `NotSingleError`, `NegativeWindowError` and `RangeError` stand for the storage service's messages. Their exact wording comes from that service.
- Create takes two clock readings, one per timestamp, as the source takes two. Clocks are parameters.
- The React views, routing, timers and display helpers are not modelled. The form-then-service flow is covered by the `Composition` members only.
- `src/libs/supabase/index.ts` only re-exports, and is not part of this model.
- The custom error messages the schemas attach to each check are not modelled. A violation names its field and the kind of check that failed.
