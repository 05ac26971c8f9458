# ArsipKita memory board — a Dafny model of its list cache and its store

ArsipKita is a password-gated photo board. The browser keeps a list of memories
(image, title, description, date, and cosmetic rotation and sway animation). It
mirrors the list in a local-storage snapshot and synchronises it with a Google
Sheet. An Apps Script web app serves that sheet as a tiny HTTP store. This
project models the parts of that system with behaviour worth stating:

- `App` (App.tsx) is the controller, a class over the component state and the
  two local-storage slots. It covers the cache-first `loadMemories`, the
  create-then-reload `handleAddMemory` and the optimistic `confirmDelete` with
  rollback. It also covers the login flag (mount check, login, logout) and the
  pure `filteredMemories` search.
- `Api` (services/api.ts, client half) holds the record and wire types. It
  filters a fetched list down to valid rows and sorts it newest first. It also
  has the `status === 'success'` check of the three mutating calls.
- `Backend` (services/api.ts, the Apps Script kept in a comment) is a class
  `Sheet` over a sequence of rows. `doPost` create appends a row, delete scans
  upward and removes the last match, and update rewrites the first match.
  `doGet` maps the data rows to JSON records.
- `Auth` (api/auth.js) is the password endpoint: a pure function from method,
  password field and configured password to status code and `success` flag.
- `Common` and `Strings` are shared helpers: an option type, an
  order-keeping filter, ASCII lowering, substring and prefix tests, and decimal
  rendering.

The login, load and delete handlers are each split at their `await` into a
method for the part before and a method for the part after. A third method runs
the two back to back, so the state a user sees while the request is in flight is
stated too. `handleAddMemory`, which awaits the create and then the reload, is
one method that runs `LoadMemories` after a successful create reply.
Everything outside the browser's memory is a parameter:
- the GET response is `Some(rows)` or `None` for any failure;
- a POST is a function from the body sent to the reply;
- Drive's file id for an upload is `Some(id)` or `None` when storing failed;
- `new Date(d).getTime()` and `toLocaleDateString` are the functions `timeOf`
  and `formatDate`;
- the random sway pick is an index below 3.

`api.fetchMemories` catches every network and decoding error and returns `[]`.
So in `loadMemories` (App.tsx:70-78) a failed fetch does not keep the stale
snapshot on screen. It overwrites both the list and the snapshot with the empty
list (`App.Controller.CompleteLoad`). The `catch` branch at App.tsx:74-75 is then
reached only when the snapshot write itself throws, which the model leaves out
(see below).

## Model

| member | source | states |
|---|---|---|
| `App.Controller.constructor` | App.tsx:14-25 | initial state: not authenticated, auth check pending, empty list, spinner on, no pending delete; storage slots hold what the browser already had |
| `App.Controller.CheckStoredAuth` | App.tsx:32-38 | the login is restored exactly when the stored flag is the string 'true'; the auth check is then finished |
| `App.Controller.TypePassword` | App.tsx:201-204 | typing sets the input and clears a previous login error |
| `App.Controller.BeginLogin` | App.tsx:87-90 | before the request: error cleared, verifying on |
| `App.Controller.FinishLogin` | App.tsx:92-114 | an accepted reply sets the login, stores the flag 'true' and clears the error; a refusal or failed request sets the error and changes neither the login nor the flag; verifying is off either way |
| `App.Controller.HandleLogin` | App.tsx:87-115 | the whole login handler, with the same outcome as its second half |
| `App.LoginAcceptsExactlyThePassword` | App.tsx:94-104 | with the real auth endpoint behind it, a typed password logs in if and only if it equals the configured password (default "1234") |
| `App.Controller.Logout` | App.tsx:117-121 | logout clears the login, removes the stored flag and empties the password input |
| `App.Controller.SetSearchTerm` | App.tsx:269 | the search box sets the term the list is filtered by |
| `App.Controller.BeginLoad` | App.tsx:49-68 | the snapshot is used if and only if it is a parsed, non-empty array; it then becomes the list, the spinner goes off and list and snapshot agree; a missing, unparsable, non-array or empty snapshot leaves the list alone and turns the spinner on |
| `App.Controller.CompleteLoad` | App.tsx:70-78 | after the fetch, list and snapshot both equal the fetched list and the spinner is off; a failed fetch leaves both empty |
| `App.Controller.LoadMemories` | App.tsx:49-79 | whatever the snapshot held, the load ends with list and snapshot equal to the fetched list and the spinner off |
| `App.Controller.HandleAddMemory` | App.tsx:123-141 | the payload sent is the draft with the generated id, rotation and a sway class that is one of the three; on success the list, snapshot and spinner are what a reload gives and the dialog closes; on failure list, snapshot, spinner and dialog are unchanged (no local insert) |
| `App.Controller.RequestDelete` | App.tsx:143-145 | clicking delete makes that id the pending one |
| `App.Controller.CancelDelete` | App.tsx:353 | closing the dialog clears the pending id |
| `App.Controller.BeginDelete` | App.tsx:147-155 | with no pending id (null or empty) nothing changes; otherwise the list loses every record with that id, the snapshot equals the new list, the pending id is cleared, and the old list is kept for rollback |
| `App.Controller.FinishDelete` | App.tsx:157-162 | if the store confirms, nothing more changes; if not, list and snapshot are both restored to exactly the pre-delete list |
| `App.Controller.ConfirmDelete` | App.tsx:147-164 | the whole delete: no pending id changes nothing; otherwise the pending id is cleared, the snapshot equals the list, and the list is the old one minus that id if the store confirmed, else exactly the old one |
| `App.FilteredMemories` | App.tsx:166-174 | a memory is shown if and only if it is in the list and the lowered term occurs in its lowered title, description or formatted date; each shown memory appears exactly as often as in the list, and the result is no longer than the list; an empty term shows the whole list unchanged |
| `App.FilteredMemoriesKeepOrder` | App.tsx:166 | the search keeps list order: filtering a concatenation is concatenating the filtered parts |
| `App.WithoutId` | App.tsx:150 | a record survives the optimistic removal if and only if its id differs; every copy of a surviving record is kept |
| `App.WithoutIdKeepsOrder` | App.tsx:150 | survivors of the removal keep their relative order |
| `App.WithoutAbsentId` | App.tsx:150 | removing an id no record has leaves the list as it was |
| `Api.InsertByDate` | services/api.ts:155 | inserting into a newest-first list adds exactly that record and keeps the list newest first |
| `Api.SortNewestFirst` | services/api.ts:155 | the sort returns a permutation of its input whose dates never increase |
| `Api.SortKeepsNewestFirst` | services/api.ts:155 | an already newest-first list, ties included, comes back unchanged, so sorting twice equals sorting once |
| `Api.FetchMemories` | services/api.ts:143-160 | a failure yields []; otherwise the result holds a record if and only if the response did and it has a non-empty id and an image URL that is non-empty, longer than 20 characters and free of "undefined"; it is a permutation of that valid subset, newest first |
| `Api.FetchKeepsEveryCopy` | services/api.ts:150-153 | every copy of a valid row is returned, no copy of an invalid one |
| `Api.AddMemory` | services/api.ts:162-183 | true if and only if the reply to `{action: 'create', ...memory}` is status 'success'; a thrown request gives false |
| `Api.UpdateMemory` | services/api.ts:185-208 | true if and only if the reply to `{action: 'update', id, title, description}` is status 'success' |
| `Api.DeleteMemory` | services/api.ts:210-231 | true if and only if the reply to `{action: 'delete', id}` is status 'success' |
| `Backend.StatusWord` | services/api.ts:78-81 | the client reads a store reply as success if and only if the store reported success |
| `Backend.LastMatch` | services/api.ts:64-65 | the index found is a row whose id reads as the requested one with no such row after it; none found means no row matches |
| `Backend.FirstMatch` | services/api.ts:88-89 | the index found is a matching row with no match before it; none found means no row matches |
| `Backend.RemoveAt` | services/api.ts:77 | deleting a row shifts the rows after it up by one and keeps those before it |
| `Backend.ServedImage` | services/api.ts:112-120 | the served image is empty if and only if the cell is; text starting with "http" is kept; any other non-empty text gets the base64 JPEG data prefix, even text that already carries it; every non-empty result is an http URL or a data URL |
| `Backend.Records` | services/api.ts:110-132 | `doGet` yields at most one record per row, each with a truthy id |
| `Backend.RecordsConcat` | services/api.ts:110-131 | `doGet` output follows row order: records of a concatenation are the concatenated records |
| `Backend.RecordsFromRows` | services/api.ts:110-131 | a record is served if and only if some row with a truthy id maps to it |
| `Backend.DeleteUndoesCreate` | services/api.ts:47-81 | deleting the id of the row just appended finds that row and restores the sheet as it was before the create |
| `Backend.ThumbnailPrefixShape` | services/api.ts:44 | the thumbnail prefix starts with "http", is longer than 20 characters, ends in '=' and does not contain "undefined" |
| `Backend.CreatedImagePassesClientCheck` | services/api.ts:44-55 | a row created by the store is served with its thumbnail URL unchanged, and that URL passes the client's image check unless the Drive file id contains "undefined" |
| `Backend.Sheet.constructor` | services/api.ts:27 | the sheet's data range |
| `Backend.Sheet.Create` | services/api.ts:31-58 | once Drive stores the image, exactly one row is appended (id, date, title, description, thumbnail URL, rotation defaulting to 0, sway class defaulting to '') and all existing rows are unchanged; a Drive failure gives 'error' and leaves the sheet alone |
| `Backend.Sheet.Delete` | services/api.ts:60-82 | 'success' if and only if some row matches; then exactly that last matching row is removed; otherwise 'error' and the sheet is unchanged |
| `Backend.Sheet.Update` | services/api.ts:84-96 | 'success' if and only if some row matches; then only the title and description cells of the first matching row change; otherwise 'error' and the sheet is unchanged |
| `Backend.Sheet.DoPost` | services/api.ts:22-103 | dispatch on the action, with the outcome of create, delete or update |
| `Backend.Sheet.DoGet` | services/api.ts:105-135 | the result is the record of every row below the header that has a truthy id, in row order, image column normalised; the sheet is not changed |
| `Auth.ExpectedPassword` | api/auth.js:11 | the configured password, or "1234" when it is unset or empty; never empty |
| `Auth.Handler` | api/auth.js:1-25 | a non-POST gets 405; a missing body gets 500; otherwise 200 with success true if and only if the password, coerced to a string, equals the expected one, else 401 with success false |
| `Auth.NumberJudgedAsItsDigits` | api/auth.js:16 | a numeric password gets exactly the reply its decimal text would get, so it is accepted if and only if its digits spell the expected password |
| `Auth.NumericDefaultAccepted` | api/auth.js:16 | because the comparison is on strings, the number 1234 and the text "1234" are both accepted under the default |

## Left out

- Markup, styling, dark mode, and the modal and card components: presentation only.
- The caption generator (services/gemini.ts, api/analyze.js) is not part of this model; its only logic is a fixed fallback pair.
- Concurrency: each half of a handler is one atomic step. Overlapping handlers and React's batching of state writes are not modelled. The Apps Script lock is left out, and so is its unchecked `tryLock` result.
- The effect that starts `loadMemories` whenever the login flag turns true (App.tsx:81-85) is not modelled as a trigger; `LoadMemories` is a step the caller runs.
- `fetch`, JSON parsing and stringifying, and `localStorage` are replaced by the parameters and fields above. A snapshot that parses to an array of non-memory values is not distinguished from one of memories.
- Drive upload, sharing and trashing of the image file are left out. This includes the swallowed trashing error in delete (services/api.ts:66-75), which never affects the rows.
- Floating point: the rotation is an integer. `Math.random()` is replaced by a parameter, and for the sway class by an index below 3.
- Dates: `new Date(...).getTime()` and `toLocaleDateString('id-ID', ...)` are uninterpreted function parameters. Invalid dates (a NaN comparator result) are not modelled.
- `Api.SortNewestFirst`: the model sorts stably, as `Array.prototype.sort` must; stability itself is not stated beyond `Api.SortKeepsNewestFirst`.
- The `alert` shown on a failed create or delete (App.tsx:139, 161) and the `console.error` logging are left out: they change no state.
- String lengths count characters, while JavaScript's `length` counts UTF-16 code units; this affects only the `length > 20` image check (services/api.ts:151) for text outside the Basic Multilingual Plane.
- `toLowerCase` is modelled for ASCII letters only; other Unicode case mappings are not.
- Sheet cells are text or whole numbers below 2^53 in magnitude, the range in which a sheet number is exact and its `toString()` has no exponent; an empty cell is empty text. Date, boolean and fractional cells are not modelled, and neither is the Sheets coercion of written text into numbers or dates. Rows are exactly seven columns wide.
- `doPost` bodies with an unknown action (which get no reply) and bodies missing the id field are not modelled; the client only sends the three actions with their fields.
- The password field's value is a string, a whole number below 2^53 in magnitude, a boolean, null or undefined. Objects and arrays are not modelled, and neither are their `String(...)` renderings. Fractional numbers, numbers from 2^53 up (which JSON parsing rounds) and the exponent form `String` uses from 1e21 up are not modelled either.
- `localStorage.setItem` is assumed to succeed. In the source it can throw, for example when the quota is full:
  - in `CompleteLoad` (App.tsx:73) the list is then set but the snapshot keeps its old value;
  - in `BeginDelete` (App.tsx:153) the handler stops after shrinking the list, before clearing the pending id and sending the delete;
  - in `FinishDelete` (App.tsx:160) the list is restored but the snapshot is not;
  - in `FinishLogin` (App.tsx:104) an accepted login also sets the error flag.
