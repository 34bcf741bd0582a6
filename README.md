# Assessment record store — a Dafny model of `js/db.js`

The CKD risk-assessment web app keeps each computed assessment in the
browser's IndexedDB (Indexed Database API 3.0). The `js/db.js` module holds a
module-level handle `db`. It exports five operations:

- `openDB` opens database `CKD_Prediction_DB` at version 1. Its upgrade step
  creates the `assessments` object store, keyed in-line by `id` with a key
  generator, and the non-unique indexes `by_date` (on `timestamp`) and
  `by_risk` (on `riskScore`). It does this only when the store is missing.
- `saveAssessment` copies the payload, overwrites `timestamp` with the current
  time, `add`s it and resolves with the key.
- `getAllAssessments` reads every record through `by_date` and sorts it newest
  first.
- `getAssessmentById` resolves with the record or rejects with "Assessment not
  found".
- `deleteAssessment` resolves with `true` whether or not the key existed.

Every data operation first rejects with "Database not initialized" when no
handle is set.

The model has five parts:

- `JsValues` (js_values.dfy): record property values, records as maps from
  property name to value, and IndexedDB keys (numbers and strings).
- `NewestFirst` (newest_first.dfy): the newest-first order and the sort of
  `getAllAssessments`, as an insertion sort, proved to be a permutation that is
  non-increasing by timestamp.
- `DbSpec` (db_spec.dfy): the whole database as a value (`DbState`). It holds
  the handle, the on-disk version, whether the store exists, its indexes, its
  records and the key generator's current number. Each operation is a pure
  step returning the next state and an `Outcome`: `Ok(v)`, `NotInitialized`,
  `NotFound`, `InvalidKey` or `TxFailed`. The invariant `Valid` is preserved
  by every step, and the lemmas about the steps live here too.
- `Db` (db.dfy): class `AssessmentStore`, whose fields are the module's state.
  Its methods update those fields in place. For opening, upgrading, saving,
  looking up and deleting, the method's outcome and new state equal those of
  the matching `DbSpec` step. `GetAllAssessments` has no step function: it
  collects the records in an order the model leaves open, sorts them, and is
  specified by the predicate `DbSpec.IsListing`.
- `KeyHistory` (key_history.dfy): runs any sequence of page reloads, opens,
  saves and deletes. It proves that the keys the generator hands out strictly
  increase, across reloads too.

Inputs the host decides are parameters:

- `now` is the wall-clock time of `new Date().getTime()`.
- `succeeds` says whether the open request fires `success`.
- `fault` says whether a data request reports an error on the request itself:
  an I/O error, say, or a constraint error.

A failed request leaves the state unchanged. Indexed Database API 3.0 reverts
a failed operation together with its change to the key generator.

Three behaviours of the code that a reader of the API might not expect; the
model follows the code:

- `openDB` is not idempotent. Each successful call opens a new connection, and
  the handle is overwritten with it (`js/db.js:18-22`). A failed call leaves
  any earlier handle in place. See `DbSpec.OpenTwiceReplacesHandle`.
- A caller-supplied `id` is not discarded. The spread at `js/db.js:56-59` keeps
  it, so IndexedDB stores the record under that key. `add` then fails if the
  key is taken, and a number at or above the generator's current number moves
  the generator past it. An `id` that is not a valid key (a boolean, `null`)
  makes `add` throw. An `id` property holding `undefined` counts as no `id`:
  the generator's key is injected (`DbSpec.IdFree`). See
  `DbSpec.SaveHonoursCallerId`.
- The listing is non-increasing by timestamp, not strictly decreasing. Two
  saves in the same millisecond tie. See `DbSpec.SameMillisecondSaves`.

## Model

| member | source | states |
|---|---|---|
| `JsValues.KeyOf` | js/db.js:29-32 | a record's `id` is a valid key exactly when it is a number or a string, and the key written back into the record is that same value |
| `NewestFirst.SortIsPermutation` | js/db.js:90 | the sorted listing holds exactly the fetched records, each as often as fetched |
| `NewestFirst.SortIsNewestFirst` | js/db.js:90 | the sorted listing is non-increasing by `timestamp` (newest first) |
| `NewestFirst.ListingOfTwo` | js/db.js:88-93 | two records with different timestamps have only one newest-first listing: the newer one first |
| `NewestFirst.TiesDefeatStrictOrder` | js/db.js:90 | two different records with the same timestamp cannot be listed strictly newest first |
| `NewestFirst.Insert` | js/db.js:90 | one step of the sort: the result is one record longer, and it starts with the inserted record or with the old first record |
| `NewestFirst.SortNewestFirst` | js/db.js:90 | the sort keeps the number of records (its order and permutation facts are the two lemmas above) |
| `DbSpec.Stamp` | js/db.js:55-59 | the object handed to `add` has the payload's properties verbatim, plus `timestamp` set to the save time, replacing any value the payload had |
| `DbSpec.Advance` | js/db.js:29-32 | storing under an explicit numeric key at or past the generator's number moves the generator past it (capped at 2^53); smaller numbers and strings leave it where it was, and it never moves back |
| `DbSpec.Upgrade` | js/db.js:24-40 | after the upgrade step the store exists. An existing store is left as it was; a missing one is created empty, with both indexes and the generator at 1. Handle, connections and version are untouched |
| `DbSpec.Open` | js/db.js:9-42 | a failed open rejects and changes nothing. A successful one opens connection number `connections + 1`, sets the handle to it and resolves with it, leaves the database at version 1 or later, and, from a valid state, leaves the store and both indexes present. An existing store keeps its records and generator |
| `DbSpec.Save` | js/db.js:45-73 | with no handle the save rejects as "not initialized". A failed write makes it reject, unless `add` already threw for an invalid key; it succeeds only with the handle set and the write going through. Any rejection changes nothing. `add` throws a DataError exactly when the payload has an `id` that is not a valid key. A success adds exactly the returned key and, in a valid state, that key was free and the other records are unchanged. The generator never moves back. Handle, connections, version, store and indexes are untouched |
| `DbSpec.GetById` | js/db.js:103-128 | with no handle the lookup rejects as "not initialized". It resolves exactly when the handle is set, the read goes through and the key is stored, and then with the stored record. It reports "not found" exactly when the key is absent |
| `DbSpec.Delete` | js/db.js:131-152 | the delete resolves with `true` exactly when the handle is set and the write goes through, and then the key is gone. Otherwise nothing changes. No other key appears or disappears, no record changes, and the generator, handle and indexes are untouched |
| `DbSpec.IsListing` | js/db.js:85-92 | a listing holds every stored record and nothing else, newest first |
| `DbSpec.AbsentIsValid` | js/db.js:6 | the state before the database exists and before `openDB` runs satisfies the store's invariant |
| `DbSpec.OpenKeepsValid` | js/db.js:9-42 | `openDB`, succeeding or failing, keeps the invariant: a set handle implies the store and both indexes exist, every record holds its key in `id` and a numeric `timestamp`, and the generator is past every numeric key, where a key above 2^53 counts as 2^53 |
| `DbSpec.SaveKeepsValid` | js/db.js:45-73 | `saveAssessment`, on every path, keeps the invariant |
| `DbSpec.DeleteKeepsValid` | js/db.js:131-152 | `deleteAssessment`, on every path, keeps the invariant |
| `DbSpec.GuardBeforeOpen` | js/db.js:47-50 | with no handle set, save, lookup and delete all report "not initialized" and leave the state unchanged (the same guard stands at lines 78-81, 105-108 and 133-136) |
| `DbSpec.FailuresChangeNothing` | js/db.js:68-71 | a save, delete or open whose promise rejects leaves the whole state as it was |
| `DbSpec.SaveStoresStampedPayload` | js/db.js:55-61 | a successful save adds exactly one record, under a key not in use before. The record is the payload verbatim except that `timestamp` is the save time and `id` is the key. Handle, schema and indexes are unchanged |
| `DbSpec.SaveGeneratesFreshKey` | js/db.js:61-66 | for an id-free payload the key is the generator's current number, larger than every numeric key in the store (capped at 2^53), and the generator moves past it |
| `DbSpec.IdFreeSaveSucceeds` | js/db.js:61-66 | with the database open and the write going through, an id-free save succeeds exactly when the generator's current number is at most 2^53 |
| `DbSpec.SaveHonoursCallerId` | js/db.js:56-61 | a caller-supplied `id` is kept. An invalid key makes `add` throw; a taken key makes the request fail with nothing changed; a free key becomes the record's key |
| `DbSpec.SaveThenGet` | js/db.js:112-117 | round trip: looking up the key a save returned yields the payload with `timestamp` set to the save time and `id` set to the key |
| `DbSpec.MissingKeyAsymmetry` | js/db.js:114-120 | an absent key makes lookup report "not found", while deleting it succeeds and leaves the state unchanged |
| `DbSpec.PresentKeyFound` | js/db.js:112-117 | a present key is found, and the record returned carries that key in `id` |
| `DbSpec.DeleteRemovesExactly` | js/db.js:140-145 | a delete that goes through reports success and removes exactly that key. Every other record, the generator, the handle and the indexes are unchanged, and a later lookup of the key reports "not found" |
| `DbSpec.DeleteIdempotent` | js/db.js:140-145 | deleting the same key a second time succeeds and changes nothing |
| `DbSpec.UpgradeOnlyAddsMissing` | js/db.js:24-40 | the upgrade step creates the store and both indexes only when the store is absent. On an existing store it changes nothing, so it is idempotent and keeps the records |
| `DbSpec.OpenPreparesStore` | js/db.js:11-22 | a successful open leaves the handle set to the new connection, the database at version 1, the store and both indexes present, and the stored records and generator unchanged |
| `DbSpec.OpenTwiceReplacesHandle` | js/db.js:18-22 | a second successful open yields a different connection and overwrites the handle; the records stay the same |
| `DbSpec.GeneratedPair` | js/db.js:56-66 | two id-free saves get consecutive generated keys and store two different records with the same timestamp |
| `DbSpec.SameMillisecondSaves` | js/db.js:58 | two id-free saves at the same time store two different records with equal timestamps, so no listing can be strictly newest first |
| `Db.AssessmentStore.constructor` | js/db.js:6 | the page starts with no handle, in a profile where the database does not exist yet |
| `Db.AssessmentStore.Reload` | js/db.js:6 | the page starts with no handle, in a profile where the database already exists on disk with any valid schema, records and generator earlier sessions left |
| `Db.AssessmentStore.OpenDB` | js/db.js:9-42 | the new fields and the outcome are those of `DbSpec.Open`, and the invariant is kept |
| `Db.AssessmentStore.UpgradeNeeded` | js/db.js:24-40 | the new fields are those of `DbSpec.Upgrade`: store and indexes created only when the store is missing |
| `Db.AssessmentStore.SaveAssessment` | js/db.js:45-73 | the new fields and the outcome are those of `DbSpec.Save`, and the invariant is kept |
| `Db.AssessmentStore.GetAllAssessments` | js/db.js:76-100 | reports "not initialized" with no handle and failure on a failed read. Otherwise it resolves with every stored record exactly once, newest first |
| `Db.AssessmentStore.GetAssessmentById` | js/db.js:103-128 | the outcome is that of `DbSpec.GetById`: the stored record under that key, carrying the key in `id`, or "not found" when the key is absent |
| `Db.AssessmentStore.DeleteAssessment` | js/db.js:131-152 | the new fields and the outcome are those of `DbSpec.Delete`, and the invariant is kept |
| `Db.SaveTwiceListDelete` | js/db.js:88-93 | in a fresh profile, saving A and then a later B gets keys 1 and 2. The list is B then A; after deleting A the list is just B |
| `KeyHistory.Step` | js/db.js:6-152 | one call hands out at most one generated key. Only a save can hand one out, and that key is the save's outcome. Every successful id-free save hands out its key. A reload unsets the handle and keeps the records and the generator |
| `KeyHistory.Run` | js/db.js:6-152 | a run of calls hands out at most one generated key per call, none when no call is a save, and begins with the keys its first call hands out |
| `KeyHistory.StepAdvances` | js/db.js:61-66 | one reload, open, save or delete keeps the invariant and never moves the generator back. A generated key is the generator's number before the call |
| `KeyHistory.GeneratedKeysIncrease` | js/db.js:29-32 | over any sequence of reloads, opens, saves and deletes, the generated keys strictly increase, so none is reused after a delete or in a later session |

## Left out

- The IndexedDB engine itself is replaced by the record map and the generator
  number. Connections are connection numbers, structured cloning is value
  semantics, and index internals are left out.
- `GetAllAssessments` does not state the order among records with equal
  timestamps. That order depends on the order in which `index.getAll()` yields
  records, which the model leaves open. JavaScript's stable sort keeps that
  order among ties.
- Promises, asynchronous scheduling and concurrent transactions: each call is
  one atomic, sequential step.
- The wall clock is the parameter `now`, with no claim that it increases.
  Host failures are the `succeeds` and `fault` parameters.
- Transactions that abort after the request succeeded are not modelled. Each
  promise settles on the request's `success` or `error` event
  (`js/db.js:63-71`, `88-98`, `142-150`). There is no `oncomplete` or `onabort`
  handler, and under Indexed Database API 3.0 the transaction commits only after
  that event. The commit can still abort, for example with
  `QuotaExceededError`. `saveAssessment` or `deleteAssessment` has then already
  resolved while nothing was stored or deleted. The model never gives `Ok` with
  the state unchanged: `fault` covers only errors reported on the request. So
  `DbSpec.SaveThenGet` and `DbSpec.DeleteRemovesExactly` hold only for a
  transaction that commits.
- The open request's `blocked` event, and opening a database whose version is
  newer than 1 (a version error), are not modelled. Here the database only
  ever reaches version 1.
- JavaScript numbers are modelled as integers. Fractional and NaN values, and
  the rounding the key generator applies to fractional keys, are not modelled.
  Dates and arrays, which IndexedDB also accepts as keys, are not among the
  modelled values.
- Record values are numbers, strings, booleans, `null` and `undefined`.
  Nested objects, arrays, dates and functions are not modelled values. For
  that reason the DataCloneError that `add` throws for a value structured
  cloning refuses (a function, say) is not modelled.
- The `by_risk` index is modelled only as a schema entry, because no operation
  queries it.
- Console logging and the exact error message strings are not modelled. Each
  rejection is an `Outcome` constructor.
- `getAssessmentById` and `deleteAssessment` take a `Key`. An argument that is
  not a valid key makes IndexedDB throw, and that case is not modelled.
- `js/app.js`, the UI that calls the store, is not part of this model.
