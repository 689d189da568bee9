# bgio-dynamodb-storage, modelled in Dafny

`bgio-dynamodb-storage` is a storage back end for boardgame.io game sessions.
It keeps the sessions in one DynamoDB table whose primary key is
`(id, type)`. Each game session is split into four records, one per type:
`state`, `initial`, `metadata` and `log`.

The model has two layers, as the source does.

- `ClientAdapter` (`adapter.dfy`) makes point puts, gets and deletes of
  JSON-serialised values. It also runs the two scan loops `clear` and `keys`.
- `DynamoStorage` (`storage.dfy`) builds the session operations from those
  calls: `createGame`, `fetch`, `setState` with its log append,
  `setMetadata`, `wipe`, `listGames` and `clear`.

The DynamoDB document client becomes the table it manages. The class field
`ClientAdapter.table` is a `map<Key, Item>`. A put replaces the whole item, a
get reads it, and a delete removes it. The model needs nothing else from the
document client.

The point operations and the session-level results are specified by pure
functions in `store.dfy` and `storage.dfy` (`Get`, `Put`, `Delete`,
`WithoutSessions`, `AppendLog`, `StateSet`, `Created`). Their contracts say
which records change and which do not. Each method's `ensures` ties the new
table to one of these functions applied to the old table.

A scan is a finite sequence of page responses (`scan.dfy`). Each page has
`Items`, which may be absent, and a `hasMore` flag that stands for
`LastEvaluatedKey`. `Read` is the prefix of pages that a `while (fetchMore)`
loop reads: up to and including the first page without `LastEvaluatedKey`.

`JSON.stringify` followed by `JSON.parse` is the identity on the `Value`
datatype, a small JSON value type. `scenarios.dfy` replays the repository's
test cases as client methods. They use nothing but the service's method
contracts.

Properties the model establishes:

- `Put` and `Delete` change only their own key, and a get reads back the last
  put. `Get` gives `None`, not an error, when the record is absent.
- `Created`, used by `createGame`, leaves `initial` and `state` holding the
  initial state and `metadata` holding the metadata. The `log` record is not
  touched, because `setState` gets no deltalog here.
- `Fetch` fills in only the fields that were requested. Each one holds the
  stored value, or `None` when that record is absent.
- `setState` always overwrites `state`. A non-empty deltalog is appended to
  the old log; a missing log counts as `[]`. With no deltalog, or an empty
  one, the log record stays as it was (`AppendLog`, `LogAppendsInOrder`).
  `DynamoStorage.Valid` says every log record holds an array or a falsy
  value, so `oldLog || []` always yields a list. Every operation preserves
  `Valid`.
- `wipe` removes the four records of one id and nothing else. It is
  idempotent, and wiping an id with no records changes nothing.
- `clear` deletes all four record types of every id that appears in a page
  with `Items`, even when the scanned item was of a different type. Records
  of other ids stay, and so do records of other types.
- `keys` lists, in order, the ids of `state` items that pass the `gameName`
  filter. A page without `Items` makes the whole result `[]` and discards
  what was collected before it. Pages after the first one without
  `LastEvaluatedKey` are never read.
- The `gameName` filter reads an item attribute that `setItem` never writes.
  So over a table written only through this adapter, a non-empty `gameName`
  lists nothing (`FilterListsNothing`).

Behaviour of the code that is easy to misread, and that the model follows:

- `clear` does not delete every record. It deletes the four session record
  types of each scanned id.
- `createGame` writes `initial` on every call, so a second call overwrites
  it.
- The group filter of `listGames` compares the item's own `gameName`
  attribute, not a field of the stored metadata.
- A requested field that is absent is set to `undefined` rather than
  omitted. The model represents both as `None`.

## Model

| member | source | states |
|---|---|---|
| `Store.Falsy` | src/bgio-dynamodb-storage.ts:193-194 | JavaScript falsiness of a stored value as `oldLog || []` tests it: `null`, `false`, `0` and `""` are falsy, while arrays and objects, even empty ones, are truthy |
| `Store.Get` | src/bgio-dynamodb-storage.ts:30-40 | a record read gives `Some` of its value exactly when the key `(id, type)` is in the table, and `None` (not an error) otherwise |
| `Store.Put` | src/bgio-dynamodb-storage.ts:17-28 | after a put, a get of the same key returns the value put; the item has no `gameName`; every other key is unchanged; log shape and adapter-written tables are preserved |
| `Store.Delete` | src/bgio-dynamodb-storage.ts:42-48 | after a delete the key is absent, every other key is unchanged, and deleting an absent key leaves the table equal to what it was |
| `Store.WithoutSessions` | src/bgio-dynamodb-storage.ts:174-181 | removing sessions drops exactly the records of the four types whose id is listed; every other record keeps its value |
| `Store.PutsCommute` | src/bgio-dynamodb-storage.ts:122-128 | puts to distinct keys commute, so the order in which a concurrent fan-out of puts lands does not matter |
| `Store.WithoutSessionsCompose` | src/bgio-dynamodb-storage.ts:50-75 | removing sessions `a` and then `b` equals removing `a + b` (the page-by-page deletes of `clear` add up) |
| `Store.WithoutSessionsIdempotent` | src/bgio-dynamodb-storage.ts:174-181 | wiping the same ids a second time changes nothing |
| `Store.WithoutAbsentSessions` | src/bgio-dynamodb-storage.ts:174-181 | wiping an id that has no session records leaves the table unchanged |
| `Store.DeleteFour` | src/bgio-dynamodb-storage.ts:67-72 | four deletes of one id remove exactly those four keys, in whatever order they are issued |
| `Store.DeleteSession` | src/bgio-dynamodb-storage.ts:67-72 | the four deletes, in wipe's order and in clear's order, remove exactly the session's four records |
| `Scan.Read` | src/bgio-dynamodb-storage.ts:51-62 | the pages a scan loop reads are a non-empty prefix of the responses, ending at the first one without `LastEvaluatedKey`, with every earlier one having it |
| `Scan.ReadIgnoresRest` | src/bgio-dynamodb-storage.ts:79-91 | responses after the first one without `LastEvaluatedKey` never affect what is read |
| `Scan.Matches` | src/bgio-dynamodb-storage.ts:95-97 | the `gameName` filter applies only when the option is truthy: an empty name keeps every item, and an item whose own `gameName` equals the option always passes |
| `Scan.PageIds` | src/bgio-dynamodb-storage.ts:84-99 | a page contributes at most one id per item |
| `Scan.PageIdsMembers` | src/bgio-dynamodb-storage.ts:84-99 | a page contributes exactly the ids of its `state` items that pass the `gameName` filter |
| `Scan.PageIdsNoMatch` | src/bgio-dynamodb-storage.ts:84-99 | a page none of whose items is a `state` item passing the filter contributes no id |
| `Scan.CollectNone` | src/bgio-dynamodb-storage.ts:92-99 | accumulation over read pages fails (the loop returns `[]`) exactly when some read page has no `Items` |
| `Scan.CollectAppend` | src/bgio-dynamodb-storage.ts:99 | accumulating over two runs of pages concatenates the two results in order |
| `Scan.IdsInSnoc` | src/bgio-dynamodb-storage.ts:56-73 | reading one more page adds to the deleted ids exactly the ids of its items, or none when it lacks `Items` |
| `Scan.Listing` | src/bgio-dynamodb-storage.ts:77-102 | what `keys` returns; when the first response already lacks `LastEvaluatedKey`, it is `[]` for a response without `Items` and otherwise exactly that response's passing `state` ids, in order |
| `Scan.IdsIn` | src/bgio-dynamodb-storage.ts:56-73 | the ids `clear` deletes; for a single response, exactly the ids of its items, or none when it lacks `Items` |
| `Scan.ListingMembers` | src/bgio-dynamodb-storage.ts:77-102 | `keys` returns `[]` when a read page lacks `Items`; otherwise an id is listed iff a read page holds a `state` item with that id passing the filter |
| `Scan.IdsInMembers` | src/bgio-dynamodb-storage.ts:66-72 | the ids `clear` deletes are exactly the ids of items of read pages that have `Items`, whatever the item's type |
| `Scan.FilterListsNothing` | src/bgio-dynamodb-storage.ts:95-97 | over a table written only through `setItem`, which never writes `gameName`, a non-empty `gameName` filter lists no session |
| `Scan.ListingIsStateRecords` | src/bgio-dynamodb-storage.ts:183-186 | without a filter, over responses that come from the table and cover it, a session is listed iff its `state` record exists |
| `Adapter.ClientAdapter.constructor` | src/bgio-dynamodb-storage.ts:8-10 | the adapter starts on the given table |
| `Adapter.ClientAdapter.SetItem` | src/bgio-dynamodb-storage.ts:17-28 | the new table is the old one with the item `{id, type, value}` put |
| `Adapter.ClientAdapter.GetItem` | src/bgio-dynamodb-storage.ts:30-40 | returns the stored value of `(id, type)`, or `None` when there is no such record |
| `Adapter.ClientAdapter.RemoveItem` | src/bgio-dynamodb-storage.ts:42-48 | the new table is the old one with the key `(id, type)` deleted |
| `Adapter.ClientAdapter.RemoveSession` | src/bgio-dynamodb-storage.ts:67-72 | the four deletes for one scanned item remove that id's session records and nothing else |
| `Adapter.ClientAdapter.RemoveSessionsOf` | src/bgio-dynamodb-storage.ts:66-73 | the deletes for one page remove the sessions of every item id of the page |
| `Adapter.ClientAdapter.Clear` | src/bgio-dynamodb-storage.ts:50-75 | the new table lacks the four record types of every id in the pages read, and keeps every other record |
| `Adapter.ClientAdapter.Keys` | src/bgio-dynamodb-storage.ts:77-102 | returns the in-order listing of the read pages, or `[]` when one of them lacks `Items` |
| `Storage.EntriesOr` | src/bgio-dynamodb-storage.ts:193-194 | `oldLog || []`: an absent log gives no entries, and a stored array, even an empty one, gives its own entries |
| `Storage.AppendLog` | src/bgio-dynamodb-storage.ts:188-197 | the log afterwards is the old log (`[]` if absent or falsy) followed by the deltalog; an absent or empty deltalog leaves the table unchanged; other keys are unchanged |
| `Storage.StateSet` | src/bgio-dynamodb-storage.ts:163-168 | `state` holds the new state, the log is extended by the deltalog (untouched for an empty one), and only those two records change |
| `Storage.Created` | src/bgio-dynamodb-storage.ts:122-128 | `initial` and `state` hold the initial state, `metadata` the metadata, and every other record, including `log`, is unchanged |
| `Storage.LogAppendsInOrder` | test/bgio-dynamodb-storage.test.ts:133-159 | two sequential `setState` calls with `[e1]` then `[e2]` on a session without a log leave the log `[e1, e2]` |
| `Storage.SetStateOrderIrrelevant` | src/bgio-dynamodb-storage.ts:164-167 | writing the state before or after the log append gives the same table |
| `Storage.ClearedListsNothing` | test/bgio-dynamodb-storage.test.ts:122-131 | after a clear that scanned every session of a table of session records, any later listing of the table is empty |
| `Storage.DynamoStorage.constructor` | src/bgio-dynamodb-storage.ts:113-116 | the service wraps a fresh adapter on the given table, whose log records are arrays or falsy |
| `Storage.DynamoStorage.CreateGame` | src/bgio-dynamodb-storage.ts:122-128 | the new table is `Created` of the old one and keeps the log invariant |
| `Storage.DynamoStorage.Fetch` | src/bgio-dynamodb-storage.ts:130-157 | each field is present only if requested and then holds the stored record's value, or `None` if that record is absent; nothing is written |
| `Storage.DynamoStorage.Clear` | src/bgio-dynamodb-storage.ts:159-161 | the new table lacks every session record of every id the scan read |
| `Storage.DynamoStorage.SetState` | src/bgio-dynamodb-storage.ts:163-168 | the new table is `StateSet` of the old one and keeps the log invariant |
| `Storage.DynamoStorage.SetMetadata` | src/bgio-dynamodb-storage.ts:170-172 | the new table is the old one with `metadata` overwritten |
| `Storage.DynamoStorage.Wipe` | src/bgio-dynamodb-storage.ts:174-181 | the new table lacks the four records of the id and keeps every other record |
| `Storage.DynamoStorage.ListGames` | src/bgio-dynamodb-storage.ts:183-186 | returns exactly what `keys` lists for the scan responses |
| `Storage.DynamoStorage.SetLog` | src/bgio-dynamodb-storage.ts:188-197 | the new table is `AppendLog` of the old one: read the old log, concatenate, write back, or do nothing for an absent or empty deltalog |
| `Scenarios.FetchMissingGame` | test/bgio-dynamodb-storage.test.ts:69-72 | fetching the state of a game never created gives `None` |
| `Scenarios.FetchCreatedGame` | test/bgio-dynamodb-storage.test.ts:74-93 | a created game fetches back its state, an equal initial state and its metadata, and a fetch of its log finds no log record |
| `Scenarios.FetchWipedGame` | test/bgio-dynamodb-storage.test.ts:110-120 | after creating, wiping and wiping again, every field of the game fetches as `None` |
| `Scenarios.FetchAppendedLog` | test/bgio-dynamodb-storage.test.ts:133-159 | after `setState` with `[e1]` and then `[e2]`, the fetched log is `[e1, e2]` |
| `Scenarios.CreatedScan` | test/bgio-dynamodb-storage.test.ts:95-108 | a response holding the three records `createGame` writes to an empty table is a scan of that table: every item is a record of it, and it covers the table's `state` records |
| `Scenarios.ListCreatedGame` | test/bgio-dynamodb-storage.test.ts:95-108 | after one `createGame` on an empty table, a scan response that is a complete scan of the created table lists exactly that game's id |

## Left out

- The AWS document client, `.promise()`, `TableName`, `ConsistentRead` and the DynamoDB wire format are not modelled. The table is a map, and each scan is a given sequence of page responses.
- `JSON.stringify` and `JSON.parse` are taken as the identity on `Value`. Numbers are integers: floating point and `undefined` are not modelled.
- Concurrency is not modelled: the `Promise.all` fan-outs of `createGame`, `fetch`, `setState`, `wipe` and `clear` run one after the other. Their sub-operations touch distinct keys, so their order does not change the final table. Lost updates from two concurrent non-atomic log appends, and partial writes after a failure, are therefore not captured.
- `Adapter.ClientAdapter.Clear`: the model does not capture that the deletes are not awaited. `clear` passes `Promise.all` an array of arrays of promises, so the deletes of one page may still be in flight when the next scan starts, and when `clear` returns. The model completes them before the next page.
- Read and write failures of the store are not modelled. Only "an absent record is not an error" is.
- `connect()` always returns `true` and is not modelled. Neither is the boardgame.io base class `Async` or its types.
- Termination of the scan loops against a real store is not modelled. Neither loop passes an `ExclusiveStartKey`, so a store that needs more than one page could keep returning the first page forever. `keys` would then never end and would list ids repeatedly. The scan methods therefore require that some response lacks `LastEvaluatedKey` (`Scan.Ends`).
- `Storage.DynamoStorage.constructor` requires every log record of the existing table to hold an array or a falsy value. Appending to a log that holds some other value (a string, a number, an object) is outside the model. In the source it would either concatenate a string or throw.
- The test harness is not modelled: the DynamoDB emulator, table creation and `sleep`.
