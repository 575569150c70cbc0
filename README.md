# SubscriptionDatabaseManager, modelled in Dafny

A model of the Android telephony `SubscriptionDatabaseManager`. It keeps an in-memory
cache of the rows of the `SimInfo` table, one `SubscriptionInfoInternal` record per
subscription id. Writes go to the cache at once and reach the database through a
`ContentValues` delta that is posted to a handler thread. The one exception is the
insertion of a new subscription, which is written synchronously because the database
assigns its id.

The model has five modules:

- `Wrappers`: `Option`, `Result` and `Outcome`. A thrown exception becomes a `Failure` or a `Fail`.
- `SimInfo`: the record and a representative subset of its fields. It also holds the
  column-name registry (`SUBSCRIPTION_GET_METHOD_MAP`) and the by-column getter. A
  copy-with-one-field-changed (`WithField`) stands for the record builder.
- `ContentDelta`: `createDeltaContentValues`, as a specification function (`Delta`) and
  as the loop the source runs (`CreateDeltaContentValues`), with the laws of the delta.
- `CursorRows`: a database row as a map from column name to a nullable cell.
  `createSubscriptionInfoFromCursor` decodes a row. Lemmas prove that reading back the
  row an insert stores gives the same record except for the blob, which a read returns as
  a newly allocated array.
- `SubscriptionDatabase`: the manager as a class. Its fields are the cache, the queue of
  posted asynchronous writes and the list of synchronous inserts. `Setter` is the
  specification of the field-setter protocol (`writeDatabaseAndCacheHelper`).
  `CacheOf`, `DecodeRows` and `LoadedRecords` specify loading.

The injected services are parameters or `const` fields of the class:
`SubscriptionManager.isValidSubscriptionId`, `UiccController.convertToPublicCardId`, the
row index returned by the content resolver's insert, and the rows returned by the query.

`updateSubscription` posts the delta even when it is empty: the code never checks it
(`SubscriptionDatabaseManager.java` lines 477-483). `createSubscriptionInfoFromCursor`
never returns null. A missing column makes `getColumnIndexOrThrow` throw, and the model
returns a decode failure instead.

## Model

Every member models `src/java/com/android/internal/telephony/subscription/SubscriptionDatabaseManager.java`.

| member | source | states |
|---|---|---|
| SimInfo.RegisteredColumn | src/java/com/android/internal/telephony/subscription/SubscriptionDatabaseManager.java:112-259 | every column name in the getter registry is the column of the field it maps to, so the registry is injective on the modelled fields |
| SimInfo.ColumnName | src/java/com/android/internal/telephony/subscription/SubscriptionDatabaseManager.java:112-259 | each modelled field's column is registered, maps back to that field, and is one of the table's columns |
| SimInfo.FieldValue | src/java/com/android/internal/telephony/subscription/SubscriptionDatabaseManager.java:112-259 | a getter's result always has the field's storage kind; only the nullable access-rules blob can be null |
| SimInfo.GetSubscriptionInfoFieldByColumnName | src/java/com/android/internal/telephony/subscription/SubscriptionDatabaseManager.java:286-292 | a non-null result means the column is registered (an unknown column gives null) |
| SimInfo.LookupByColumnName | src/java/com/android/internal/telephony/subscription/SubscriptionDatabaseManager.java:286-292 | looking a field up by its column name yields exactly that field's getter value |
| SimInfo.WithField | src/java/com/android/internal/telephony/subscription/SubscriptionDatabaseManager.java:440-447 | the builder copy holds the new value in the chosen field, every other field and the card id unchanged |
| SimInfo.FieldsDetermineRecord | src/java/com/android/internal/telephony/subscription/SubscriptionDatabaseManager.java:112-259 | two records with equal getter values on every field and equal card id are the same record |
| ContentDelta.DeltaOver | src/java/com/android/internal/telephony/subscription/SubscriptionDatabaseManager.java:305-324 | a column is in the delta iff it is among the scanned columns, the new value is non-null and it differs from the old one (or there is no old record); the delta holds the new value |
| ContentDelta.CreateDeltaContentValues | src/java/com/android/internal/telephony/subscription/SubscriptionDatabaseManager.java:305-324 | the loop over all table columns builds exactly `Delta(old, new)` |
| ContentDelta.DeltaContents | src/java/com/android/internal/telephony/subscription/SubscriptionDatabaseManager.java:310-320 | per field: its column is in the delta iff the new value is non-null and differs from the old; the delta holds the new value; every key of the delta is a registered column |
| ContentDelta.DeltaAgainstNothing | src/java/com/android/internal/telephony/subscription/SubscriptionDatabaseManager.java:310-320 | against a null old record, the delta holds exactly the registered columns whose new value is non-null |
| ContentDelta.DeltaWithItself | src/java/com/android/internal/telephony/subscription/SubscriptionDatabaseManager.java:310-320 | a record compared with itself gives an empty delta |
| ContentDelta.DeltaEmptyIff | src/java/com/android/internal/telephony/subscription/SubscriptionDatabaseManager.java:310-320 | the delta against an old record is empty iff every non-null field of the new record equals the old record's |
| ContentDelta.DeltaOfOneField | src/java/com/android/internal/telephony/subscription/SubscriptionDatabaseManager.java:433-457 | changing one field to a new value gives a delta of exactly that one column and value, the single-entry `ContentValues` the setter posts |
| CursorRows.FirstMissing | src/java/com/android/internal/telephony/subscription/SubscriptionDatabaseManager.java:1140-1253 | no column is reported missing iff every decoded column is present; a reported column is registered and absent from the row |
| CursorRows.CreateSubscriptionInfoFromCursor | src/java/com/android/internal/telephony/subscription/SubscriptionDatabaseManager.java:1140-1253 | decoding succeeds iff every decoded column exists; a failure names a missing column; on success the card id is the public card id of the card string |
| CursorRows.DecodedField | src/java/com/android/internal/telephony/subscription/SubscriptionDatabaseManager.java:1140-1253 | each field takes the cell's value when it has the field's kind; a null cell gives "" for text, 0 for integers and null for the blob |
| CursorRows.StoredRow | src/java/com/android/internal/telephony/subscription/SubscriptionDatabaseManager.java:334-346 | the row a read returns after an insert has every registered column, holding NULL where the insert sent nothing |
| CursorRows.StoredRowReadsBack | src/java/com/android/internal/telephony/subscription/SubscriptionDatabaseManager.java:1179-1180 | a written column reads back as written, except that a blob reads back as the newly allocated array `getBlob` returns; an unwritten column reads back as NULL |
| CursorRows.DecodesAsRead | src/java/com/android/internal/telephony/subscription/SubscriptionDatabaseManager.java:1140-1253 | a row holding a record's values as a read returns them decodes to that record on every field but the blob, with the same card id, the blob being the newly read array; when that array is not the record's own, the result equals the record iff it has no blob |
| CursorRows.DecodedAsReadField | src/java/com/android/internal/telephony/subscription/SubscriptionDatabaseManager.java:1140-1253 | each field decodes to the record's value as a read returns it |
| CursorRows.ReadBackRecord | src/java/com/android/internal/telephony/subscription/SubscriptionDatabaseManager.java:1179-1180 | a record equal to another on every field as read, and on the card id, differs from it only in which array its blob is; they are equal iff there is no blob (when the read array is new) |
| CursorRows.InsertedRecordDecodesBack | src/java/com/android/internal/telephony/subscription/SubscriptionDatabaseManager.java:1140-1253 | reading back the row written from a record's full delta gives that record on every field but the blob, whose presence is kept and which is the newly read array; so it is the same record iff it has no blob (card id derived from the card string) |
| CursorRows.InsertCarriesCallerId | src/java/com/android/internal/telephony/subscription/SubscriptionDatabaseManager.java:305-324 | the insert's values include the `_id` column holding the caller's record id |
| CursorRows.StoredRowCellWithRowIndex | src/java/com/android/internal/telephony/subscription/SubscriptionDatabaseManager.java:1140-1253 | with the assigned row index in its `_id` cell, each column of the inserted row reads back as the cached entry's value for that field, a blob as the newly read array |
| CursorRows.InsertedRowDecodesToCachedEntry | src/java/com/android/internal/telephony/subscription/SubscriptionDatabaseManager.java:371-375 | with the assigned row index in its `_id` cell, reading back the inserted row gives the entry the insert caches on every field but the blob, which is the newly read array; it equals that entry iff there is no blob |
| SubscriptionDatabase.Setter | src/java/com/android/internal/telephony/subscription/SubscriptionDatabaseManager.java:433-457 | an uncached id or an unchanged value changes nothing and posts nothing; otherwise only that field of that entry changes, and one write of exactly that column and value, equal to the delta between old and new record, is posted; entries stay keyed by id |
| SubscriptionDatabase.SetterIdempotent | src/java/com/android/internal/telephony/subscription/SubscriptionDatabaseManager.java:433-457 | setting the same value twice: the second call changes nothing and posts nothing |
| SubscriptionDatabase.DisplayNameExample | src/java/com/android/internal/telephony/subscription/SubscriptionDatabaseManager.java:520-524 | renaming subscription 7 from "Old" to "Carrier A" posts exactly `{display_name: "Carrier A"}`; repeating it posts nothing |
| SubscriptionDatabase.SetterRunOnAbsentId | src/java/com/android/internal/telephony/subscription/SubscriptionDatabaseManager.java:433-455 | any sequence of sets on an uncached id leaves the cache untouched and posts nothing |
| SubscriptionDatabase.LastValueWins | src/java/com/android/internal/telephony/subscription/SubscriptionDatabaseManager.java:433-457 | after a sequence of sets on a cached id the field holds the last value, the ids and other records are untouched, one write per actual change is posted, each for that id and that column alone |
| SubscriptionDatabase.SubscriptionDatabaseManager.constructor | src/java/com/android/internal/telephony/subscription/SubscriptionDatabaseManager.java:267-273 | for rows sharing one column set, the new manager's cache is the loaded table, and no writes or inserts are queued |
| SubscriptionDatabase.SubscriptionDatabaseManager.GetSubscriptionInfoInternal | src/java/com/android/internal/telephony/subscription/SubscriptionDatabaseManager.java:1263-1270 | the result is non-null iff the id is cached, and it is the cached record, whose id is the key |
| SubscriptionDatabase.SubscriptionDatabaseManager.InsertSubscriptionInfo | src/java/com/android/internal/telephony/subscription/SubscriptionDatabaseManager.java:358-386 | a record with a valid id is rejected with nothing changed; otherwise its full delta is inserted, the returned index is passed back, and only a positive index caches the record under that id |
| SubscriptionDatabase.SubscriptionDatabaseManager.UpdateDatabaseAsync | src/java/com/android/internal/telephony/subscription/SubscriptionDatabaseManager.java:394-408 | exactly one write for that id and those values is appended to the queue |
| SubscriptionDatabase.SubscriptionDatabaseManager.WriteDatabaseAndCacheHelper | src/java/com/android/internal/telephony/subscription/SubscriptionDatabaseManager.java:423-461 | cache and queue change exactly as `Setter` says; inserts untouched; the cache stays keyed by id |
| SubscriptionDatabase.SubscriptionDatabaseManager.UpdateSubscription | src/java/com/android/internal/telephony/subscription/SubscriptionDatabaseManager.java:468-487 | an uncached id fails with nothing changed; otherwise the entry becomes the given record and the delta against the old record is posted |
| SubscriptionDatabase.SubscriptionDatabaseManager.SetIccId | src/java/com/android/internal/telephony/subscription/SubscriptionDatabaseManager.java:495-499 | the setter protocol on the ICCID column |
| SubscriptionDatabase.SubscriptionDatabaseManager.SetSimSlotIndex | src/java/com/android/internal/telephony/subscription/SubscriptionDatabaseManager.java:508-511 | the setter protocol on the SIM slot column |
| SubscriptionDatabase.SubscriptionDatabaseManager.SetDisplayName | src/java/com/android/internal/telephony/subscription/SubscriptionDatabaseManager.java:520-524 | the setter protocol on the display name column |
| SubscriptionDatabase.SubscriptionDatabaseManager.SetEhplmns | src/java/com/android/internal/telephony/subscription/SubscriptionDatabaseManager.java:618-622 | the setter protocol on the EHPLMN column, with the comma-joined list |
| SubscriptionDatabase.SubscriptionDatabaseManager.SetEmbedded | src/java/com/android/internal/telephony/subscription/SubscriptionDatabaseManager.java:642-645 | the setter protocol on the embedded column; the boolean is stored as 1 or 0 |
| SubscriptionDatabase.SubscriptionDatabaseManager.SetNativeAccessRules | src/java/com/android/internal/telephony/subscription/SubscriptionDatabaseManager.java:693-698 | the setter protocol on the access rules column; the encoded blob is a new array, never the cached one, so a cached id always gets the new blob and exactly one write of that column |
| SubscriptionDatabase.SubscriptionDatabaseManager.SetCarrierId | src/java/com/android/internal/telephony/subscription/SubscriptionDatabaseManager.java:849-852 | the setter protocol on the carrier id column |
| SubscriptionDatabase.SubscriptionDatabaseManager.SetCardId | src/java/com/android/internal/telephony/subscription/SubscriptionDatabaseManager.java:671-684 | only the cached record's card id changes, and nothing is posted; an uncached id fails (the source's null dereference) |
| SubscriptionDatabase.SubscriptionDatabaseManager.SetCardString | src/java/com/android/internal/telephony/subscription/SubscriptionDatabaseManager.java:655-661 | the card id becomes the public id of the card string, then the setter protocol runs on the card string column; an uncached id fails with nothing changed |
| SubscriptionDatabase.SubscriptionDatabaseManager.LoadFromDatabase | src/java/com/android/internal/telephony/subscription/SubscriptionDatabaseManager.java:1108-1130 | for rows sharing one column set, the cache becomes the decoded records keyed by id, later rows winning; the load passes iff every row decodes; a failed load or no rows leaves an empty cache |
| SubscriptionDatabase.DecodeRows | src/java/com/android/internal/telephony/subscription/SubscriptionDatabaseManager.java:1116-1122 | one decoding outcome per row, in order |
| SubscriptionDatabase.LoadedRecords | src/java/com/android/internal/telephony/subscription/SubscriptionDatabaseManager.java:1116-1122 | the decoded records form a prefix of the rows, all of them successes, and the row after them (if any) failed |
| SubscriptionDatabase.CacheOf | src/java/com/android/internal/telephony/subscription/SubscriptionDatabaseManager.java:1116-1122 | putting records into an empty map by id gives a cache keyed by id |
| SubscriptionDatabase.AllRowsLoaded | src/java/com/android/internal/telephony/subscription/SubscriptionDatabaseManager.java:1108-1130 | every row is loaded iff every row has all decoded columns |
| SubscriptionDatabase.UniformRowsLoadAllOrNothing | src/java/com/android/internal/telephony/subscription/SubscriptionDatabaseManager.java:1111-1122 | when all rows share the cursor's column set, either every row loads or none does |
| SubscriptionDatabase.CacheOfAppend | src/java/com/android/internal/telephony/subscription/SubscriptionDatabaseManager.java:1116-1122 | loading one more record adds or replaces exactly its entry |
| SubscriptionDatabase.CacheOfKeys | src/java/com/android/internal/telephony/subscription/SubscriptionDatabaseManager.java:1116-1122 | an id is cached iff some loaded record has it |
| SubscriptionDatabase.CacheOfLastWins | src/java/com/android/internal/telephony/subscription/SubscriptionDatabaseManager.java:1116-1122 | the cached record for an id is the last loaded record with that id |
| SubscriptionDatabase.CacheOfDistinctIdsSize | src/java/com/android/internal/telephony/subscription/SubscriptionDatabaseManager.java:1116-1122 | with distinct ids, the cache has one entry per loaded record |

## Left out

- The read-write lock: the model is sequential, and each operation runs as one atomic step.
- The handler thread: a posted write is queued in `pendingWrites` and never run. `ContentResolver.update`, its row count and the logging of failures are not part of this model.
- The content resolver insert and the parsing of the returned `Uri`: `InsertSubscriptionInfo` takes the resulting row index as a parameter.
- The load is posted in the source and runs synchronously inside the constructor here.
- The query itself: `LoadFromDatabase` takes the returned rows, all with the same column set as a cursor has. A null cursor is zero rows.
- What the content provider does with the `_id` value an insert sends: `InsertedRowDecodesToCachedEntry` takes the stored row to carry the assigned row index there.
- Cursor type conversions: a cell whose type does not match the field's kind decodes as if it were NULL. SQLite's conversions between text and integers are not modelled.
- The record has ten of its roughly fifty fields: the nine persisted columns of `Field` plus the card id, which is not persisted. The remaining ~40 setters follow the same `writeDatabaseAndCacheHelper` protocol and are not modelled one by one. The registry holds only the modelled columns, and the scanned column list is those columns plus the deprecated `mcc` and `mnc`, which have no getter.
- Blob contents: `byte[]` values are compared by reference in the source (`Objects.equals`), so a blob is modelled as an opaque reference number.
- `UiccAccessRule.encodeRules` and `TextUtils.join`: `SetNativeAccessRules` and `SetEhplmns` take the already encoded value.
- `SubscriptionManager.isValidSubscriptionId` and `UiccController.convertToPublicCardId` are parameters, because their code is not part of this model.
- `Objects.requireNonNull` checks: Dafny values are never null.
- Logging, `dump` and debug output.
- SubscriptionDatabase.SubscriptionDatabaseManager.SetCardId: the source throws a NullPointerException on an uncached id; the model returns `Fail(NullSubscriptionInfo)` and changes nothing.
- SubscriptionDatabase.SubscriptionDatabaseManager.InsertSubscriptionInfo: the source throws a RuntimeException for a valid id; the model returns `Failure(NotANewSubscription)`.
