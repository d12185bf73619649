# Ponto buffer: storing fetched transactions

A Dafny model of `ponto.buffer._store_transactions` from the Odoo module
`account_statement_import_online_ponto`. The routine receives a batch of
transactions fetched from Ponto for one online statement provider. It works in
two passes:

1. Stamping and grouping. For each transaction it asks the provider for the
   transaction's date-time and renders it in isoformat with "T" replaced by a
   space. It writes that string into the transaction's `"date_time"` field, in
   place. It then files the transaction in a dictionary under the first ten
   characters of the string, which is the calendar date.
2. Storing. For each date, in the order the dates first occurred, it looks up
   the `ponto.buffer` header of (provider, date) and creates it when there is
   none. It collects the Ponto ids already stored under that header, then
   appends one `ponto.buffer.line` for each transaction of the date whose id is
   not among them. Nothing is written when every id is already stored.

The model has three modules:

- `Bucketing` (`bucketing.dfy`): transactions as records, the rendering of the
  date-time, the date key, stamping, and the grouping. The grouping has two
  forms: `BucketKeys` and `Bucket` (keys in first-occurrence order and each
  bucket in input order) and `Buckets` (the dictionary the loop builds). The
  two are proved to agree.
- `BufferTables` (`buffer_tables.dfy`): the header and line tables as values
  (`Tables`). It states the second pass as functions: `FindOrCreate`,
  `NewLines`, `StoreBucket` for one date, `StoreAll` for a list of dates, and
  `Store` for a whole stamped batch. The properties of the store are proved
  about these functions.
- `Ponto` (`ponto_buffer.dfy`): class `PontoBuffer`, whose fields are the two
  tables and the next record id. `StoreTransactions` runs both loops:
  - `GroupByDate` stamps the transactions of an `array` in place and builds the
    keys and the dictionary.
  - `StoreGroups` calls `StoreDate` once per date.
  - Each method is proved against the functions above. `StoreTransactions`
    ends with the array equal to the stamped batch and the tables equal to
    `Store` of the old tables.

Modelling choices:

- A transaction is a map from field name to `Json`, where a string value is a
  `JString`.
- The provider is a record id plus a function from a transaction to its
  isoformat date-time string.
- `json.dumps` is a function parameter, `dumps`.
- Record creation gives the new header the id `nextId`. The constructor starts
  with empty tables.
- `WellFormed` states what the ORM guarantees about the tables:
  - header ids are distinct and below `nextId`;
  - every line belongs to an existing header (the `buffer_id` of
    `buffer_line_ids`).

## Model

| member | source | states |
|---|---|---|
| Bucketing.Render | account_statement_import_online_ponto/models/ponto_buffer.py:41 | the rendered string has the length of the isoformat string and contains no "T" |
| Bucketing.RenderAt | account_statement_import_online_ponto/models/ponto_buffer.py:41 | each "T" becomes a space and every other character is kept at its position |
| Bucketing.DateKey | account_statement_import_online_ponto/models/ponto_buffer.py:43 | the key is a prefix of the rendered string of length min(10, its length), as the slice `[0:10]` gives |
| Bucketing.Stamp | account_statement_import_online_ponto/models/ponto_buffer.py:42 | after stamping, "date_time" holds the rendered string as a JSON string; the field set gains only "date_time"; every other field and the id are unchanged |
| Bucketing.Stamped | account_statement_import_online_ponto/models/ponto_buffer.py:38-42 | definition, no contract of its own: every transaction of the batch stamped with the date-time the provider gives it. Its properties are stated by `StampedAt`, `StampedKeepsIds` and `StampedIdempotent` |
| Bucketing.StampedAt | account_statement_import_online_ponto/models/ponto_buffer.py:39-43 | in a stamped batch, transaction i holds `JString` of its provider date-time rendered, and its key is the first ten characters of that rendering |
| Bucketing.StampedKeepsIds | account_statement_import_online_ponto/models/ponto_buffer.py:38-42 | stamping keeps the string id of every transaction |
| Bucketing.StampedIdempotent | account_statement_import_online_ponto/models/ponto_buffer.py:38-42 | stamping a stamped batch again changes nothing when the provider reads the same date-time from a stamped transaction |
| Bucketing.KeyOf | account_statement_import_online_ponto/models/ponto_buffer.py:43 | definition, no contract of its own: the bucket key of a stamped transaction, `DateKey` of its "date_time" string. `StampedAt` ties it to the provider's date-time and `DateKey` bounds it |
| Bucketing.BucketKeys | account_statement_import_online_ponto/models/ponto_buffer.py:44-45 | the dictionary's keys have no repeats |
| Bucketing.KeyListed | account_statement_import_online_ponto/models/ponto_buffer.py:43-45 | the key of every transaction is one of the keys |
| Bucketing.KeyWitness | account_statement_import_online_ponto/models/ponto_buffer.py:43-45 | every key is the key of some transaction of the batch |
| Bucketing.BucketKeysMembers | account_statement_import_online_ponto/models/ponto_buffer.py:43-45 | a string is a key exactly when some transaction has it as its key |
| Bucketing.Bucket | account_statement_import_online_ponto/models/ponto_buffer.py:46 | a bucket of transactions with ids has ids, and is no longer than the batch |
| Bucketing.BucketMembers | account_statement_import_online_ponto/models/ponto_buffer.py:43-46 | bucket k holds only transactions of the batch whose key is k, and holds each of them |
| Bucketing.BucketSnoc | account_statement_import_online_ponto/models/ponto_buffer.py:44-46 | one-step unfolding of the key list and the buckets, used by the loop proof: one more transaction adds its key at the end of the keys if it is new, and goes at the end of its own bucket only |
| Bucketing.BucketsSnoc | account_statement_import_online_ponto/models/ponto_buffer.py:44-46 | one-step unfolding of the dictionary, used by the loop proof: filing one more transaction opens a one-element list under a new key or appends to the existing list; also, the dictionary has the key exactly when the key list does |
| Bucketing.Buckets | account_statement_import_online_ponto/models/ponto_buffer.py:37-46 | definition, no contract of its own: the dictionary the first loop builds, filing each transaction in turn. `BucketsSnoc`, `BucketsAgree` and `BucketsAt` state what it holds |
| Bucketing.BucketsAgree | account_statement_import_online_ponto/models/ponto_buffer.py:37-46 | the dictionary has exactly the keys, and its entry for each key is that key's bucket in input order |
| Bucketing.BucketsAt | account_statement_import_online_ponto/models/ponto_buffer.py:48 | the list the second loop reads for a key is that key's bucket |
| Bucketing.BucketEmpty | account_statement_import_online_ponto/models/ponto_buffer.py:44-46 | a bucket is empty exactly when its key is not a key of the batch, so no empty list is ever stored |
| Bucketing.InExactlyOneBucket | account_statement_import_online_ponto/models/ponto_buffer.py:43-46 | each transaction is in the bucket of its own key and in no other |
| Bucketing.ConcatSnoc | account_statement_import_online_ponto/models/ponto_buffer.py:44-46 | one more transaction adds exactly one occurrence of it to the buckets of the listed keys when its key is listed, and none otherwise |
| Bucketing.BucketSnocCount | account_statement_import_online_ponto/models/ponto_buffer.py:46 | one more transaction adds one occurrence of itself to its own bucket and nothing to any other |
| Bucketing.BucketsPartition | account_statement_import_online_ponto/models/ponto_buffer.py:37-46 | the buckets together hold every transaction of the batch exactly as often as the batch does |
| Bucketing.BucketKeysPrefix | account_statement_import_online_ponto/models/ponto_buffer.py:44-45 | the keys of a prefix of the batch are a prefix of its keys: dates are ordered by first occurrence |
| Bucketing.BucketPrefix | account_statement_import_online_ponto/models/ponto_buffer.py:46 | the bucket of a prefix of the batch is a prefix of the bucket: appends keep input order |
| BufferTables.Search | account_statement_import_online_ponto/models/ponto_buffer.py:54-59 | the result is the first header matching (provider, date), and there is none exactly when no header matches |
| BufferTables.FindOrCreate | account_statement_import_online_ponto/models/ponto_buffer.py:54-65 | an existing header leaves the tables as they are; otherwise one header for (provider, date) with id `nextId` is appended; either way the result is the id of the header that search then finds, and the lines are unchanged |
| BufferTables.FindOrCreateIds | account_statement_import_online_ponto/models/ponto_buffer.py:60-65 | on well-formed tables the header ids stay distinct and below `nextId`, and the old headers are kept as a prefix |
| BufferTables.PontoIds | account_statement_import_online_ponto/models/ponto_buffer.py:66 | definition, no contract of its own: the set of Ponto ids of the lines under a header. `PontoIdsAppend` states how it grows |
| BufferTables.LineFor | account_statement_import_online_ponto/models/ponto_buffer.py:71-76 | definition, no contract of its own: the line for a transaction, holding the header id, the transaction's id, its "date_time" string and its dump. `NewLinesSpec`, `NewLinesAt` and `StoreAllLinesFromBatch` state where these lines go |
| BufferTables.FreshCountAllNew | account_statement_import_online_ponto/models/ponto_buffer.py:67-80 | when no id of the bucket is stored yet, the number of new lines is the bucket's length, even when an id repeats in the bucket |
| BufferTables.NewLines | account_statement_import_online_ponto/models/ponto_buffer.py:67-80 | the number of lines is the number of positions of the bucket whose id is not already present; `NewLinesAt` fixes which line is at each position |
| BufferTables.NewLinesAt | account_statement_import_online_ponto/models/ponto_buffer.py:67-80 | the transaction at each position whose id is absent gets its line right after the lines of the earlier absent positions. This fixes the result exactly: repeated ids each get their own line, in bucket order |
| BufferTables.NewLinesSpec | account_statement_import_online_ponto/models/ponto_buffer.py:67-80 | every new line is that of a transaction whose id was absent, every such transaction has its line, and there are no lines exactly when every id is present |
| BufferTables.PontoIdsAppend | account_statement_import_online_ponto/models/ponto_buffer.py:66 | appending lines adds their ids to a header's stored ids and removes none |
| BufferTables.SearchAppend | account_statement_import_online_ponto/models/ponto_buffer.py:54-59 | appending headers does not change which header search finds when one already matches |
| BufferTables.StoreAllStep | account_statement_import_online_ponto/models/ponto_buffer.py:48 | one-step unfolding of the store over a key prefix, used by the second loop's proof: handling one more date is one round of the store on that date's bucket |
| BufferTables.StoreBucket | account_statement_import_online_ponto/models/ponto_buffer.py:54-82 | definition, no contract of its own: one round of the second loop, find or create the header and then append the new lines if there are any. Its properties are in `StoreBucketFrame`, `StoreBucketEffect`, `StoreBucketCovers`, `StoreBucketCoveredNoop`, `StoreBucketKeepsCovered` and `StoreBucketWellFormed` |
| BufferTables.StoreAll | account_statement_import_online_ponto/models/ponto_buffer.py:48-82 | definition, no contract of its own: the rounds for a list of dates, in list order. Its properties are in the `StoreAll...` lemmas below |
| BufferTables.Store | account_statement_import_online_ponto/models/ponto_buffer.py:34-82 | definition, no contract of its own: the rounds for the dates of a stamped batch in first-occurrence order. Its properties are in `StoreStoresEvery`, `StoreIdempotent` and `StoreTwice` |
| BufferTables.StoreBucketFrame | account_statement_import_online_ponto/models/ponto_buffer.py:54-82 | one round changes the headers only as find-or-create does, only appends lines, and puts every appended line under the date's header |
| BufferTables.StoreBucketEffect | account_statement_import_online_ponto/models/ponto_buffer.py:54-82 | one round appends only lines, under the date's header, whose id the header did not hold. It appends exactly one line per position of the bucket whose id is absent, in bucket order. It appends nothing when all ids are present |
| BufferTables.StoreBucketCovers | account_statement_import_online_ponto/models/ponto_buffer.py:66-82 | after one round, the date's header holds the id of every transaction of the bucket |
| BufferTables.StoreBucketCoveredNoop | account_statement_import_online_ponto/models/ponto_buffer.py:66-82 | a round whose bucket is already fully stored changes nothing: no header and no write |
| BufferTables.StoreBucketKeepsCovered | account_statement_import_online_ponto/models/ponto_buffer.py:54-82 | a round keeps every header fully holding the ids it held: for any provider and date whose search found a header, search still finds the same header, and that header keeps all its stored ids |
| BufferTables.StoreBucketWellFormed | account_statement_import_online_ponto/models/ponto_buffer.py:54-82 | one round keeps the tables well-formed |
| BufferTables.StoreAllAppendOnly | account_statement_import_online_ponto/models/ponto_buffer.py:48-82 | existing headers and lines are kept as prefixes, and `nextId` never decreases |
| BufferTables.StoreBucketAdded | account_statement_import_online_ponto/models/ponto_buffer.py:54-65 | the inductive step of `StoreAllAdded`: a round adds at most one header, for this provider and the round's own date, and only when that date had no header before the round. Every header added since the start of the call is for this provider and a date handled so far, and that date had no header at the start of the call |
| BufferTables.StoreAllAdded | account_statement_import_online_ponto/models/ponto_buffer.py:48-65 | every header a call adds is for this provider and one of the batch's dates, which had no header before |
| BufferTables.StoreAllHeaders | account_statement_import_online_ponto/models/ponto_buffer.py:48-65 | no two headers a call adds share a date: at most one header per new date |
| BufferTables.StoreAllKeepsUniqueKeys | account_statement_import_online_ponto/models/ponto_buffer.py:48-65 | if (provider, date) was unique among headers before, it still is afterwards |
| BufferTables.StoreAllWellFormed | account_statement_import_online_ponto/models/ponto_buffer.py:48-82 | the whole store keeps the tables well-formed |
| BufferTables.StoreAllLinesOwned | account_statement_import_online_ponto/models/ponto_buffer.py:48-82 | every line a call adds belongs to a header of this provider for one of the batch's dates |
| BufferTables.StoreAllLinesFromBatch | account_statement_import_online_ponto/models/ponto_buffer.py:48-82 | every line a call adds is the line of a transaction of the batch, stored under this provider's header for that transaction's own date |
| BufferTables.StoreLeavesOtherHeadersAlone | account_statement_import_online_ponto/models/ponto_buffer.py:48-82 | a header of another provider, or of a date outside the batch, receives no line |
| BufferTables.StoreAllCovers | account_statement_import_online_ponto/models/ponto_buffer.py:48-82 | afterwards the header of every processed date holds every id of that date's bucket |
| BufferTables.StoreAllCoveredNoop | account_statement_import_online_ponto/models/ponto_buffer.py:48-82 | when every bucket is already stored the call changes nothing |
| BufferTables.StoreStoresEvery | account_statement_import_online_ponto/models/ponto_buffer.py:34-82 | afterwards every transaction's id is stored under the header of its own date |
| BufferTables.StoreIdempotent | account_statement_import_online_ponto/models/ponto_buffer.py:34-82 | storing the same batch a second time creates no header and writes no line |
| BufferTables.StoreTwice | account_statement_import_online_ponto/models/ponto_buffer.py:34-82 | fetching and storing the same transactions twice: restamping leaves the stamped batch unchanged, as long as the provider reads the same date-time from a stamped transaction, and the second store leaves the tables as the first left them |
| Ponto.PontoBuffer.constructor | account_statement_import_online_ponto/models/ponto_buffer.py:20-32 | the tables start empty and well-formed |
| Ponto.PontoBuffer.Create | account_statement_import_online_ponto/models/ponto_buffer.py:60-65 | appends one header for (provider, date) with a fresh id and returns that id; the lines are unchanged |
| Ponto.PontoBuffer.Write | account_statement_import_online_ponto/models/ponto_buffer.py:81-82 | appends the lines and changes nothing else |
| Ponto.PontoBuffer.StoreDate | account_statement_import_online_ponto/models/ponto_buffer.py:54-82 | the new tables are one round of the store on the date's bucket, and stay well-formed |
| Ponto.PontoBuffer.StampAt | account_statement_import_online_ponto/models/ponto_buffer.py:39-43 | only position i of the array changes, to the stamped transaction, and the returned key is that transaction's date key |
| Ponto.PontoBuffer.File | account_statement_import_online_ponto/models/ponto_buffer.py:44-46 | the keys and the dictionary after filing are those of the batch grown by the transaction |
| Ponto.PontoBuffer.FileNext | account_statement_import_online_ponto/models/ponto_buffer.py:38-46 | one round stamps one more transaction in place and groups the stamped prefix |
| Ponto.PontoBuffer.GroupByDate | account_statement_import_online_ponto/models/ponto_buffer.py:37-46 | the array ends up stamped in place; the keys and the dictionary are those of the stamped batch |
| Ponto.PontoBuffer.StoreGroups | account_statement_import_online_ponto/models/ponto_buffer.py:48-82 | the tables end up as the store of every bucket, in first-occurrence order, and stay well-formed after every round |
| Ponto.PontoBuffer.StoreTransactions | account_statement_import_online_ponto/models/ponto_buffer.py:34-82 | the array is stamped in place, the ids are kept, the tables stay well-formed, and they equal the store of the stamped batch |

## Left out

- Logging of each date and its number of transactions is not modelled because it has no effect on state.
- The provider's date-time method is not modelled: the provider is given as a function from a transaction to its isoformat string. Datetime values, time zones and `isoformat` itself are not modelled, and a failure of this call is not modelled.
- `json.dumps` is a parameter: the model does not fix the serialisation. It does state that the line gets the dump of the stamped transaction.
- Transactions without a string `"id"` are excluded by a precondition. With a missing id, `t.get("id")` gives `None`, which the model does not represent.
- The `date` field is an Odoo Date. The model keeps the key string as written and does not validate or normalise it as a date.
- Search order is not modelled. Every header the search can return has the searched provider and date, so `_order = "date desc"` does not choose among them; the database does. The model takes the earliest match in table order. `StoreAllKeepsUniqueKeys` shows there is only one match when (provider, date) pairs were unique before the call.
- ORM record ids are modelled as a counter `nextId`. Access rights, `readonly` flags, `ondelete="cascade"` and the `ponto.buffer.line` model's own fields are not modelled. `ponto_buffer_line.py` is not part of this model.
- Transactions are values, not Python dicts. A batch holding the same dict object twice, where the in-place write would be seen through both positions, is not modelled.
- Python dict insertion order is modelled by the list of keys that the first loop returns next to the dictionary.
- Transaction atomicity, rollback and concurrent calls are not modelled.
- Repeated ids within one date's bucket are not merged: each occurrence whose id was not stored before gets its own line. The model follows the code here (`FreshCountAllNew`). "Preventing duplicates" therefore holds only against lines that were stored before the call.
