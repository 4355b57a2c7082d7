# Amazon discount tracker: the refresh pipeline in Dafny

This project models the data pipeline of the Amazon discount tracker demo
(`amazon_discount.py`), with everything around it stripped away: the UI, the
mail transport, the SQL engine and the timer. What is left is five parts:

- **Record source** (`Records`, `records.dfy`). `fetch_amazon_data` makes one
  record per product id, in input order: name `"Product {id}"`, price `100 - id`,
  discount `id % 20`. Python's `%` with a positive modulus agrees with Dafny's, so
  the discount always lies in 0..19. `FetchAmazonData` is the loop, and `Fetched`
  is the function that specifies it. Every `datetime.now()` reading is one element
  of an input `clock` sequence, one reading per record.
- **Batch fetcher** (`Batching`, `batching.dfy`). `parallel_fetch_and_process` cuts
  the ids into slices of 10 with the comprehension of line 75 (`Chunks`). It
  fetches each slice and flattens the results with the comprehension of line 77
  (`Flatten`). `executor.map` yields results in submission order, so the worker
  pool is modelled as a sequential loop over the chunks. The result is proved
  equal to fetching all ids in one go, given the same clock readings.
- **Discount store** (`DiscountStore`, `store.dfy`). The logical content of the
  `discounts` table is a `map<int, Record>` keyed by the `id INTEGER PRIMARY KEY`
  column. `UpsertAll` gives the table after one `INSERT OR REPLACE` per record.
  `AtOrAbove` gives the rows matched by `WHERE discount >= ?`. The class
  `DiscountTable` holds the rows and has methods for one upsert (`Upsert`),
  `save_to_db` (`SaveToDb`) and `find_significant_discounts`
  (`FindSignificantDiscounts`). Lemmas prove four things: the last write for an
  id wins, ids that are not written keep their rows, saving is idempotent, and a
  later batch that writes the same ids hides an earlier one.
- **JSON Lines export** (`JsonLines`, `jsonl.dfy`). `convert_to_jsonl` is
  `"\n".join` over the serialisations. The serialiser `json.dumps` is a
  parameter. `SplitLines` is Python's `str.splitlines()`, with its full set of
  line boundaries and `"\r\n"` counted as one. The round-trip lemma says that
  splitting the export, as line 192 does, gives back the serialisations in
  record order. It needs each serialisation to be nonempty and free of line
  boundaries, which holds for `json.dumps` of a record because it escapes every
  control character and, by default, every non-ASCII character.
- **Alert body and refresh cycle** (`Alerts`, `alerts.dfy`; `Refresh`,
  `refresh.dfy`). `BuildBody` is the `+=` loop of `enhanced_notify_user`: a
  header, then one `<li>` per row in row order, then a footer. `RefreshJob` is
  the closure set up by `schedule_updates`. Its fields are the connection, the
  ids, the recipient, the `showReal` formatter used for the alert body, and
  the ghost `outbox` of alerts sent so far. `UpdateJob` is one run of `update_job` as it would go
  if the connection could be used from the scheduler's thread (see "## Left
  out"): fetch, save, query at the fixed threshold 15, and alert if and only if
  the query found rows. The mail transport is a ghost `outbox` that the cycle
  appends to.

Three facts about the code shape the model:

- Price and discount are computed as integers, `100 - id` and `id % 20`
  (lines 59-60), so they are `int` in the model.
- The chunk size is the literal 10 (line 75).
- The mock source has no failure path, so the model has no fetch error path.

## Model

| member | source | states |
|---|---|---|
| `Records.ProductName` | amazon_discount.py:58 | the display name of an id: "Product " followed by the id's decimal text, a minus sign first when it is negative |
| `Records.MockRecord` | amazon_discount.py:56-62 | the record for one id and one clock reading: that id, its display name, price 100 - id, discount id % 20 (Python's floor modulus, which Dafny's agrees with for modulus 20), and the reading |
| `Records.Fetched` | amazon_discount.py:53-65 | the list fetch_amazon_data returns: one mock record per id, in input order, the i-th stamped with the i-th clock reading |
| `Records.IntToString` | amazon_discount.py:58 | the decimal text str() gives an int, "-" first when it is negative |
| `Records.NatToStringRoundTrip` | amazon_discount.py:58 | reading back the digits of a natural number gives that number; this carries the induction behind IntToStringRoundTrip |
| `Records.NatToString` | amazon_discount.py:58 | the decimal text of a natural number is nonempty and made of digits only |
| `Records.IntToStringRoundTrip` | amazon_discount.py:58 | reading back the decimal text that an f-string gives an integer returns that integer |
| `Records.ProductNameInjective` | amazon_discount.py:58 | two ids with the same display name "Product {id}" are the same id |
| `Records.FetchedAppend` | amazon_discount.py:53-65 | fetching two runs of ids in turn gives the two record lists in turn (order preserved across a split) |
| `Records.FetchAmazonData` | amazon_discount.py:52-65 | exactly one record per id, in input order: record i has id ids[i], name "Product " + ids[i], price 100 - ids[i], discount ids[i] % 20 in 0..19, and the i-th clock reading |
| `Batching.Chunks` | amazon_discount.py:75 | the slices of the list at offsets 0, 10, 20, ..., slice j running from 10 * j to min(10 * j + 10, length) |
| `Batching.Flatten` | amazon_discount.py:77 | the concatenation of the per-chunk lists, in chunk order |
| `Batching.ChunkShape` | amazon_discount.py:75 | no chunks exactly for no ids; every chunk holds 1 to 10 ids; every chunk but the last holds exactly 10 |
| `Batching.ChunksAligned` | amazon_discount.py:75 | two sequences of the same length are cut into the same number of chunks of matching lengths |
| `Batching.ChunksUnfold` | amazon_discount.py:75 | the chunks of a nonempty list are its first (at most 10) ids followed by the chunks of the rest |
| `Batching.FlattenChunks` | amazon_discount.py:75-77 | concatenating the chunks in order gives back the original id list |
| `Batching.FlattenFetched` | amazon_discount.py:76-77 | flattening the per-chunk fetch results equals fetching the flattened chunks |
| `Batching.ParallelFetchAndProcess` | amazon_discount.py:73-78 | the chunked fetch returns as many records as ids and equals the sequential fetch of all ids, order preserved across chunks |
| `DiscountStore.UpsertAll` | amazon_discount.py:42-49 | the table after one INSERT OR REPLACE per record of the batch, applied in batch order |
| `DiscountStore.AtOrAbove` | amazon_discount.py:113-115 | the stored rows matched by WHERE discount >= threshold, keyed by id |
| `DiscountStore.UpsertAllKeys` | amazon_discount.py:42-49 | after saving, the table holds a row for an id exactly when it held one before or the batch wrote it |
| `DiscountStore.UpsertAllKeyed` | amazon_discount.py:31 | saving keeps every row stored under its own id, so no id ever has two rows |
| `DiscountStore.UpsertAllLastWins` | amazon_discount.py:44-48 | an id written by the batch maps to the last record of the batch with that id |
| `DiscountStore.UpsertAllUntouched` | amazon_discount.py:44-48 | an id the batch does not write keeps its old row, or stays absent |
| `DiscountStore.UpsertAllOverlay` | amazon_discount.py:44-48 | saving a batch overlays the rows it writes on the old table |
| `DiscountStore.LaterBatchSupersedes` | amazon_discount.py:42-49 | a later batch writing every id of an earlier one leaves the table as if the earlier one had never been saved |
| `DiscountStore.UpsertAllIdempotent` | amazon_discount.py:42-49 | saving the same batch twice leaves the table identical to saving it once |
| `DiscountStore.ReplaceNotDuplicate` | amazon_discount.py:46 | re-saving a record for a stored id replaces that row: same ids, same number of rows |
| `DiscountStore.AtOrAboveEmpty` | amazon_discount.py:113-116 | the query matches nothing when the threshold exceeds every stored discount |
| `DiscountStore.AtOrAboveMonotone` | amazon_discount.py:114 | raising the threshold can only drop matched rows |
| `DiscountStore.FetchedBindable` | amazon_discount.py:45-48 | a fetched batch binds without overflow exactly when every id lies in 101 - 2^63 .. 2^63 - 1, because both the id and the price 100 - id must fit a signed 64-bit INTEGER parameter |
| `DiscountStore.DiscountTable.Open` | amazon_discount.py:26-39 | opening the table keeps the rows the database file already holds, each under its own id |
| `DiscountStore.DiscountTable.Upsert` | amazon_discount.py:45-48 | one INSERT OR REPLACE sets the row for r.id to r and changes no other row |
| `DiscountStore.DiscountTable.SaveToDb` | amazon_discount.py:42-49 | the new table is the old one with every record of the batch upserted in order |
| `DiscountStore.DiscountTable.FindSignificantDiscounts` | amazon_discount.py:111-116 | a row is returned if and only if it is stored and its discount is >= the threshold; no id is returned twice; the result is empty exactly when no row matches; the table is not modified |
| `JsonLines.Join` | amazon_discount.py:69 | the parts with one "\n" between each two neighbours; no parts give "" and one part gives itself |
| `JsonLines.Serialised` | amazon_discount.py:69 | the serialisations of the records, one per record, in record order |
| `JsonLines.ConvertToJsonl` | amazon_discount.py:68-70 | the export: the serialisations of the records, in record order, joined by "\n" |
| `JsonLines.SplitLines` | amazon_discount.py:192 | Python's str.splitlines(): the texts between line boundaries (\n, \r, \r\n as one, \v, \f, \x1c-\x1e, \x85, \u2028, \u2029), with no extra line after a final boundary and none for "" |
| `JsonLines.FirstBoundary` | amazon_discount.py:192 | the position of the first line boundary, with none before it |
| `JsonLines.FirstBoundaryAfterLine` | amazon_discount.py:69 | a serialisation followed by the separator "\n" ends exactly at that newline |
| `JsonLines.SplitJoin` | amazon_discount.py:192 | splitting the "\n"-join of nonempty, boundary-free lines with str.splitlines gives back exactly those lines |
| `JsonLines.JsonlRoundTrip` | amazon_discount.py:68-70 | the export splits back into one serialisation per record, in record order; no records give "" |
| `Alerts.Item` | amazon_discount.py:133 | one row's list item: "<li>Product ID: ", the id, ", Name: ", the name, ", Price: ", the price, ", Discount: ", the discount, "%</li>" |
| `Alerts.Items` | amazon_discount.py:132-133 | the items of the rows, one per row, in row order |
| `Alerts.ItemIsListElement` | amazon_discount.py:133 | each row's item starts with "<li>" and ends with "</li>" |
| `Alerts.ItemsPrefix` | amazon_discount.py:132-133 | the items of the first n rows are a prefix of the items of all rows |
| `Alerts.ItemsSnoc` | amazon_discount.py:132-133 | appending one row appends exactly its item |
| `Alerts.ItemsInOrder` | amazon_discount.py:131-134 | row i's item comes right after the items of the rows before it: one item per row, in order |
| `Alerts.BuildBody` | amazon_discount.py:131-134 | the body is the header, then the items of the rows in order, then the footer |
| `Refresh.CycleTable` | amazon_discount.py:151-152 | the table after one cycle's fetch and save: the old table with the fetched records of the configured ids upserted |
| `Refresh.FetchedIds` | amazon_discount.py:151 | a cycle's fetched batch writes exactly the configured ids |
| `Refresh.CycleQuietIff` | amazon_discount.py:151-155 | a cycle's query at 15 is empty if and only if no configured id has id % 20 >= 15 and no other stored row has discount >= 15 |
| `Refresh.DefaultIdsSendNothing` | amazon_discount.py:149-156 | on a fresh database the default ids 1..5 give discounts 1..5, so the query at 15 is empty; with UpdateJob's ensures, such a cycle adds nothing to the outbox |
| `Refresh.ThreeProductsExample` | amazon_discount.py:56-60 | ids 1, 2, 3 give discounts 1, 2, 3 and prices 99, 98, 97; on a fresh database the query at threshold 2 matches ids 2 and 3 only |
| `Refresh.SecondCycleReplaces` | amazon_discount.py:151-152 | a second cycle over the same ids replaces every row the first one wrote, adding none |
| `Refresh.RefreshJob.constructor` | amazon_discount.py:148-149 | the job captures the connection, the ids and the recipient, with nothing sent yet |
| `Refresh.RefreshJob.UpdateJob` | amazon_discount.py:149-156 | the table becomes the old table with the fetched records upserted. The query then runs on the updated table at threshold 15. Exactly one alert is sent if it matched rows, and none otherwise. The alert goes to the configured recipient, lists exactly the matching rows with no id twice, and carries the body built from them |

## Left out

- The Streamlit UI: title, text inputs, `st.write` status lines, `st.json`,
  the download buttons and the "Enable Real-Time Updates" button (lines 150,
  156, 163-211). It is presentation only, and it includes the on-demand
  fetch/save/export at lines 174-186, which composes the modelled operations.
- SMTP delivery and MIME construction in `enhanced_notify_user`, and the
  `try`/`except` that swallows send errors (lines 126-145). This is network
  I/O. An alert appended to the outbox is one handed to the transport, whether
  or not delivery succeeds.
- `notify_user` (lines 81-98). It is never called, and it is only mail I/O.
- Loading configuration with `load_dotenv` and `os.getenv` (lines 101-107).
  This is environment I/O.
- The SQLite engine: the connection, the DDL, `commit` and storage errors
  (lines 26-39, 49). Only the table's logical content is modelled. REAL column
  affinity is not modelled either; it makes price and discount come back as
  floats.
- The `ThreadPoolExecutor` concurrency (line 74) and the `BackgroundScheduler`
  10-minute timer (lines 158-160). A single cycle is modelled, sequentially.
- `datetime.now()` and `time.sleep` (lines 61, 64). Clock readings are an input
  sequence, and the delay has no effect on the data.
- The internals of `json.dumps` (line 69). The serialiser is the parameter
  `dumps`, assumed to produce nonempty, boundary-free text.
- Python's float printing of the REAL columns in the alert body (line 133).
  It is the parameter `showReal`.
- Python's `int()` parsing of the id text (line 175). The parsed ids are the
  model's input.
- Refresh.RefreshJob.UpdateJob: models the cycle as if the connection worked on
  the scheduler's thread. As written, `conn` is opened by `sqlite3.connect` on
  the script thread (lines 27, 166) with the default `check_same_thread=True`,
  and `update_job` only ever runs on the `BackgroundScheduler` worker thread
  (lines 158-160). So `conn.cursor()` in `save_to_db` (line 43, reached from
  line 152) raises `sqlite3.ProgrammingError` on every scheduled run, and in
  the program nothing is saved, queried or sent by a scheduled cycle.
- DiscountStore.DiscountTable.Upsert: the same limit as SaveToDb below; it
  stores any integer, where the `cursor.execute` it models (lines 45-48)
  raises `OverflowError` outside the signed 64-bit range.
- DiscountStore.DiscountTable.SaveToDb: stores any integer. `cursor.execute`
  (lines 45-48) raises `OverflowError` for a value outside the signed 64-bit
  range, which for a fetched record means an id outside 101 - 2^63 .. 2^63 - 1
  (`DiscountStore.FetchedBindable` states the range). The exception aborts the
  scheduled cycle and the on-demand save at line 183, leaving the earlier rows
  of the batch in an uncommitted transaction; the model has no such error path,
  so it agrees with the program only for batches inside that range. The ids
  come unbounded from `int()` at line 175.
- DiscountStore.DiscountTable.FindSignificantDiscounts: does not promise an
  order for the rows found. The query has no ORDER BY, so SQL guarantees
  none, even though SQLite's table scan returns rows by ascending id.
