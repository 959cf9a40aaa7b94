# MESHJOIN loop of MetroDW, modelled in Dafny

This project models the in-memory part of the MESHJOIN loop in `MetroDW.meshJoin`. That loop enriches
staging transactions with product data and writes the results to the Sales table. It works like this:

- Every transaction is loaded into a FIFO queue and into an `Order_ID` table, and counted.
- The product list is cut into partitions of 100 rows (`createPartitions`).
- While the queue is non-empty, the loop takes the partition under the cursor `partitionIndex`.
  It walks the whole queue with an iterator and looks up each transaction's PRODUCT_ID in that
  partition by linear search (`findById`).
- A hit writes one Sales row (TOTAL_SALE = QUANTITY × price). The transaction is then removed
  through the iterator and `successfulJoins` is incremented.
- A miss leaves the transaction in place and increments `skippedTransactions`.
- After each walk the cursor advances modulo the number of partitions.

Rows are typed records: `Txn` (a staging_Transactions row), `Product` (a Products row, price in
integer cents) and `Sale` (a Sales row). The Sales table is a sequence the loop appends to.

Layout:

- `rows.dfy` holds the records and the Sales row a match produces.
- `partitioning.dfy` holds `createPartitions`: a loop method (`CreatePartitions`) proved against a
  recursive chunking function.
- `lookup.dfy` holds `findById`: an early-return loop method (`FindById`) proved against a
  recursive first-match function.
- `meshjoin_spec.dfy` is the functional specification of the loop:
  - `Pass` is one walk of the queue, `Step` one outer iteration, and `Run` a bounded number of
    outer iterations.
  - Its lemmas prove the loop's invariants, when the queue drains, and that it never drains
    otherwise.
- `metro_dw.dfy` holds the imperative code: the loading loop, the iterator walk that removes
  transactions in place, and the outer loop (`OuterLoop`). Each method is proved equal to the specification
  and to carry its properties.
- `arith.dfy` and `wrappers.dfy` are helpers (division facts; Option and Result).

Behaviour of the code that the model keeps, where it differs from the published MESHJOIN
algorithm:

- There is no entry cycle and no expiry. A transaction whose PRODUCT_ID is in no partition stays
  queued forever, so `while (!transactionQueue.isEmpty())` never exits (`NeverDrains`).
  `MeshJoin` therefore takes a budget `maxPasses` of outer iterations and reports the state it
  reaches.
- `skippedTransactions` counts every (transaction, partition) miss, not each transaction once
  (`SkipsCountEveryPass`).
- With an empty product list and at least one transaction, `productPartitions.get(0)` throws.
  The model returns `Failure(PartitionIndexOutOfBounds)`.
- All transactions are loaded before the loop starts, so the stream buffer has no capacity bound.
- The join probes from the stream side: each queued transaction is searched for in the partition.
- The `Order_ID` table is filled but never read, and matched transactions are never removed from
  it. The model builds it (`LoadTransactions`) and shows what it holds; nothing else uses it.

## Model

| member | source | states |
|---|---|---|
| Partitioning.CreatePartitions | MereoDWConnection/src/com/metro/MetroDW.java:215-226 | the loop returns the chunking of the input; concatenated in order they give back the input; there are ceil(n / size) partitions; each is non-empty and holds at most `size` rows; all but the last hold exactly `size` |
| Partitioning.ChunksConcat | MereoDWConnection/src/com/metro/MetroDW.java:215-225 | concatenating the partitions in order yields exactly the input list, and an empty input is the only one that yields no partitions |
| Partitioning.ChunksCount | MereoDWConnection/src/com/metro/MetroDW.java:220-222 | the number of partitions is ceil(n / partitionSize) |
| Partitioning.ChunksSizes | MereoDWConnection/src/com/metro/MetroDW.java:220-222 | every partition is non-empty with at most partitionSize rows; all but the last have exactly partitionSize |
| Partitioning.ConcatMembers | MereoDWConnection/src/com/metro/MetroDW.java:220-222 | a row is in the concatenation exactly when it is in some partition, so a partition row is a master row and every master row is in a partition |
| Lookup.FindById | MereoDWConnection/src/com/metro/MetroDW.java:228-236 | the scan returns the record at the first position whose PRODUCT_ID equals the value, so no earlier record matches; it returns None exactly when no record matches |
| Lookup.FirstWithIdCorrect | MereoDWConnection/src/com/metro/MetroDW.java:228-235 | the first-match specification returns None exactly when no record has the value, and otherwise the record at the first matching position |
| Lookup.FirstWithIdFound | MereoDWConnection/src/com/metro/MetroDW.java:230-233 | a returned record is a member of the list and its PRODUCT_ID is the wanted value |
| Rows.JoinRowCorrect | MereoDWConnection/src/com/metro/MetroDW.java:149-171 | a Sales row copies Order_ID, Order_Date, CUSTOMER_ID, PRODUCT_ID and QUANTITY from the transaction, takes PRODUCT_NAME and STORE_ID from the product, and has TOTAL_SALE = quantity × price |
| MetroDW.LoadTransactions | MereoDWConnection/src/com/metro/MetroDW.java:84-106 | the queue holds every row in order and the counter is the number of rows; the Order_ID table has exactly the rows' Order_IDs as keys, each mapped to the last row carrying it |
| MetroDW.PutKeysNext | MereoDWConnection/src/com/metro/MetroDW.java:101 | putting a row under its Order_ID keeps the table's keys exactly the Order_IDs seen so far |
| MetroDW.PutLastNext | MereoDWConnection/src/com/metro/MetroDW.java:101 | putting a row under its Order_ID keeps every key mapped to the last row seen so far that carries it |
| MeshJoinSpec.StepKeepsOrphan | MereoDWConnection/src/com/metro/MetroDW.java:135-146 | an outer iteration never removes a queued transaction whose PRODUCT_ID is in no partition |
| MetroDW.JoinPass | MereoDWConnection/src/com/metro/MetroDW.java:132-178 | the iterator walk, which removes each matched transaction from the queue in place and appends its Sales row, leaves exactly the queue, rows and skip count of one Pass; PassSplitsQueue and PassRowsJoined state what that Pass keeps and emits |
| MetroDW.OuterLoop | MereoDWConnection/src/com/metro/MetroDW.java:124-182 | the while loop over partitions, with the queue, counters and Sales updated in place, ends in exactly the state Run reaches from the loaded queue in maxPasses outer iterations, including the failure at an empty partition list |
| MetroDW.MeshJoin | MereoDWConnection/src/com/metro/MetroDW.java:84-182 | the loop's state after at most maxPasses outer iterations equals Run from the loaded queue. It fails exactly when there are transactions, no products and at least one iteration. It keeps the loop invariants, Sales plus queue are the input as a multiset, and the cursor is the iteration count modulo the partition count. The queue is empty after one cycle when every PRODUCT_ID has a product, and never empty when some transaction has none |
| MeshJoinSpec.PassSplitsQueue | MereoDWConnection/src/com/metro/MetroDW.java:135-176 | a pass keeps exactly the transactions with no product in the partition, in order, skipping each once; the rows it emits are for exactly the matched transactions, in queue order |
| MeshJoinSpec.PassRowsJoined | MereoDWConnection/src/com/metro/MetroDW.java:141-175 | every row a pass emits is the join of the transaction it copies with the product findById returns for its PRODUCT_ID |
| MeshJoinSpec.SplitConserves | MereoDWConnection/src/com/metro/MetroDW.java:135-176 | unmatched plus matched transactions are the queue as a multiset; a transaction stays exactly when it is queued and findById misses it |
| MeshJoinSpec.PassConserves | MereoDWConnection/src/com/metro/MetroDW.java:141-176 | after a pass, remaining plus emitted count the queue, and no transaction is both kept and emitted or emitted twice |
| MeshJoinSpec.PassRowsFromMaster | MereoDWConnection/src/com/metro/MetroDW.java:149-171 | every row a pass emits has TOTAL_SALE = QUANTITY × price of a master product with its PRODUCT_ID, whose name and store it carries |
| MeshJoinSpec.StepKeepsInvariant | MereoDWConnection/src/com/metro/MetroDW.java:129-181 | with a partition resident, an outer iteration does not fail and preserves the invariant: successfulJoins + size of the queue = transactionCounter, successfulJoins is the number of Sales rows, every row is enriched by a master product, and the cursor stays in range |
| MeshJoinSpec.StepConserves | MereoDWConnection/src/com/metro/MetroDW.java:135-176 | with the cursor in range, an outer iteration does not fail and moves transactions from the queue to Sales without losing or duplicating any: Sales transactions plus queued ones stay the loaded input as a multiset |
| MeshJoinSpec.RunCursor | MereoDWConnection/src/com/metro/MetroDW.java:126-181 | given a non-empty partition list, the cursor starts at 0 and equals the number of outer iterations modulo the partition count, so it stays within [0, partitions) and `get` never fails |
| MeshJoinSpec.RunKeepsInvariant | MereoDWConnection/src/com/metro/MetroDW.java:87-182 | at every outer-loop boundary successfulJoins + size of the queue = transactionCounter, successfulJoins is the number of Sales rows, and every row is enriched by a master product |
| MeshJoinSpec.RunConserves | MereoDWConnection/src/com/metro/MetroDW.java:87-182 | at every outer-loop boundary the transactions written to Sales plus those still queued are exactly the loaded transactions, as a multiset |
| MeshJoinSpec.RunWithoutPartitions | MereoDWConnection/src/com/metro/MetroDW.java:129-131 | with no partitions the first outer iteration fails at `get(0)` when a transaction is queued; with no transactions the loop is never entered |
| MeshJoinSpec.RunStepIs | MereoDWConnection/src/com/metro/MetroDW.java:129-181 | after k outer iterations with transactions still queued, the next one replaces the queue by what the walk kept, appends its rows to Sales, adds its joins and skips to the counters and advances the cursor modulo the partition count |
| MeshJoinSpec.RunNext | MereoDWConnection/src/com/metro/MetroDW.java:129-181 | while the queue is non-empty, one more outer iteration is one more Step |
| MeshJoinSpec.RunDrainedStays | MereoDWConnection/src/com/metro/MetroDW.java:129 | once the queue is empty the loop has exited and further iterations change nothing |
| MeshJoinSpec.RunFailureStays | MereoDWConnection/src/com/metro/MetroDW.java:131 | a failed run stays failed: the exception ends the method |
| MeshJoinSpec.FirstCycle | MereoDWConnection/src/com/metro/MetroDW.java:129-181 | after k ≤ N outer iterations, every transaction still queued was loaded and has missed partitions 0 .. k-1 |
| MeshJoinSpec.DrainsWithinCycle | MereoDWConnection/src/com/metro/MetroDW.java:129-182 | if every transaction's PRODUCT_ID occurs in the product list, the queue is empty within partitions.size() outer iterations and stays empty |
| MeshJoinSpec.NeverDrains | MereoDWConnection/src/com/metro/MetroDW.java:129-146 | a transaction whose PRODUCT_ID is in no partition is still queued after any number of outer iterations, so the loop never exits |
| MeshJoinSpec.SkipsCountEveryPass | MereoDWConnection/src/com/metro/MetroDW.java:142-146 | when no transaction has a product, k outer iterations leave the queue unchanged and count k × (number of transactions) skips: each miss is counted on every pass |
| MeshJoinSpec.PassMissesAll | MereoDWConnection/src/com/metro/MetroDW.java:142-146 | a pass in which every lookup misses keeps the whole queue and skips each transaction once |

## Left out

- The JDBC connection, driver loading and credentials (lines 11-20, 31) are I/O and configuration and are not modelled.
- `resetSalesTable` (lines 39-70) is DDL against a live database and is not modelled.
- `loadResultSetToList` and the ResultSet reading (lines 90-97, 196-213) depend on result-set metadata. They become input sequences of typed records.
- The `PreparedStatement` insert (lines 155-172) is not modelled. Writing to Sales is appending a `Sale` to a sequence.
- The database rejecting a second Sales row with the same Order_ID (the table's primary key) is a database constraint and is not modelled.
- The placeholder columns CUSTOMER_NAME, GENDER, SUPPLIER_NAME and STORE_NAME (lines 163-169) are constants. `Sale` omits them.
- The `BigDecimal` to `double` conversion and the `double` product (lines 149-152) are floating point. The price is an integer number of cents, and TOTAL_SALE is an exact integer product. DECIMAL(10,2) rounding is not modelled.
- Null column values: a NULL in a staging_Transactions int column reads as 0 through `getInt`, as in the model. A product with a NULL PRODUCT_ID never matches, a NULL price or STORE_ID throws, and a NULL Order_Date fails the NOT NULL insert; these are not modelled.
- Logging and the catch blocks (lines 33-36, 65-69, 190-193) are not modelled.
- Java `int` overflow is not modelled. The counters and `dataIndex + partitionSize` are unbounded integers. This matters for `skippedTransactions` once the misses exceed 2^31 − 1: always in a loop that never exits, and in a draining run when the transactions × partitions miss count is that large (each transaction is counted once for every partition before the one holding its product).
- MeshJoin: the source's outer loop has no bound. The model stops after `maxPasses` outer iterations. `NeverDrains` shows that no bound drains a queue holding a transaction without a product.
- FindById: the source takes the key column name as a parameter. Its only call passes "PRODUCT_ID", so the model fixes the key to `productId`.
- CreatePartitions: requires `partitionSize > 0`. The source's only call passes 100. For a non-empty list, 0 makes its loop never end and a negative size makes `subList` throw; an empty list gives no partitions for any size.
- Partitions are copied slices of the product sequence, not `subList` views; nothing here mutates the product list, so the difference is not observable.
