/**
 * The imperative code of MetroDW.meshJoin: filling the transaction queue and its Order_ID
 * table, walking the queue against the resident partition with an iterator that removes
 * matched transactions in place, and the outer loop that rotates the partition cursor.
 */
module MetroDW {
  import opened Wrappers
  import opened Rows
  import opened Partitioning
  import opened Lookup
  import opened MeshJoinSpec

  /** The partition size meshJoin passes to createPartitions (line 120). */
  const PartitionSize: nat := 100

  /** Position `i` of `rows` holds the last of `rows[..n]` whose Order_ID is `key`. */
  predicate IsLastWithOrderId(rows: seq<Txn>, n: int, key: int, i: int)
  {
    && 0 <= i < n <= |rows|
    && rows[i].orderId == key
    && forall j :: i < j < n ==> rows[j].orderId != key
  }

  /** The keys of the Order_ID table are exactly the Order_IDs of the first `n` rows. */
  ghost predicate KeysArePrefixIds(table: map<int, Txn>, rows: seq<Txn>, n: int)
  {
    forall key :: key in table <==> exists i :: 0 <= i < n <= |rows| && rows[i].orderId == key
  }

  /** Each key of the Order_ID table maps to the last of the first `n` rows carrying it. */
  ghost predicate KeysMapToLast(table: map<int, Txn>, rows: seq<Txn>, n: int)
  {
    forall key :: key in table ==> exists i :: IsLastWithOrderId(rows, n, key, i) && table[key] == rows[i]
  }

  /** `transactionHashTable.put(Order_ID, row)` keeps the table's keys the Order_IDs seen so far. */
  lemma PutKeysNext(table: map<int, Txn>, rows: seq<Txn>, n: int)
    requires 0 <= n < |rows| && KeysArePrefixIds(table, rows, n)
    ensures KeysArePrefixIds(table[rows[n].orderId := rows[n]], rows, n + 1)
  {
    var next := table[rows[n].orderId := rows[n]];
    forall key ensures key in next <==> exists i :: 0 <= i < n + 1 <= |rows| && rows[i].orderId == key {
      if key == rows[n].orderId {
        assert rows[n].orderId == key;
      } else if exists i :: 0 <= i < n + 1 <= |rows| && rows[i].orderId == key {
        var i :| 0 <= i < n + 1 <= |rows| && rows[i].orderId == key;
        assert i < n;
      }
    }
  }

  /** `transactionHashTable.put(Order_ID, row)` replaces an earlier row with the same Order_ID. */
  lemma PutLastNext(table: map<int, Txn>, rows: seq<Txn>, n: int)
    requires 0 <= n < |rows| && KeysMapToLast(table, rows, n)
    ensures KeysMapToLast(table[rows[n].orderId := rows[n]], rows, n + 1)
  {
    var next := table[rows[n].orderId := rows[n]];
    forall key | key in next
      ensures exists i :: IsLastWithOrderId(rows, n + 1, key, i) && next[key] == rows[i]
    {
      if key == rows[n].orderId {
        assert IsLastWithOrderId(rows, n + 1, key, n);
      } else {
        var i :| IsLastWithOrderId(rows, n, key, i) && table[key] == rows[i];
        assert IsLastWithOrderId(rows, n + 1, key, i);
      }
    }
  }

  /**
   * The loading loop of lines 90-106 over the rows of staging_Transactions: every row is
   * appended to the queue, put into the Order_ID table (a later row with the same Order_ID
   * replaces an earlier one) and counted.
   */
  method LoadTransactions(rows: seq<Txn>)
    returns (transactionQueue: seq<Txn>, transactionHashTable: map<int, Txn>, transactionCounter: nat)
    ensures transactionQueue == rows
    ensures transactionCounter == |rows|
    ensures forall key :: key in transactionHashTable <==> exists i :: 0 <= i < |rows| && rows[i].orderId == key
    ensures forall key :: key in transactionHashTable ==>
              exists i :: IsLastWithOrderId(rows, |rows|, key, i) && transactionHashTable[key] == rows[i]
  {
    transactionQueue, transactionHashTable, transactionCounter := [], map[], 0;
    while transactionCounter < |rows|
      invariant transactionCounter <= |rows|
      invariant transactionQueue == rows[..transactionCounter]
      invariant KeysArePrefixIds(transactionHashTable, rows, transactionCounter)
      invariant KeysMapToLast(transactionHashTable, rows, transactionCounter)
    {
      var singleTransaction := rows[transactionCounter];
      PutKeysNext(transactionHashTable, rows, transactionCounter);
      PutLastNext(transactionHashTable, rows, transactionCounter);
      assert rows[..transactionCounter + 1] == rows[..transactionCounter] + [singleTransaction];
      transactionQueue := transactionQueue + [singleTransaction];
      transactionHashTable := transactionHashTable[singleTransaction.orderId := singleTransaction];
      transactionCounter := transactionCounter + 1;
    }
    assert rows[..transactionCounter] == rows;
  }

  /**
   * One walk of `transactionIterator` over the queue against the resident partition (lines
   * 132-178). A transaction whose PRODUCT_ID findById does not find stays and counts one skip;
   * a matched one has its Sales row written and is then removed through the iterator.
   */
  method JoinPass(queue: seq<Txn>, currentPartition: seq<Product>)
    returns (remaining: seq<Txn>, rows: seq<Sale>, skipped: nat)
    ensures PassResult(remaining, rows, skipped) == Pass(queue, currentPartition)
  {
    remaining, rows, skipped := queue, [], 0;
    var position := 0;           // the iterator's position in the queue being shrunk
    ghost var visited := 0;      // transactions of the original queue already walked over
    while position < |remaining|
      invariant 0 <= position <= |remaining|
      invariant 0 <= visited <= |queue|
      invariant remaining[position..] == queue[visited..]
      invariant PassResult(remaining[..position], rows, skipped) == Pass(queue[..visited], currentPartition)
      decreases |remaining| - position
    {
      var currentTransaction := remaining[position];
      assert currentTransaction == queue[visited];
      assert queue[..visited + 1] == queue[..visited] + [currentTransaction];
      PassSnoc(queue[..visited], currentTransaction, currentPartition);
      var matchingProduct := FindById(currentPartition, currentTransaction.productId);
      if matchingProduct.None? {
        skipped := skipped + 1;
        assert remaining[..position + 1] == remaining[..position] + [currentTransaction];
        position := position + 1;
      } else {
        rows := rows + [JoinRow(currentTransaction, matchingProduct.value)];
        assert (remaining[..position] + remaining[position + 1..])[..position] == remaining[..position];
        assert (remaining[..position] + remaining[position + 1..])[position..] == remaining[position + 1..];
        remaining := remaining[..position] + remaining[position + 1..];
      }
      visited := visited + 1;
    }
    assert remaining[..position] == remaining;
    assert queue[..visited] == queue;
  }

  /**
   * meshJoin with at most `maxPasses` iterations of its outer loop: load the transactions,
   * partition the products, then, while the queue is non-empty, walk it against partition
   * `partitionIndex` and advance the cursor modulo the number of partitions.
   */
  method MeshJoin(transactions: seq<Txn>, products: seq<Product>, maxPasses: nat)
    returns (out: Result<Snapshot, JoinError>)
    ensures out == Run(Start(transactions), Chunks(products, PartitionSize), maxPasses)
    ensures JoinOutcome(transactions, products, Chunks(products, PartitionSize), maxPasses, out)
  {
    var transactionQueue, transactionHashTable, transactionCounter := LoadTransactions(transactions);
    var productPartitions := CreatePartitions(products, PartitionSize);
    out := OuterLoop(transactionQueue, transactionCounter, productPartitions, maxPasses);
    Summarize(transactions, products, productPartitions, maxPasses, out);
  }

  /**
   * The outer loop of meshJoin (lines 124-182), at most `maxPasses` times: while the queue is
   * non-empty, walk it against partition `partitionIndex` and advance the cursor modulo the
   * number of partitions.
   */
  method OuterLoop(loadedQueue: seq<Txn>, transactionCounter: nat, productPartitions: seq<seq<Product>>,
                   maxPasses: nat)
    returns (out: Result<Snapshot, JoinError>)
    ensures out == Run(Snapshot(loadedQueue, [], transactionCounter, 0, 0, 0, 0), productPartitions, maxPasses)
  {
    ghost var start := Snapshot(loadedQueue, [], transactionCounter, 0, 0, 0, 0);
    var transactionQueue := loadedQueue;
    var successfulJoins: nat, skippedTransactions: nat, partitionIndex: nat := 0, 0, 0;
    var sales: seq<Sale> := [];
    var passes := 0;
    while transactionQueue != [] && passes < maxPasses
      invariant passes <= maxPasses
      invariant Run(start, productPartitions, passes) ==
                Success(Snapshot(transactionQueue, sales, transactionCounter, successfulJoins,
                                 skippedTransactions, partitionIndex, passes))
      decreases maxPasses - passes
    {
      ghost var current := Snapshot(transactionQueue, sales, transactionCounter, successfulJoins,
                                    skippedTransactions, partitionIndex, passes);
      if partitionIndex >= |productPartitions| {
        // productPartitions.get(partitionIndex) throws
        out := Failure(PartitionIndexOutOfBounds);
        RunNext(start, productPartitions, passes + 1);
        RunFailureStays(start, productPartitions, passes + 1, maxPasses);
        return;
      }
      var currentPartition := productPartitions[partitionIndex];
      var remaining, rows, skipped := JoinPass(transactionQueue, currentPartition);
      RunStepIs(start, productPartitions, passes, current, remaining, rows, skipped);
      transactionQueue := remaining;
      sales := sales + rows;
      successfulJoins := successfulJoins + |rows|;
      skippedTransactions := skippedTransactions + skipped;
      partitionIndex := (partitionIndex + 1) % |productPartitions|;
      passes := passes + 1;
    }
    out := Success(Snapshot(transactionQueue, sales, transactionCounter, successfulJoins,
                            skippedTransactions, partitionIndex, passes));
    if transactionQueue == [] {
      RunDrainedStays(start, productPartitions, passes, maxPasses);
    }
  }

  /**
   * What meshJoin promises after at most `maxPasses` outer iterations over partitions `parts`:
   * it fails exactly when there are transactions, no products and at least one iteration;
   * otherwise the loop invariants hold, Sales plus the queue are the input as a multiset, and
   * the cursor is the iteration count modulo the partition count. The queue is empty after one
   * cycle when every PRODUCT_ID has a product, and never empty when some transaction has none.
   */
  ghost predicate JoinOutcome(transactions: seq<Txn>, products: seq<Product>, parts: seq<seq<Product>>,
                              maxPasses: nat, out: Result<Snapshot, JoinError>)
  {
    && (out.Failure? <==> products == [] && transactions != [] && maxPasses > 0)
    && (out.Success? ==> Invariant(out.value, transactions, products, parts))
    && (out.Success? ==> Conserved(out.value, transactions))
    && (products != [] ==> out.Success? && parts != [] && out.value.partitionIndex == out.value.passes % |parts|)
    && ((forall i :: 0 <= i < |transactions| ==> HasProduct(products, transactions[i].productId)) &&
        maxPasses >= |parts| ==>
          out.Success? && out.value.queue == [])
    && ((exists i :: 0 <= i < |transactions| && !HasProduct(products, transactions[i].productId)) ==>
          out.Success? ==> out.value.queue != [])
  }

  /** What the lemmas of MeshJoinSpec say about `maxPasses` outer iterations from the start. */
  lemma Summarize(transactions: seq<Txn>, products: seq<Product>, parts: seq<seq<Product>>,
                  maxPasses: nat, out: Result<Snapshot, JoinError>)
    requires parts == Chunks(products, PartitionSize)
    requires out == Run(Start(transactions), parts, maxPasses)
    ensures JoinOutcome(transactions, products, parts, maxPasses, out)
  {
    ChunksConcat(products, PartitionSize);
    if products == [] {
      RunWithoutPartitions(transactions, maxPasses);
      if transactions != [] {
        assert !HasProduct(products, transactions[0].productId);
      }
    } else {
      RunKeepsInvariant(transactions, products, parts, maxPasses);
      RunConserves(transactions, products, parts, maxPasses);
      RunCursor(transactions, parts, maxPasses);
      if forall i :: 0 <= i < |transactions| ==> HasProduct(products, transactions[i].productId) {
        if maxPasses >= |parts| {
          DrainsWithinCycle(transactions, products, parts, maxPasses);
        }
      }
      if exists i :: 0 <= i < |transactions| && !HasProduct(products, transactions[i].productId) {
        var i :| 0 <= i < |transactions| && !HasProduct(products, transactions[i].productId);
        NeverDrains(transactions, products, parts, transactions[i], maxPasses);
      }
    }
  }
}
