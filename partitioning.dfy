/**
 * Master partitioning (MetroDW.createPartitions): the product list is cut into consecutive
 * chunks of `partitionSize` rows, the last one possibly shorter.
 */
module Partitioning {
  import opened Arith

  /** The chunks of `data`, front to back; the specification of CreatePartitions. */
  function Chunks<T>(data: seq<T>, size: nat): seq<seq<T>>
    requires size > 0
    decreases |data|
  {
    if data == [] then []
    else if |data| <= size then [data]
    else [data[..size]] + Chunks(data[size..], size)
  }

  /** Concatenation of a list of lists, in order. */
  function Concat<T>(parts: seq<seq<T>>): seq<T>
  {
    if parts == [] then [] else parts[0] + Concat(parts[1..])
  }

  /**
   * createPartitions: appends `data[dataIndex .. min(dataIndex + partitionSize, |data|)]`
   * while `dataIndex < |data|`, advancing `dataIndex` by `partitionSize`.
   */
  method CreatePartitions<T>(data: seq<T>, partitionSize: nat) returns (partitionList: seq<seq<T>>)
    requires partitionSize > 0
    ensures partitionList == Chunks(data, partitionSize)
    ensures Concat(partitionList) == data
    ensures |partitionList| == (|data| + partitionSize - 1) / partitionSize
    ensures forall i :: 0 <= i < |partitionList| ==> 0 < |partitionList[i]| <= partitionSize
    ensures forall i :: 0 <= i < |partitionList| - 1 ==> |partitionList[i]| == partitionSize
  {
    partitionList := [];
    var dataIndex := 0;
    while dataIndex < |data|
      invariant dataIndex <= |data| ==> partitionList + Chunks(data[dataIndex..], partitionSize) == Chunks(data, partitionSize)
      invariant dataIndex > |data| ==> partitionList == Chunks(data, partitionSize)
      decreases |data| - dataIndex
    {
      var end := if dataIndex + partitionSize < |data| then dataIndex + partitionSize else |data|;
      ghost var rest := data[dataIndex..];
      ChunksStep(rest, partitionSize);
      if end < |data| {
        assert rest[..partitionSize] == data[dataIndex..end];
        assert rest[partitionSize..] == data[end..];
      } else {
        assert rest == data[dataIndex..end];
      }
      partitionList := partitionList + [data[dataIndex..end]];
      dataIndex := dataIndex + partitionSize;
    }
    if dataIndex == |data| {
      assert data[dataIndex..] == [];
    }
    ChunksConcat(data, partitionSize);
    ChunksCount(data, partitionSize);
    ChunksSizes(data, partitionSize);
  }

  /** One unfolding of Chunks on a non-empty input. */
  lemma ChunksStep<T>(data: seq<T>, size: nat)
    requires size > 0 && data != []
    ensures |data| <= size ==> Chunks(data, size) == [data]
    ensures |data| > size ==> Chunks(data, size) == [data[..size]] + Chunks(data[size..], size)
  {
  }

  /** Concatenating the partitions in order gives back the input; no input, no partitions. */
  lemma {:induction false} ChunksConcat<T>(data: seq<T>, size: nat)
    requires size > 0
    ensures Concat(Chunks(data, size)) == data
    ensures Chunks(data, size) == [] <==> data == []
    decreases |data|
  {
    if data == [] {
    } else if |data| <= size {
      assert Chunks(data, size) == [data];
      assert Concat([data]) == data + Concat([]);
    } else {
      var rest := Chunks(data[size..], size);
      ChunksConcat(data[size..], size);
      assert Chunks(data, size) == [data[..size]] + rest;
      assert ([data[..size]] + rest)[1..] == rest;
      assert data[..size] + data[size..] == data;
    }
  }

  /** There are ceil(|data| / size) partitions. */
  lemma {:induction false} ChunksCount<T>(data: seq<T>, size: nat)
    requires size > 0
    ensures |Chunks(data, size)| == (|data| + size - 1) / size
    decreases |data|
  {
    if data == [] {
    } else if |data| <= size {
      DivUnique(|data| + size - 1, size, 1);
    } else {
      ChunksCount(data[size..], size);
      ChunksStep(data, size);
      CeilStep(|data|, |data[size..]|, size);
    }
  }

  /** Every partition is non-empty and at most `size` long; all but the last are exactly `size` long. */
  lemma {:induction false} ChunksSizes<T>(data: seq<T>, size: nat)
    requires size > 0
    ensures forall i :: 0 <= i < |Chunks(data, size)| ==> 0 < |Chunks(data, size)[i]| <= size
    ensures forall i :: 0 <= i < |Chunks(data, size)| - 1 ==> |Chunks(data, size)[i]| == size
    decreases |data|
  {
    if data == [] {
    } else if |data| <= size {
    } else {
      ChunksSizes(data[size..], size);
      var rest := Chunks(data[size..], size);
      assert Chunks(data, size) == [data[..size]] + rest;
    }
  }

  /** Every element of a partition is an element of the concatenation, and conversely. */
  lemma {:induction false} ConcatMembers<T>(parts: seq<seq<T>>, x: T)
    ensures x in Concat(parts) <==> exists j :: 0 <= j < |parts| && x in parts[j]
  {
    if parts != [] {
      ConcatMembers(parts[1..], x);
      assert Concat(parts) == parts[0] + Concat(parts[1..]);
      if x in Concat(parts[1..]) {
        var j :| 0 <= j < |parts[1..]| && x in parts[1..][j];
        assert x in parts[j + 1];
      }
      if exists j :: 0 <= j < |parts| && x in parts[j] {
        var j :| 0 <= j < |parts| && x in parts[j];
        if j > 0 { assert x in parts[1..][j - 1]; }
      }
    }
  }
}
