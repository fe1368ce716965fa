/** How a Sink splits a chunk by partition before writing it. The native and the
    distributed Sink share this grouping; they differ in how they count rows. */
module SinkGrouping {
  import opened Prelude

  /** A non-null column value, known only through the functions that read it. */
  type Val = int

  /** A row: one cell per column, `None` for NULL. */
  type Row = seq<Option<Val>>

  /** A partition of the target: the Sink's constants. */
  datatype Target = Target(
    partKeys: seq<string>, partCols: seq<nat>, nullPartName: string, render: Val -> string)

  type PartKey = seq<string>

  predicate Fits(t: Target, row: Row) {
    forall i :: 0 <= i < |t.partCols| ==> t.partCols[i] < |row|
  }

  predicate ChunkFits(t: Target, chunk: seq<Row>) {
    forall r :: 0 <= r < |chunk| ==> Fits(t, chunk[r])
  }

  function Rendered(t: Target, v: Val): string {
    t.render(v)
  }

  /** The partition a row is written to: NULL goes under the default name. */
  function KeyOf(t: Target, row: Row): PartKey
    requires Fits(t, row)
  {
    seq(|t.partCols|, i requires 0 <= i < |t.partCols| =>
      match row[t.partCols[i]]
      case None => t.nullPartName
      case Some(v) => Rendered(t, v))
  }

  function Keys(t: Target, chunk: seq<Row>): seq<PartKey>
    requires ChunkFits(t, chunk)
  {
    seq(|chunk|, r requires 0 <= r < |chunk| => KeyOf(t, chunk[r]))
  }

  /** The rows that go under `k`, in input order. */
  function RowsUnder(keys: seq<PartKey>, k: PartKey): seq<nat> {
    if keys == [] then []
    else RowsUnder(keys[..|keys| - 1], k) + (if keys[|keys| - 1] == k then [|keys| - 1] else [])
  }

  lemma RowsUnderSnoc(keys: seq<PartKey>, last: PartKey, k: PartKey)
    ensures RowsUnder(keys + [last], k) == RowsUnder(keys, k) + if last == k then [|keys|] else []
  {
    assert (keys + [last])[..|keys|] == keys;
  }

  /** Membership and order: exactly the rows with that key, each once, increasing. */
  lemma {:induction false} RowsUnderExact(keys: seq<PartKey>, k: PartKey)
    ensures forall r :: r in RowsUnder(keys, k) <==> 0 <= r < |keys| && keys[r] == k
    ensures forall i, j :: 0 <= i < j < |RowsUnder(keys, k)| ==> RowsUnder(keys, k)[i] < RowsUnder(keys, k)[j]
  {
    if keys != [] {
      var init := keys[..|keys| - 1];
      RowsUnderExact(init, k);
      forall i, j | 0 <= i < j < |RowsUnder(keys, k)| ensures RowsUnder(keys, k)[i] < RowsUnder(keys, k)[j] {
        assert RowsUnder(keys, k)[i] == RowsUnder(init, k)[i];
        assert RowsUnder(init, k)[i] in RowsUnder(init, k);
      }
    }
  }

  type Groups = map<PartKey, seq<nat>>

  /** The groups of rows with these keys: one for every key that occurs, holding
      exactly its rows in input order. */
  predicate GroupedBy(groups: Groups, keys: seq<PartKey>) {
    groups.Keys == ToSet(keys) && forall k :: k in groups ==> groups[k] == RowsUnder(keys, k)
  }

  /** Adding the next row to its group. */
  lemma GroupedSnoc(groups: Groups, keys: seq<PartKey>, key: PartKey)
    requires GroupedBy(groups, keys)
    ensures GroupedBy(groups[key := (if key in groups then groups[key] else []) + [|keys|]], keys + [key])
  {
    hide RowsUnder;
    if key !in groups {
      NoneUnder(keys, key);
    }
    forall k | k in groups || k == key
      ensures RowsUnder(keys + [key], k) == RowsUnder(keys, k) + if key == k then [|keys|] else []
    {
      RowsUnderSnoc(keys, key, k);
    }
  }

  /** The row loop of the distributed Sink, whose `groups[key]` makes a group on
      first use. */
  method GroupRows(t: Target, chunk: seq<Row>) returns (groups: Groups)
    requires ChunkFits(t, chunk)
    ensures GroupedBy(groups, Keys(t, chunk))
  {
    hide RowsUnder, KeyOf, GroupedBy;
    groups := map[];
    NoGroups();
    ghost var keys := Keys(t, chunk);
    for r := 0 to |chunk|
      invariant GroupedBy(groups, keys[..r])
    {
      var key := ReadKey(t, chunk[r]);
      GroupedSnoc(groups, keys[..r], key);
      assert keys[..r + 1] == keys[..r] + [key];
      groups := groups[key := (if key in groups then groups[key] else []) + [r]];
    }
    assert keys[..|chunk|] == keys;
  }

  lemma NoGroups()
    ensures GroupedBy(map[], [])
  {
  }

  /** The row loop of the native Sink, which places an empty group and then adds to
      whichever group is there. */
  method GroupRowsNative(t: Target, chunk: seq<Row>) returns (groups: Groups)
    requires ChunkFits(t, chunk)
    ensures GroupedBy(groups, Keys(t, chunk))
  {
    hide RowsUnder, GroupedBy;
    groups := map[];
    NoGroups();
    ghost var keys := Keys(t, chunk);
    for r := 0 to |chunk|
      invariant GroupedBy(groups, keys[..r])
    {
      var key: PartKey := [];
      for i := 0 to |t.partCols|
        invariant key == KeyOf(t, chunk[r])[..i]
      {
        var cell := chunk[r][t.partCols[i]];
        if cell.None? {
          key := key + [t.nullPartName];
        } else {
          key := key + [Rendered(t, cell.value)];
        }
      }
      assert key == KeyOf(t, chunk[r]);
      GroupedSnoc(groups, keys[..r], key);
      assert keys[..r + 1] == keys[..r] + [key];
      ghost var before := groups;
      if key !in groups {
        groups := groups[key := []];
      }
      groups := groups[key := groups[key] + [r]];
      assert groups == before[key := (if key in before then before[key] else []) + [r]];
    }
    assert keys[..|chunk|] == keys;
  }

  lemma {:induction false} NoneUnder(keys: seq<PartKey>, k: PartKey)
    requires k !in keys
    ensures RowsUnder(keys, k) == []
  {
    if keys != [] {
      NoneUnder(keys[..|keys| - 1], k);
    }
  }

  /** The inner loop: one key component per partition column. */
  method ReadKey(t: Target, row: Row) returns (key: PartKey)
    requires Fits(t, row)
    ensures key == KeyOf(t, row)
  {
    key := [];
    for i := 0 to |t.partCols|
      invariant key == KeyOf(t, row)[..i]
    {
      var cell := row[t.partCols[i]];
      key := key + [if cell.None? then t.nullPartName else Rendered(t, cell.value)];
    }
  }

  /** The rows of the chunk that belong under `k`, in input order. */
  function RowsWith(t: Target, chunk: seq<Row>, k: PartKey): seq<Row>
    requires ChunkFits(t, chunk)
  {
    if chunk == [] then []
    else
      RowsWith(t, chunk[..|chunk| - 1], k)
      + (if KeyOf(t, chunk[|chunk| - 1]) == k then [chunk[|chunk| - 1]] else [])
  }

  /** `DataChunk::Slice` with a selection vector. */
  function Slice(chunk: seq<Row>, selection: seq<nat>): seq<Row>
    requires forall i :: 0 <= i < |selection| ==> selection[i] < |chunk|
  {
    seq(|selection|, i requires 0 <= i < |selection| => chunk[selection[i]])
  }

  lemma {:induction false} SliceIsRowsWith(t: Target, chunk: seq<Row>, k: PartKey)
    requires ChunkFits(t, chunk)
    ensures var selection := RowsUnder(Keys(t, chunk), k);
            && (forall i :: 0 <= i < |selection| ==> selection[i] < |chunk|)
            && Slice(chunk, selection) == RowsWith(t, chunk, k)
  {
    hide KeyOf, RowsUnder;
    var keys := Keys(t, chunk);
    SelectionInRange(keys, k);
    if chunk == [] {
      NoneUnder(keys, k);
    } else {
      var init, last := chunk[..|chunk| - 1], chunk[|chunk| - 1];
      SliceIsRowsWith(t, init, k);
      assert keys == Keys(t, init) + [KeyOf(t, last)];
      RowsUnderSnoc(Keys(t, init), KeyOf(t, last), k);
    }
  }

  lemma SelectionInRange(keys: seq<PartKey>, k: PartKey)
    ensures forall i :: 0 <= i < |RowsUnder(keys, k)| ==> RowsUnder(keys, k)[i] < |keys|
  {
    RowsUnderExact(keys, k);
    assert forall i :: 0 <= i < |RowsUnder(keys, k)| ==> RowsUnder(keys, k)[i] in RowsUnder(keys, k);
  }

  /** The rows written when the groups are visited in `order`. */
  function WrittenRows(t: Target, chunk: seq<Row>, order: seq<PartKey>): seq<Row>
    requires ChunkFits(t, chunk)
  {
    if order == [] then []
    else WrittenRows(t, chunk, order[..|order| - 1]) + RowsWith(t, chunk, order[|order| - 1])
  }

  lemma {:induction false} WrittenOneMore(t: Target, chunk: seq<Row>, order: seq<PartKey>)
    requires ChunkFits(t, chunk) && chunk != [] && Distinct(order)
    ensures multiset(WrittenRows(t, chunk, order))
         == multiset(WrittenRows(t, chunk[..|chunk| - 1], order))
            + var last := chunk[|chunk| - 1]; if KeyOf(t, last) in order then multiset{last} else multiset{}
  {
    hide KeyOf;
    if order != [] {
      var rest, k := order[..|order| - 1], order[|order| - 1];
      assert order == rest + [k];
      DistinctSnoc(rest, k);
      WrittenOneMore(t, chunk, rest);
    }
  }

  /** Grouping loses nothing and repeats nothing: whatever order the groups are
      written in, the rows written are exactly the rows of the chunk. */
  lemma {:induction false} WrittenIsPermutation(t: Target, chunk: seq<Row>, order: seq<PartKey>)
    requires ChunkFits(t, chunk) && Distinct(order)
    requires forall r :: 0 <= r < |chunk| ==> KeyOf(t, chunk[r]) in order
    ensures multiset(WrittenRows(t, chunk, order)) == multiset(chunk)
  {
    hide KeyOf;
    if chunk == [] {
      NothingWritten(t, order);
    } else {
      var init, last := chunk[..|chunk| - 1], chunk[|chunk| - 1];
      assert chunk == init + [last];
      WrittenIsPermutation(t, init, order);
      WrittenOneMore(t, chunk, order);
    }
  }

  lemma {:induction false} NothingWritten(t: Target, order: seq<PartKey>)
    ensures WrittenRows(t, [], order) == []
  {
    if order != [] {
      NothingWritten(t, order[..|order| - 1]);
    }
  }

  lemma {:induction false} RowsWithKey(t: Target, chunk: seq<Row>, k: PartKey)
    requires ChunkFits(t, chunk)
    ensures forall r :: r in RowsWith(t, chunk, k) ==> Fits(t, r) && KeyOf(t, r) == k
  {
    if chunk != [] {
      RowsWithKey(t, chunk[..|chunk| - 1], k);
    }
  }

  /** One batch handed to the writer. */
  datatype Batch = Batch(partition: map<string, string>, rows: seq<Row>)

  function PartitionOf(t: Target, key: PartKey): map<string, string>
    requires |key| == |t.partKeys|
  {
    map name | name in t.partKeys :: key[LastIndex(t.partKeys, name)]
  }

  /** Assigning in a loop keeps the last value of a repeated key. */
  function LastIndex(names: seq<string>, name: string): (i: nat)
    requires name in names
    ensures i < |names| && names[i] == name
    ensures forall j :: i < j < |names| ==> names[j] != name
  {
    if names[|names| - 1] == name then |names| - 1 else LastIndex(names[..|names| - 1], name)
  }

  function RowsOf(batches: seq<Batch>): seq<Row> {
    if batches == [] then [] else RowsOf(batches[..|batches| - 1]) + batches[|batches| - 1].rows
  }

  lemma RowsOfSnoc(batches: seq<Batch>, b: Batch)
    ensures RowsOf(batches + [b]) == RowsOf(batches) + b.rows
  {
    assert (batches + [b])[..|batches|] == batches;
  }

  /** Every row sits in a batch of its own partition; an unpartitioned table has
      the empty one. */
  ghost predicate WellPlaced(t: Target, batches: seq<Batch>)
    requires |t.partCols| == |t.partKeys|
  {
    forall b, r :: b in batches && r in b.rows ==> Fits(t, r) && b.partition == PartitionOf(t, KeyOf(t, r))
  }

  /** One batch per partition key in `order`, with that key's rows in input order. */
  predicate Grouped(t: Target, chunk: seq<Row>, batches: seq<Batch>, order: seq<PartKey>)
    requires ChunkFits(t, chunk)
  {
    && Distinct(order) && |batches| == |order|
    && forall i :: 0 <= i < |order| ==>
         |order[i]| == |t.partKeys| && batches[i] == Batch(PartitionOf(t, order[i]), RowsWith(t, chunk, order[i]))
  }

  /** What one Sink call writes: the chunk's rows, each once, each well placed, and
      those of one partition together in input order. */
  ghost predicate Writes(t: Target, chunk: seq<Row>, batches: seq<Batch>)
    requires |t.partCols| == |t.partKeys| && ChunkFits(t, chunk)
  {
    && multiset(RowsOf(batches)) == multiset(chunk) && WellPlaced(t, batches)
    && exists order :: Grouped(t, chunk, batches, order)
  }

  lemma {:induction false} OnlyOnePartition(t: Target, chunk: seq<Row>)
    requires ChunkFits(t, chunk) && t.partCols == []
    ensures RowsWith(t, chunk, []) == chunk
  {
    if chunk != [] {
      assert KeyOf(t, chunk[|chunk| - 1]) == [];
      hide KeyOf;
      OnlyOnePartition(t, chunk[..|chunk| - 1]);
      assert chunk == chunk[..|chunk| - 1] + [chunk[|chunk| - 1]];
    }
  }

  /** What a Sink call leaves behind when the writer fails: whole partitions only,
      each well placed and in input order. */
  ghost predicate WritesPart(t: Target, chunk: seq<Row>, batches: seq<Batch>)
    requires |t.partCols| == |t.partKeys| && ChunkFits(t, chunk)
  {
    WellPlaced(t, batches) && exists order :: Grouped(t, chunk, batches, order) && ToSet(order) <= ToSet(Keys(t, chunk))
  }

  /** How often a Sink call writes: once for each partition that occurs. */
  function BatchCount(t: Target, chunk: seq<Row>): nat
    requires ChunkFits(t, chunk)
  {
    if t.partCols == [] then 1 else |ToSet(Keys(t, chunk))|
  }

  /** The outcome of a Sink call whose writer takes `accepts` batches before it fails. */
  ghost predicate Outcome(t: Target, chunk: seq<Row>, accepts: nat, ok: bool, batches: seq<Batch>)
    requires |t.partCols| == |t.partKeys| && ChunkFits(t, chunk)
  {
    && (ok <==> BatchCount(t, chunk) <= accepts)
    && if ok then Writes(t, chunk, batches) else WritesPart(t, chunk, batches) && |batches| == accepts
  }

  /** Also when the writer fails, what was written are rows of the chunk, none twice, and
      no empty batch. */
  lemma WrittenFromChunk(t: Target, chunk: seq<Row>, accepts: nat, ok: bool, batches: seq<Batch>)
    requires |t.partCols| == |t.partKeys| && t.partCols != [] && ChunkFits(t, chunk) && Outcome(t, chunk, accepts, ok, batches)
    ensures multiset(RowsOf(batches)) <= multiset(chunk)
    ensures !ok ==> forall b :: b in batches ==> b.rows != []
  {
    hide KeyOf, RowsOf, RowsWith, WellPlaced, BatchCount;
    if !ok {
      var order :| Grouped(t, chunk, batches, order) && ToSet(order) <= ToSet(Keys(t, chunk));
      GroupedRows(t, chunk, batches, order);
      WrittenIncluded(t, chunk, order);
      forall i | 0 <= i < |order| ensures RowsWith(t, chunk, order[i]) != [] {
        assert order[i] in ToSet(order);
        SomeRowWith(t, chunk, order[i]);
      }
    }
  }

  lemma {:induction false} GroupedRows(t: Target, chunk: seq<Row>, batches: seq<Batch>, order: seq<PartKey>)
    requires ChunkFits(t, chunk) && Grouped(t, chunk, batches, order)
    ensures RowsOf(batches) == WrittenRows(t, chunk, order)
  {
    hide KeyOf, RowsWith, PartitionOf;
    if order != [] {
      GroupedRows(t, chunk, batches[..|batches| - 1], order[..|order| - 1]);
    }
  }

  lemma {:induction false} WrittenIncluded(t: Target, chunk: seq<Row>, order: seq<PartKey>)
    requires ChunkFits(t, chunk) && Distinct(order)
    ensures multiset(WrittenRows(t, chunk, order)) <= multiset(chunk)
  {
    hide KeyOf, WrittenRows;
    if chunk == [] {
      NothingWritten(t, order);
    } else {
      var init, last := chunk[..|chunk| - 1], chunk[|chunk| - 1];
      assert chunk == init + [last];
      WrittenIncluded(t, init, order);
      WrittenOneMore(t, chunk, order);
    }
  }

  lemma {:induction false} SomeRowWith(t: Target, chunk: seq<Row>, k: PartKey)
    requires ChunkFits(t, chunk) && k in Keys(t, chunk)
    ensures RowsWith(t, chunk, k) != []
  {
    hide KeyOf;
    var init, last := chunk[..|chunk| - 1], chunk[|chunk| - 1];
    assert Keys(t, chunk) == Keys(t, init) + [KeyOf(t, last)];
    if KeyOf(t, last) != k {
      SomeRowWith(t, init, k);
    }
  }

  /** The text under which a cell partitions its row. */
  lemma WrittenCells(t: Target, chunk: seq<Row>, accepts: nat, ok: bool, batches: seq<Batch>, b: Batch, r: Row, i: nat)
    requires |t.partCols| == |t.partKeys| && ChunkFits(t, chunk) && Outcome(t, chunk, accepts, ok, batches)
    requires b in batches && r in b.rows
    requires i < |t.partKeys| && forall j :: i < j < |t.partKeys| ==> t.partKeys[j] != t.partKeys[i]
    ensures t.partCols[i] < |r| && b.partition.Keys == ToSet(t.partKeys)
    ensures b.partition[t.partKeys[i]]
         == if r[t.partCols[i]].None? then t.nullPartName else Rendered(t, r[t.partCols[i]].value)
  {
    hide BatchCount, Grouped, RowsOf;
    assert b.partition == PartitionOf(t, KeyOf(t, r));
    assert LastIndex(t.partKeys, t.partKeys[i]) == i;
  }

  /** The one batch of an unpartitioned chunk. */
  method WholeChunk(t: Target, chunk: seq<Row>, accepts: nat) returns (ok: bool, batches: seq<Batch>)
    requires ChunkFits(t, chunk) && t.partCols == [] && t.partKeys == []
    ensures Outcome(t, chunk, accepts, ok, batches)
  {
    hide KeyOf, RowsWith, Keys, WellPlaced;
    NothingYet(t, chunk);
    if accepts == 0 {
      assert Grouped(t, chunk, [], []);
      return false, [];
    }
    batches := [Batch(map[], chunk)];
    OneBatch(t, chunk, batches);
    return true, batches;
  }

  lemma OneBatch(t: Target, chunk: seq<Row>, batches: seq<Batch>)
    requires ChunkFits(t, chunk) && t.partCols == [] && t.partKeys == [] && batches == [Batch(map[], chunk)]
    ensures Writes(t, chunk, batches)
  {
    RowsOfSnoc([], batches[0]);
    assert [] + batches == batches;
    OnlyOnePartition(t, chunk);
    assert PartitionOf(t, []) == map[];
    assert Grouped(t, chunk, batches, [[]]);
  }

  /** The loop over the groups of a partitioned chunk. */
  method WriteGroups(t: Target, chunk: seq<Row>, groups: Groups, accepts: nat) returns (ok: bool, batches: seq<Batch>)
    requires ChunkFits(t, chunk) && |t.partCols| == |t.partKeys| && t.partCols != []
    requires GroupedBy(groups, Keys(t, chunk))
    ensures Outcome(t, chunk, accepts, ok, batches)
  {
    hide KeyOf, RowsUnder, RowsWith, PartitionOf, RowsOf, WrittenRows, WellPlaced, Keys, Slice;
    var pending := groups.Keys;
    ghost var order: seq<PartKey> := [];
    batches := [];
    NothingYet(t, chunk);
    while pending != {}
      invariant pending <= groups.Keys
      invariant groups.Keys == pending + ToSet(order) && pending !! ToSet(order)
      invariant RowsOf(batches) == WrittenRows(t, chunk, order)
      invariant WellPlaced(t, batches) && Grouped(t, chunk, batches, order) && |batches| <= accepts
      decreases pending
    {
      DistinctSize(order);
      if |batches| == accepts {
        assert |groups.Keys| == |pending| + |ToSet(order)|;
        assert ToSet(order) <= ToSet(Keys(t, chunk));
        return false, batches;
      }
      var key :| key in pending;
      SliceIsRowsWith(t, chunk, key);
      KeyLength(t, chunk, key);
      var batch := Batch(PartitionOf(t, key), Slice(chunk, groups[key]));
      OneGroup(t, chunk, order, key, batches, batch);
      batches := batches + [batch];
      order := order + [key];
      pending := pending - {key};
    }
    DistinctSize(order);
    assert groups.Keys == ToSet(order);
    AllKeys(t, chunk, order);
    WrittenIsPermutation(t, chunk, order);
    return true, batches;
  }

  lemma {:induction false} DistinctSize(keys: seq<PartKey>)
    requires Distinct(keys)
    ensures |ToSet(keys)| == |keys|
  {
    if keys != [] {
      var init, last := keys[..|keys| - 1], keys[|keys| - 1];
      assert keys == init + [last];
      DistinctSnoc(init, last);
      DistinctSize(init);
      assert ToSet(keys) == ToSet(init) + {last};
    }
  }

  /** Writing one more group. */
  lemma OneGroup(t: Target, chunk: seq<Row>, order: seq<PartKey>, key: PartKey, batches: seq<Batch>, batch: Batch)
    requires ChunkFits(t, chunk) && |t.partCols| == |t.partKeys| == |key| && key !in order
    requires RowsOf(batches) == WrittenRows(t, chunk, order) && WellPlaced(t, batches) && Grouped(t, chunk, batches, order)
    requires batch == Batch(PartitionOf(t, key), RowsWith(t, chunk, key))
    ensures RowsOf(batches + [batch]) == WrittenRows(t, chunk, order + [key])
    ensures WellPlaced(t, batches + [batch]) && Grouped(t, chunk, batches + [batch], order + [key])
  {
    hide KeyOf, RowsWith, PartitionOf, Grouped, WellPlaced, ChunkFits;
    BatchesSnoc(t, chunk, order, key, batches, batch);
    PlacedSnoc(t, chunk, key, batches, batch);
    RowsOfSnoc(batches, batch);
    assert (order + [key])[..|order|] == order;
  }

  lemma PlacedSnoc(t: Target, chunk: seq<Row>, key: PartKey, batches: seq<Batch>, batch: Batch)
    requires ChunkFits(t, chunk) && |t.partCols| == |t.partKeys| == |key| && WellPlaced(t, batches)
    requires batch == Batch(PartitionOf(t, key), RowsWith(t, chunk, key))
    ensures WellPlaced(t, batches + [batch])
  {
    hide KeyOf, RowsWith, PartitionOf;
    RowsWithKey(t, chunk, key);
  }

  lemma BatchesSnoc(t: Target, chunk: seq<Row>, order: seq<PartKey>, key: PartKey, batches: seq<Batch>, batch: Batch)
    requires ChunkFits(t, chunk) && |t.partKeys| == |key| && key !in order && Grouped(t, chunk, batches, order)
    requires batch == Batch(PartitionOf(t, key), RowsWith(t, chunk, key))
    ensures Grouped(t, chunk, batches + [batch], order + [key])
  {
    hide KeyOf, RowsWith, PartitionOf;
    DistinctSnoc(order, key);
  }

  lemma AllKeys(t: Target, chunk: seq<Row>, order: seq<PartKey>)
    requires ChunkFits(t, chunk) && ToSet(Keys(t, chunk)) <= ToSet(order)
    ensures forall r :: 0 <= r < |chunk| ==> KeyOf(t, chunk[r]) in order
  {
    hide KeyOf;
    forall r | 0 <= r < |chunk| ensures KeyOf(t, chunk[r]) in order {
      assert Keys(t, chunk)[r] in ToSet(Keys(t, chunk));
    }
  }

  lemma NothingYet(t: Target, chunk: seq<Row>)
    requires ChunkFits(t, chunk) && |t.partCols| == |t.partKeys|
    ensures RowsOf([]) == WrittenRows(t, chunk, []) && WellPlaced(t, [])
  {
  }

  lemma KeyLength(t: Target, chunk: seq<Row>, key: PartKey)
    requires ChunkFits(t, chunk) && key in Keys(t, chunk)
    ensures |key| == |t.partCols|
  {
  }

  /** The local state both Sinks write through. */
  class LocalWriter {
    var written: seq<Batch>
    var rowCount: nat

    constructor ()
      ensures written == [] && rowCount == 0
    {
      written, rowCount := [], 0;
    }

    /** The distributed Sink. It raises when the writer fails, which may leave some
        partitions written, and when the checked count would overflow, which happens
        after all of them were; either way the count stays as it was. */
    method SinkDistributed(t: Target, chunk: seq<Row>, accepts: nat) returns (ok: bool)
      requires ChunkFits(t, chunk) && |t.partCols| == |t.partKeys|
      modifies this
      ensures old(written) <= written
      ensures Outcome(t, chunk, accepts, BatchCount(t, chunk) <= accepts, written[|old(written)|..])
      ensures ok <==> BatchCount(t, chunk) <= accepts && old(rowCount) + |chunk| <= IDX_MAX
      ensures rowCount == if ok then old(rowCount) + |chunk| else old(rowCount)
    {
      hide Writes, WritesPart, ChunkFits, Keys, GroupedBy, BatchCount;
      var accepted, batches;
      if t.partCols == [] {
        accepted, batches := WholeChunk(t, chunk, accepts);
      } else {
        var groups := GroupRows(t, chunk);
        accepted, batches := WriteGroups(t, chunk, groups, accepts);
      }
      written := written + batches;
      assert written[|old(written)|..] == batches;
      if !accepted || |chunk| > IDX_MAX - rowCount {
        return false;
      }
      rowCount := rowCount + |chunk|;
      return true;
    }

    /** The native Sink: the same rows reach the same partitions, with the same
        failures of the writer; the counter is a plain 64-bit addition. */
    method SinkNative(t: Target, chunk: seq<Row>, accepts: nat) returns (ok: bool)
      requires ChunkFits(t, chunk) && |t.partCols| == |t.partKeys|
      modifies this
      ensures old(written) <= written && Outcome(t, chunk, accepts, ok, written[|old(written)|..])
      ensures ok <==> BatchCount(t, chunk) <= accepts
      ensures rowCount == if ok then Wrapped(old(rowCount) + |chunk|) else old(rowCount)
    {
      hide Writes, WritesPart, ChunkFits, Keys, GroupedBy, BatchCount;
      var batches;
      if t.partCols == [] {
        ok, batches := WholeChunk(t, chunk, accepts);
      } else {
        var groups := GroupRowsNative(t, chunk);
        ok, batches := WriteGroups(t, chunk, groups, accepts);
      }
      written := written + batches;
      assert written[|old(written)|..] == batches;
      if ok {
        rowCount := Wrapped(rowCount + |chunk|);
      }
    }
  }
}
