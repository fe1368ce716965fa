/** Planner estimates of a split: sums that saturate to "unknown". The maximum
    `idx_t` is the invalid `optional_idx` and must never be reached. */
module Estimates {
  import opened Prelude

  datatype File = File(size: int, rows: int)

  /** What `dynamic_pointer_cast` finds a split to be. */
  datatype SplitKind = DataSplit | IndexedSplit | OtherSplit

  datatype SplitEstimates = SplitEstimates(hasCardinality: bool, cardinality: nat, hasBytes: bool, bytes: nat)

  function Total(values: seq<int>): int {
    if values == [] then 0 else Total(values[..|values| - 1]) + values[|values| - 1]
  }

  predicate NonNegative(values: seq<int>) {
    forall i :: 0 <= i < |values| ==> values[i] >= 0
  }

  /** The condition under which a sum is a usable estimate. */
  predicate Estimable(values: seq<int>) {
    NonNegative(values) && Total(values) < IDX_MAX
  }

  lemma {:induction false} TotalMonotone(values: seq<int>, k: nat)
    requires k <= |values| && NonNegative(values)
    ensures 0 <= Total(values[..k]) <= Total(values)
    decreases |values| - k
  {
    if k == |values| {
      assert values[..k] == values;
      TotalNonNegative(values);
    } else {
      TotalMonotone(values, k + 1);
      assert values[..k + 1][..k] == values[..k];
      TotalNonNegative(values[..k]);
    }
  }

  lemma {:induction false} TotalNonNegative(values: seq<int>)
    requires NonNegative(values)
    ensures Total(values) >= 0
  {
    if values != [] {
      TotalNonNegative(values[..|values| - 1]);
    }
  }

  /** A list with a usable sum has one for each of its prefixes. */
  lemma EstimablePrefix(values: seq<int>, k: nat)
    requires k <= |values|
    ensures Estimable(values) ==> Estimable(values[..k])
  {
    if NonNegative(values) {
      TotalMonotone(values, k);
    }
  }

  /** `TryAddEstimate`, on the 64-bit values it takes. */
  method TryAddEstimate(value: int, total: nat) returns (ok: bool, total': nat)
    requires total < IDX_MAX
    ensures ok <==> value >= 0 && total + value < IDX_MAX
    ensures total' == if ok then total + value else total
  {
    if value < 0 {
      return false, total;
    }
    if value >= IDX_MAX || total >= IDX_MAX - value {
      return false, total;
    }
    return true, total + value;
  }

  /** One sticky accumulation, as the file loop runs it. */
  method Accumulate(values: seq<int>, enabled: bool) returns (valid: bool, total: nat)
    ensures valid <==> enabled && Estimable(values)
    ensures valid ==> total == Total(values)
    ensures total < IDX_MAX
  {
    valid, total := enabled, 0;
    for i := 0 to |values|
      invariant total < IDX_MAX
      invariant valid <==> enabled && Estimable(values[..i])
      invariant valid ==> total == Total(values[..i])
    {
      assert values[..i + 1][..i] == values[..i];
      if valid {
        TotalNonNegative(values[..i]);
        valid, total := TryAddEstimate(values[i], total);
      } else {
        EstimablePrefix(values[..i + 1], i);
      }
    }
    assert values[..|values|] == values;
  }

  function Sizes(files: seq<File>): seq<int> {
    seq(|files|, i requires 0 <= i < |files| => files[i].size)
  }

  function RowCounts(files: seq<File>): seq<int> {
    seq(|files|, i requires 0 <= i < |files| => files[i].rows)
  }

  /** `GetSplitEstimates`: a byte estimate exactly when the sizes are non-negative
      and sum below the sentinel; a cardinality only for whole append-only splits. */
  method GetSplitEstimates(kind: SplitKind, files: seq<File>, appendOnly: bool) returns (e: SplitEstimates)
    ensures e.hasBytes <==> !kind.OtherSplit? && Estimable(Sizes(files))
    ensures e.hasBytes ==> e.bytes == Total(Sizes(files))
    ensures e.hasCardinality <==> kind.DataSplit? && appendOnly && Estimable(RowCounts(files))
    ensures e.hasCardinality ==> e.cardinality == Total(RowCounts(files))
    ensures e.bytes < IDX_MAX && e.cardinality < IDX_MAX
  {
    if kind.OtherSplit? {
      return SplitEstimates(false, 0, false, 0);
    }
    var validBytes, bytes := Accumulate(Sizes(files), true);
    var validRows, rows := Accumulate(RowCounts(files), appendOnly);
    return SplitEstimates(validRows && kind.DataSplit?, rows, validBytes, bytes);
  }

  lemma {:induction false} TotalAppend(a: seq<int>, b: seq<int>)
    ensures Total(a + b) == Total(a) + Total(b)
  {
    if b == [] {
      assert a + b == a;
    } else {
      assert (a + b)[..|a + b| - 1] == a + b[..|b| - 1];
      TotalAppend(a, b[..|b| - 1]);
    }
  }

  /** The order in which a split lists its files does not matter. */
  lemma {:induction false} OrderIndependent(a: seq<int>, b: seq<int>)
    requires multiset(a) == multiset(b)
    ensures Total(a) == Total(b) && (Estimable(a) <==> Estimable(b))
    decreases |a|
  {
    SameMembers(a, b);
    SameMembers(b, a);
    TotalPermutation(a, b);
  }

  lemma SameMembers(a: seq<int>, b: seq<int>)
    requires multiset(a) == multiset(b)
    ensures NonNegative(a) ==> NonNegative(b)
  {
    forall i | 0 <= i < |b| && NonNegative(a) ensures b[i] >= 0 {
      assert b[i] in multiset(b);
      assert b[i] in a;
    }
  }

  lemma {:induction false} TotalPermutation(a: seq<int>, b: seq<int>)
    requires multiset(a) == multiset(b)
    ensures Total(a) == Total(b)
    decreases |a|
  {
    if a == [] {
      assert |multiset(a)| == |multiset(b)|;
    } else {
      var init, x := a[..|a| - 1], a[|a| - 1];
      assert a == init + [x];
      assert x in multiset(b);
      var j :| 0 <= j < |b| && b[j] == x;
      var rest := b[..j] + b[j + 1..];
      TakenOut(b, j);
      ExtractedTotal(b, j);
      assert multiset(init) == multiset(a) - multiset{x} == multiset(rest);
      TotalPermutation(init, rest);
    }
  }

  lemma ExtractedTotal(b: seq<int>, j: nat)
    requires j < |b|
    ensures Total(b) == Total(b[..j] + b[j + 1..]) + b[j]
  {
    hide Total;
    var tail := [b[j]] + b[j + 1..];
    assert b == b[..j] + tail;
    TotalAppend(b[..j], tail);
    TotalAppend([b[j]], b[j + 1..]);
    TotalAppend(b[..j], b[j + 1..]);
    TotalOne(b[j]);
  }

  lemma TotalOne(x: int)
    ensures Total([x]) == x
  {
  }

  // ---- over the files themselves -------------------------------------------------------

  function SizeSum(files: seq<File>): int {
    if files == [] then 0 else SizeSum(files[..|files| - 1]) + files[|files| - 1].size
  }

  function RowSum(files: seq<File>): int {
    if files == [] then 0 else RowSum(files[..|files| - 1]) + files[|files| - 1].rows
  }

  /** No file has a negative size and the sum is below the invalid index. */
  predicate BytesKnown(files: seq<File>) {
    (forall i :: 0 <= i < |files| ==> files[i].size >= 0) && SizeSum(files) < 0xFFFF_FFFF_FFFF_FFFF
  }

  predicate RowsKnown(files: seq<File>) {
    (forall i :: 0 <= i < |files| ==> files[i].rows >= 0) && RowSum(files) < 0xFFFF_FFFF_FFFF_FFFF
  }

  /** Sizes and row counts are what is summed, each for its own estimate. */
  lemma {:induction false} SumsOverFiles(files: seq<File>)
    ensures Total(Sizes(files)) == SizeSum(files) && Total(RowCounts(files)) == RowSum(files)
    ensures Estimable(Sizes(files)) <==> BytesKnown(files)
    ensures Estimable(RowCounts(files)) <==> RowsKnown(files)
  {
    if files != [] {
      var init := files[..|files| - 1];
      SumsOverFiles(init);
      assert Sizes(files)[..|files| - 1] == Sizes(init) && RowCounts(files)[..|files| - 1] == RowCounts(init);
    }
    assert forall i :: 0 <= i < |files| ==> Sizes(files)[i] == files[i].size && RowCounts(files)[i] == files[i].rows;
  }
}
