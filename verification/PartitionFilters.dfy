/** Partition pruning: equality conditions on partition keys, extracted from the
    filters, expanded from an AND of ORs into an OR of ANDs, and matched against
    the partitions that the Sink wrote. */
module PartitionFilters {
  import opened Prelude
  import opened Pushdown
  import SinkGrouping

  /** One conjunction of `key = text` conditions. */
  type PartFilter = map<string, string>

  /** Column names, partition keys, and `Value::ToString`. */
  datatype Table = Table(columnName: nat -> string, partKeys: set<string>, render: Val -> string)

  function Name(t: Table, col: nat): string {
    t.columnName(col)
  }

  function Render(t: Table, v: Val): string {
    t.render(v)
  }

  // ---- extraction ---------------------------------------------------------------

  /** The column and constant of `col = const` or `const = col` on a partition key
      with a non-null constant. */
  function KeyEquality(t: Table, e: Expr): Option<(nat, Val)> {
    if !e.Compare? || !e.op.Eq? then None
    else if e.left.Column? && e.right.Constant? then OnKey(t, e.left.col, e.right.value)
    else if e.left.Constant? && e.right.Column? then OnKey(t, e.right.col, e.left.value)
    else None
  }

  function OnKey(t: Table, col: nat, value: Option<Val>): Option<(nat, Val)> {
    if Name(t, col) in t.partKeys && value.Some? then Some((col, value.value)) else None
  }

  /** `TryExtractPartitionFilter`: the filter map after writing into it, or `None`
      when nothing matched and the map is as it was. A repeated key keeps its last
      value. */
  function Extract(t: Table, e: Expr, filter: PartFilter): Option<PartFilter>
    decreases e, 1
  {
    match e
    case Compare(_, _, _) =>
      (match KeyEquality(t, e)
       case None => None
       case Some((col, v)) => Some(filter[Name(t, col) := Render(t, v)]))
    case And(children) => ExtractAnd(t, children, filter)
    case _ => None
  }

  function ExtractAnd(t: Table, es: seq<Expr>, filter: PartFilter): Option<PartFilter>
    decreases es, 0
  {
    if es == [] then None
    else
      match Extract(t, es[0], filter)
      case None => ExtractAnd(t, es[1..], filter)
      case Some(filter') =>
        match ExtractAnd(t, es[1..], filter')
        case None => Some(filter')
        case Some(filter'') => Some(filter'')
  }

  /** One filter map per disjunct; none unless every disjunct has one. */
  function ExtractOr(t: Table, es: seq<Expr>): Option<seq<PartFilter>> {
    if es == [] then Some([])
    else
      match (Extract(t, es[0], map[]), ExtractOr(t, es[1..]))
      case (Some(m), Some(ms)) => Some([m] + ms)
      case _ => None
  }

  /** `TryExtractPartitionFilters`; empty means no constraint. */
  function Alternatives(t: Table, e: Expr): seq<PartFilter> {
    match e
    case Or(children) =>
      (match ExtractOr(t, children)
       case Some(ms) => ms
       case None => [])
    case _ =>
      match Extract(t, e, map[])
      case Some(m) => [m]
      case None => []
  }

  // ---- which filters constrain partitions, and how -------------------------------------

  /** The expression is an equality of a partition key with a non-NULL constant, in
      either order, or an AND with such a part. */
  predicate Constrains(t: Table, e: Expr)
    decreases e, 1
  {
    match e
    case Compare(op, left, right) =>
      op.Eq?
      && ((left.Column? && right.Constant? && right.value.Some? && Name(t, left.col) in t.partKeys)
          || (left.Constant? && right.Column? && left.value.Some? && Name(t, right.col) in t.partKeys))
    case And(children) => SomeConstrain(t, children)
    case _ => false
  }

  predicate SomeConstrain(t: Table, es: seq<Expr>)
    decreases es, 0
  {
    es != [] && (Constrains(t, es[0]) || SomeConstrain(t, es[1..]))
  }

  predicate AllConstrain(t: Table, es: seq<Expr>) {
    es != [] ==> Constrains(t, es[0]) && AllConstrain(t, es[1..])
  }

  /** What such an expression demands, condition by condition in order. */
  function Demands(t: Table, e: Expr): seq<(string, string)>
    decreases e, 1
  {
    match e
    case Compare(_, left, right) =>
      if !Constrains(t, e) then []
      else if left.Column? then [(Name(t, left.col), Render(t, right.value.value))]
      else [(Name(t, right.col), Render(t, left.value.value))]
    case And(children) => AllDemands(t, children)
    case _ => []
  }

  function AllDemands(t: Table, es: seq<Expr>): seq<(string, string)>
    decreases es, 0
  {
    if es == [] then [] else Demands(t, es[0]) + AllDemands(t, es[1..])
  }

  /** The demands written one after the other into a map: the last one of a key stays. */
  function Written(filter: PartFilter, demands: seq<(string, string)>): PartFilter
    decreases |demands|
  {
    if demands == [] then filter else Written(filter[demands[0].0 := demands[0].1], demands[1..])
  }

  lemma {:induction false} WrittenTwice(filter: PartFilter, a: seq<(string, string)>, b: seq<(string, string)>)
    ensures Written(filter, a + b) == Written(Written(filter, a), b)
    decreases |a|
  {
    if a == [] {
      assert a + b == b;
    } else {
      assert (a + b)[1..] == a[1..] + b;
      WrittenTwice(filter[a[0].0 := a[0].1], a[1..], b);
    }
  }

  /** An extraction succeeds exactly for expressions that constrain, and adds exactly
      what they demand. */
  lemma {:induction false} ExtractExactly(t: Table, e: Expr, filter: PartFilter)
    ensures Extract(t, e, filter) == if Constrains(t, e) then Some(Written(filter, Demands(t, e))) else None
    ensures !Constrains(t, e) ==> Demands(t, e) == []
    decreases e, 1
  {
    match e
    case Compare(_, _, _) =>
      if Constrains(t, e) {
        assert Demands(t, e)[1..] == [];
      }
    case And(children) => ExtractAndExactly(t, children, filter);
    case _ =>
  }

  lemma {:induction false} ExtractAndExactly(t: Table, es: seq<Expr>, filter: PartFilter)
    ensures ExtractAnd(t, es, filter) == if SomeConstrain(t, es) then Some(Written(filter, AllDemands(t, es))) else None
    ensures !SomeConstrain(t, es) ==> AllDemands(t, es) == []
    decreases es, 0
  {
    if es != [] {
      ExtractExactly(t, es[0], filter);
      var after := Written(filter, Demands(t, es[0]));
      ExtractAndExactly(t, es[1..], after);
      WrittenTwice(filter, Demands(t, es[0]), AllDemands(t, es[1..]));
    }
  }

  /** A filter gives alternatives exactly when it constrains, or is an OR whose disjuncts
      all do; there is one for each disjunct, with that disjunct's demands. */
  lemma AlternativesExactly(t: Table, e: Expr)
    ensures !e.Or? ==> Alternatives(t, e) == if Constrains(t, e) then [Written(map[], Demands(t, e))] else []
    ensures e.Or? && !AllConstrain(t, e.children) ==> Alternatives(t, e) == []
    ensures e.Or? && AllConstrain(t, e.children) ==>
              && |Alternatives(t, e)| == |e.children|
              && forall i :: 0 <= i < |e.children| ==> Alternatives(t, e)[i] == Written(map[], Demands(t, e.children[i]))
  {
    if e.Or? {
      DisjunctsExtracted(t, e.children);
    } else {
      ExtractExactly(t, e, map[]);
    }
  }

  lemma {:induction false} DisjunctsExtracted(t: Table, es: seq<Expr>)
    ensures ExtractOr(t, es).Some? <==> AllConstrain(t, es)
    ensures AllConstrain(t, es) ==>
              && |ExtractOr(t, es).value| == |es|
              && forall i :: 0 <= i < |es| ==> ExtractOr(t, es).value[i] == Written(map[], Demands(t, es[i]))
  {
    if es != [] {
      ExtractExactly(t, es[0], map[]);
      DisjunctsExtracted(t, es[1..]);
      assert forall i :: 0 < i < |es| ==> es[i] == es[1..][i - 1];
    }
  }

  // ---- the cross product ------------------------------------------------------------

  predicate Agree(a: PartFilter, b: PartFilter) {
    forall k :: k in a && k in b ==> a[k] == b[k]
  }

  /** The lambda of the pushdown: merge unless a key would get two values. */
  method MergePartFilter(existing: PartFilter, incoming: PartFilter) returns (merged: Option<PartFilter>)
    ensures merged == if Agree(existing, incoming) then Some(existing + incoming) else None
  {
    var result := existing;
    var todo := incoming.Keys;
    while todo != {}
      invariant todo <= incoming.Keys
      invariant result == existing + (map k | k in incoming && k !in todo :: incoming[k])
      invariant forall k :: k in incoming && k !in todo && k in existing ==> existing[k] == incoming[k]
      decreases todo
    {
      var k :| k in todo;
      if k in result && result[k] != incoming[k] {
        return None;
      }
      result := result[k := incoming[k]];
      todo := todo - {k};
    }
    assert (map k | k in incoming && k !in todo :: incoming[k]) == incoming;
    return Some(result);
  }

  function MergeWith(existing: PartFilter, entry: seq<PartFilter>): seq<PartFilter> {
    if entry == [] then []
    else
      MergeWith(existing, entry[..|entry| - 1])
      + (if Agree(existing, entry[|entry| - 1]) then [existing + entry[|entry| - 1]] else [])
  }

  function MergeEntries(combined: seq<PartFilter>, entry: seq<PartFilter>): seq<PartFilter> {
    if combined == [] then []
    else MergeEntries(combined[..|combined| - 1], entry) + MergeWith(combined[|combined| - 1], entry)
  }

  /** Merging every combination of one filter per entry. */
  function Cross(entries: seq<seq<PartFilter>>): seq<PartFilter>
    requires entries != []
  {
    if |entries| == 1 then entries[0]
    else MergeEntries(Cross(entries[..|entries| - 1]), entries[|entries| - 1])
  }

  /** The three nested loops. */
  method CrossProduct(entries: seq<seq<PartFilter>>) returns (combined: seq<PartFilter>)
    requires entries != []
    ensures combined == Cross(entries)
  {
    hide Agree;
    combined := entries[0];
    assert entries[..1] == [entries[0]];
    for i := 1 to |entries|
      invariant combined == Cross(entries[..i])
    {
      var next: seq<PartFilter> := [];
      for j := 0 to |combined|
        invariant next == MergeEntries(combined[..j], entries[i])
      {
        ghost var before := next;
        for k := 0 to |entries[i]|
          invariant next == before + MergeWith(combined[j], entries[i][..k])
        {
          var merged := MergePartFilter(combined[j], entries[i][k]);
          assert entries[i][..k + 1][..k] == entries[i][..k];
          if merged.Some? {
            next := next + [merged.value];
          }
        }
        assert entries[i][..|entries[i]|] == entries[i];
        assert combined[..j + 1][..j] == combined[..j];
      }
      assert combined[..|combined|] == combined;
      assert entries[..i + 1][..i] == entries[..i];
      combined := next;
    }
    assert entries[..|entries|] == entries;
  }

  // ---- what the cross product is ------------------------------------------------------

  ghost predicate Chooses(choice: seq<PartFilter>, entries: seq<seq<PartFilter>>) {
    |choice| == |entries| && forall i :: 0 <= i < |choice| ==> choice[i] in entries[i]
  }

  ghost predicate Consistent(choice: seq<PartFilter>) {
    forall i, j :: 0 <= i < j < |choice| ==> Agree(choice[i], choice[j])
  }

  ghost function Union(choice: seq<PartFilter>): PartFilter {
    if choice == [] then map[] else Union(choice[..|choice| - 1]) + choice[|choice| - 1]
  }

  lemma {:induction false} MergeWithMember(existing: PartFilter, entry: seq<PartFilter>, m: PartFilter)
    ensures m in MergeWith(existing, entry) <==> exists b :: b in entry && Agree(existing, b) && m == existing + b
  {
    hide Agree;
    if entry != [] {
      var init, last := entry[..|entry| - 1], entry[|entry| - 1];
      assert entry == init + [last];
      MergeWithMember(existing, init, m);
    }
  }

  lemma {:induction false} MergeEntriesMember(combined: seq<PartFilter>, entry: seq<PartFilter>, m: PartFilter)
    ensures m in MergeEntries(combined, entry)
       <==> exists a, b :: a in combined && b in entry && Agree(a, b) && m == a + b
  {
    hide Agree, MergeWith;
    if combined != [] {
      var init, last := combined[..|combined| - 1], combined[|combined| - 1];
      assert combined == init + [last];
      MergeEntriesMember(init, entry, m);
      MergeWithMember(last, entry, m);
    }
  }

  lemma ConsistentPrefix(choice: seq<PartFilter>, n: nat)
    requires Consistent(choice) && n <= |choice|
    ensures Consistent(choice[..n])
  {
    forall i, j | 0 <= i < j < n ensures Agree(choice[..n][i], choice[..n][j]) {
      assert Agree(choice[i], choice[j]);
    }
  }

  /** A union has every choice's keys, with the choice's values. */
  lemma {:induction false} UnionHas(choice: seq<PartFilter>, i: nat, k: string)
    requires Consistent(choice) && i < |choice| && k in choice[i]
    ensures k in Union(choice) && Union(choice)[k] == choice[i][k]
  {
    var init, last := choice[..|choice| - 1], choice[|choice| - 1];
    if i < |init| {
      ConsistentPrefix(choice, |init|);
      UnionHas(init, i, k);
      assert Agree(choice[i], last);
    }
  }

  /** And no others. */
  lemma {:induction false} UnionOrigin(choice: seq<PartFilter>, k: string) returns (i: nat)
    requires k in Union(choice)
    ensures i < |choice| && k in choice[i]
  {
    var init, last := choice[..|choice| - 1], choice[|choice| - 1];
    if k in last {
      i := |init|;
    } else {
      i := UnionOrigin(init, k);
    }
  }

  /** A union agrees with one more filter exactly when every part of it does. */
  lemma UnionAgrees(choice: seq<PartFilter>, m: PartFilter)
    requires Consistent(choice)
    ensures Agree(Union(choice), m) <==> Consistent(choice + [m])
  {
    var all := choice + [m];
    if Agree(Union(choice), m) {
      forall i, j | 0 <= i < j < |all| ensures Agree(all[i], all[j]) {
        if j < |choice| {
          assert Agree(choice[i], choice[j]);
        } else {
          forall k | k in choice[i] && k in m ensures choice[i][k] == m[k] {
            UnionHas(choice, i, k);
          }
        }
      }
    }
    if Consistent(all) {
      forall k | k in Union(choice) && k in m ensures Union(choice)[k] == m[k] {
        var i := UnionOrigin(choice, k);
        UnionHas(choice, i, k);
        assert Agree(all[i], all[|choice|]);
      }
    }
  }

  lemma OneMoreChoice(prefix: seq<PartFilter>, b: PartFilter, entries: seq<seq<PartFilter>>)
    requires |entries| > 0 && Chooses(prefix, entries[..|entries| - 1]) && b in entries[|entries| - 1]
    requires Consistent(prefix) && Agree(Union(prefix), b)
    ensures Chooses(prefix + [b], entries) && Consistent(prefix + [b]) && Union(prefix + [b]) == Union(prefix) + b
  {
    UnionAgrees(prefix, b);
    hide Agree, Consistent;
    assert (prefix + [b])[..|prefix|] == prefix;
  }

  /** Every filter of the product is the union of a consistent choice. */
  lemma {:induction false} CrossIsChoice(entries: seq<seq<PartFilter>>, m: PartFilter) returns (choice: seq<PartFilter>)
    requires entries != [] && m in Cross(entries)
    ensures Chooses(choice, entries) && Consistent(choice) && m == Union(choice)
  {
    if |entries| == 1 {
      choice := [m];
      assert Union(choice[..0]) == map[];
    } else {
      hide Agree, Consistent, Union, Chooses, MergeEntries;
      var init, last := entries[..|entries| - 1], entries[|entries| - 1];
      assert Cross(entries) == MergeEntries(Cross(init), last);
      MergeEntriesMember(Cross(init), last, m);
      var a, b :| a in Cross(init) && b in last && Agree(a, b) && m == a + b;
      var prefix := CrossIsChoice(init, a);
      OneMoreChoice(prefix, b, entries);
      choice := prefix + [b];
    }
  }

  /** And the union of every consistent choice is in the product. */
  lemma {:induction false} ChoiceIsCross(entries: seq<seq<PartFilter>>, choice: seq<PartFilter>)
    requires entries != [] && Chooses(choice, entries) && Consistent(choice)
    ensures Union(choice) in Cross(entries)
  {
    hide Agree;
    var init, b := choice[..|choice| - 1], choice[|choice| - 1];
    if |entries| == 1 {
      assert Union(choice) == b;
    } else {
      ConsistentPrefix(choice, |init|);
      ChoiceIsCross(entries[..|entries| - 1], init);
      assert init + [b] == choice;
      UnionAgrees(init, b);
      MergeEntriesMember(Cross(entries[..|entries| - 1]), entries[|entries| - 1], Union(choice));
    }
  }

  /** The product is exactly the set of consistent unions of one filter per entry. */
  lemma CrossExact(entries: seq<seq<PartFilter>>, m: PartFilter)
    requires entries != []
    ensures m in Cross(entries)
       <==> exists choice :: Chooses(choice, entries) && Consistent(choice) && m == Union(choice)
  {
    if m in Cross(entries) {
      var choice := CrossIsChoice(entries, m);
    }
    if exists choice :: Chooses(choice, entries) && Consistent(choice) && m == Union(choice) {
      var choice :| Chooses(choice, entries) && Consistent(choice) && m == Union(choice);
      ChoiceIsCross(entries, choice);
    }
  }

  // ---- meaning ---------------------------------------------------------------------------

  /** A partition satisfies a filter when it has every demanded value. */
  predicate Satisfies(partition: map<string, string>, m: PartFilter) {
    forall k :: k in m ==> k in partition && partition[k] == m[k]
  }

  ghost predicate SatisfiesSome(partition: map<string, string>, ms: seq<PartFilter>) {
    exists m :: m in ms && Satisfies(partition, m)
  }

  lemma MergeSatisfied(partition: map<string, string>, a: PartFilter, b: PartFilter)
    ensures Agree(a, b) && Satisfies(partition, a + b) <==> Satisfies(partition, a) && Satisfies(partition, b)
  {
    if Agree(a, b) && Satisfies(partition, a + b) {
      forall k | k in a ensures k in partition && partition[k] == a[k] {
        assert k in a + b && (a + b)[k] == a[k];
      }
      forall k | k in b ensures k in partition && partition[k] == b[k] {
        assert k in a + b && (a + b)[k] == b[k];
      }
    }
  }

  /** The OR of the product means the AND of the entries' ORs, for every partition. */
  lemma {:induction false} CrossMeaning(entries: seq<seq<PartFilter>>, partition: map<string, string>)
    requires entries != []
    ensures SatisfiesSome(partition, Cross(entries))
       <==> forall i :: 0 <= i < |entries| ==> SatisfiesSome(partition, entries[i])
  {
    hide Satisfies, Agree;
    if |entries| > 1 {
      var init, last := entries[..|entries| - 1], entries[|entries| - 1];
      CrossMeaning(init, partition);
      assert (forall i :: 0 <= i < |entries| ==> SatisfiesSome(partition, entries[i]))
          <==> SatisfiesSome(partition, Cross(init)) && SatisfiesSome(partition, last) by {
        assert forall i :: 0 <= i < |init| ==> init[i] == entries[i];
      }
      MergedMeaning(Cross(init), last, partition);
    }
  }

  lemma MergedMeaning(combined: seq<PartFilter>, entry: seq<PartFilter>, partition: map<string, string>)
    ensures SatisfiesSome(partition, MergeEntries(combined, entry))
       <==> SatisfiesSome(partition, combined) && SatisfiesSome(partition, entry)
  {
    hide Satisfies, Agree, MergeEntries;
    if SatisfiesSome(partition, MergeEntries(combined, entry)) {
      var m :| m in MergeEntries(combined, entry) && Satisfies(partition, m);
      MergeEntriesMember(combined, entry, m);
      var a, b :| a in combined && b in entry && Agree(a, b) && m == a + b;
      MergeSatisfied(partition, a, b);
    }
    if SatisfiesSome(partition, combined) && SatisfiesSome(partition, entry) {
      var a :| a in combined && Satisfies(partition, a);
      var b :| b in entry && Satisfies(partition, b);
      MergeSatisfied(partition, a, b);
      MergeEntriesMember(combined, entry, a + b);
    }
  }

  // ---- filters against written partitions ----------------------------------------------------

  /** Values that compare equal print equally. */
  ghost predicate Printable(env: Env, t: Table) {
    forall x, v :: Compares(env, Eq, x, v) ==> Render(t, x) == Render(t, v)
  }

  /** The scanned table is the one the Sink writes: same keys, same printing, and a
      partition key names the column it is computed from. */
  ghost predicate Linked(t: Table, sink: SinkGrouping.Target) {
    && |sink.partCols| == |sink.partKeys|
    && t.partKeys == ToSet(sink.partKeys)
    && (forall v :: SinkGrouping.Rendered(sink, v) == Render(t, v))
    && (forall c, i :: 0 <= i < |sink.partKeys| && Name(t, c) == sink.partKeys[i] ==> c == sink.partCols[i])
  }

  /** The partition a row was written to. */
  function PartitionOf(sink: SinkGrouping.Target, row: Row): map<string, string>
    requires |sink.partCols| == |sink.partKeys| && SinkGrouping.Fits(sink, row)
  {
    SinkGrouping.PartitionOf(sink, SinkGrouping.KeyOf(sink, row))
  }

  lemma EqualityMatches(env: Env, t: Table, sink: SinkGrouping.Target, e: Expr, row: Row)
    requires Printable(env, t) && Linked(t, sink) && SinkGrouping.Fits(sink, row)
    requires KeyEquality(t, e).Some? && Eval(env, e, row).T?
    ensures var (col, v) := KeyEquality(t, e).value;
            Name(t, col) in PartitionOf(sink, row) && PartitionOf(sink, row)[Name(t, col)] == Render(t, v)
  {
    var (col, v) := KeyEquality(t, e).value;
    var name := Name(t, col);
    var i := SinkGrouping.LastIndex(sink.partKeys, name);
    assert col == sink.partCols[i];
    assert Cell(row, col).Some?;
    var x := Cell(row, col).value;
    assert Compares(env, Eq, x, v) || Compares(env, Eq, v, x);
    assert SinkGrouping.Rendered(sink, x) == Render(t, x);
  }

  /** What is extracted from a filter holds of the partition of every row on which
      the filter is TRUE, even where a later condition overwrote an earlier one. */
  lemma {:induction false} ExtractSound(env: Env, t: Table, sink: SinkGrouping.Target, e: Expr, filter: PartFilter, row: Row)
    requires Printable(env, t) && Linked(t, sink) && SinkGrouping.Fits(sink, row)
    requires Eval(env, e, row).T? && Satisfies(PartitionOf(sink, row), filter) && Extract(t, e, filter).Some?
    ensures Satisfies(PartitionOf(sink, row), Extract(t, e, filter).value)
    decreases e, 1
  {
    hide Linked, Printable, PartitionOf;
    match e
    case Compare(_, _, _) => EqualityMatches(env, t, sink, e, row);
    case And(children) => ExtractAndSound(env, t, sink, children, filter, row);
  }

  lemma {:induction false} ExtractAndSound(env: Env, t: Table, sink: SinkGrouping.Target, es: seq<Expr>,
                                           filter: PartFilter, row: Row)
    requires Printable(env, t) && Linked(t, sink) && SinkGrouping.Fits(sink, row)
    requires EvalAnd(env, es, row).T? && Satisfies(PartitionOf(sink, row), filter)
    ensures ExtractAnd(t, es, filter).Some? ==> Satisfies(PartitionOf(sink, row), ExtractAnd(t, es, filter).value)
    decreases es, 0
  {
    hide Linked, Printable, PartitionOf, Satisfies;
    if es != [] {
      match Extract(t, es[0], filter) {
        case None => ExtractAndSound(env, t, sink, es[1..], filter, row);
        case Some(filter') =>
          ExtractSound(env, t, sink, es[0], filter, row);
          ExtractAndSound(env, t, sink, es[1..], filter', row);
      }
    }
  }

  lemma {:induction false} ExtractOrSound(env: Env, t: Table, sink: SinkGrouping.Target, es: seq<Expr>, row: Row)
    requires Printable(env, t) && Linked(t, sink) && SinkGrouping.Fits(sink, row)
    requires EvalOr(env, es, row).T? && ExtractOr(t, es).Some?
    ensures SatisfiesSome(PartitionOf(sink, row), ExtractOr(t, es).value)
  {
    hide Printable, PartitionOf;
    var partition := PartitionOf(sink, row);
    if Eval(env, es[0], row).T? {
      assert Satisfies(partition, map[]);
      ExtractSound(env, t, sink, es[0], map[], row);
      assert Extract(t, es[0], map[]).value in ExtractOr(t, es).value;
    } else {
      ExtractOrSound(env, t, sink, es[1..], row);
      var m :| m in ExtractOr(t, es[1..]).value && Satisfies(partition, m);
      assert m in ExtractOr(t, es).value;
    }
  }

  lemma AlternativesSound(env: Env, t: Table, sink: SinkGrouping.Target, e: Expr, row: Row)
    requires Printable(env, t) && Linked(t, sink) && SinkGrouping.Fits(sink, row)
    requires Eval(env, e, row).T? && Alternatives(t, e) != []
    ensures SatisfiesSome(PartitionOf(sink, row), Alternatives(t, e))
  {
    hide Printable, PartitionOf;
    if e.Or? {
      ExtractOrSound(env, t, sink, e.children, row);
    } else {
      assert Satisfies(PartitionOf(sink, row), map[]);
      ExtractSound(env, t, sink, e, map[], row);
      assert Extract(t, e, map[]).value in Alternatives(t, e);
    }
  }

  /** The entries of the product: one per filter that constrains partitions. */
  function Entries(t: Table, filters: seq<Expr>): seq<seq<PartFilter>> {
    if filters == [] then []
    else
      var last := Alternatives(t, filters[|filters| - 1]);
      Entries(t, filters[..|filters| - 1]) + (if last == [] then [] else [last])
  }

  /** `bind.part_filters`; empty means that the scan is not pruned by partition. */
  function PartFilters(t: Table, filters: seq<Expr>): seq<PartFilter> {
    if t.partKeys == {} || Entries(t, filters) == [] then [] else Cross(Entries(t, filters))
  }

  /** The second half of `PaimonPushdownFilter`. */
  method PushPartitionFilters(t: Table, filters: seq<Expr>) returns (partFilters: seq<PartFilter>)
    ensures partFilters == PartFilters(t, filters)
  {
    partFilters := [];
    if t.partKeys != {} {
      var perExpr: seq<seq<PartFilter>> := [];
      for i := 0 to |filters|
        invariant perExpr == Entries(t, filters[..i])
      {
        assert filters[..i + 1][..i] == filters[..i];
        var alternatives := Alternatives(t, filters[i]);
        if alternatives != [] {
          perExpr := perExpr + [alternatives];
        }
      }
      assert filters[..|filters|] == filters;
      if perExpr != [] {
        partFilters := CrossProduct(perExpr);
      }
    }
  }

  lemma {:induction false} TrueConjuncts(env: Env, es: seq<Expr>, i: nat, row: Row)
    requires i < |es| && EvalAnd(env, es, row).T?
    ensures Eval(env, es[i], row).T?
  {
    if i > 0 {
      TrueConjuncts(env, es[1..], i - 1, row);
    }
  }

  /** Every entry is satisfied by the partition of a row that passes all filters. */
  lemma {:induction false} EntriesSatisfied(env: Env, t: Table, sink: SinkGrouping.Target, filters: seq<Expr>, n: nat, row: Row)
    requires Printable(env, t) && Linked(t, sink) && SinkGrouping.Fits(sink, row)
    requires EvalAnd(env, filters, row).T? && n <= |filters|
    ensures forall i :: 0 <= i < |Entries(t, filters[..n])| ==>
              SatisfiesSome(PartitionOf(sink, row), Entries(t, filters[..n])[i])
  {
    hide Linked, Printable, PartitionOf, SatisfiesSome, Alternatives;
    if n > 0 {
      EntriesSatisfied(env, t, sink, filters, n - 1, row);
      assert filters[..n][..n - 1] == filters[..n - 1];
      TrueConjuncts(env, filters, n - 1, row);
      if Alternatives(t, filters[n - 1]) != [] {
        AlternativesSound(env, t, sink, filters[n - 1], row);
      }
    }
  }

  /** Partition pruning loses no row: the partition of every row that passes all
      filters satisfies some pushed filter, or nothing is pruned at all. */
  lemma PruningSound(env: Env, t: Table, sink: SinkGrouping.Target, filters: seq<Expr>, row: Row)
    requires Printable(env, t) && Linked(t, sink) && SinkGrouping.Fits(sink, row)
    requires EvalAnd(env, filters, row).T? && Entries(t, filters) != []
    ensures SatisfiesSome(PartitionOf(sink, row), Cross(Entries(t, filters)))
  {
    hide Printable, PartitionOf, SatisfiesSome, Alternatives;
    assert filters[..|filters|] == filters;
    EntriesSatisfied(env, t, sink, filters, |filters|, row);
    CrossMeaning(Entries(t, filters), PartitionOf(sink, row));
  }

  /** Write and read agree: a row the Sink wrote and that passes the query's filters
      lies in a partition the scan reads. */
  lemma WrittenRowIsScanned(env: Env, t: Table, sink: SinkGrouping.Target, filters: seq<Expr>,
                            batches: seq<SinkGrouping.Batch>, b: SinkGrouping.Batch, row: Row)
    requires Printable(env, t) && Linked(t, sink) && SinkGrouping.WellPlaced(sink, batches)
    requires b in batches && row in b.rows && EvalAnd(env, filters, row).T?
    ensures PartFilters(t, filters) == [] || SatisfiesSome(b.partition, PartFilters(t, filters))
  {
    assert SinkGrouping.Fits(sink, row) && b.partition == PartitionOf(sink, row);
    hide Printable, Linked, PartitionOf, SatisfiesSome, Entries, Cross, EvalAnd, SinkGrouping.WellPlaced;
    if PartFilters(t, filters) != [] {
      PruningSound(env, t, sink, filters, row);
    }
  }

  /** When all combinations contradict each other the list is empty and the scan is
      unpruned; no row passes the filters then anyway. */
  lemma ContradictionMeansNoRow(env: Env, t: Table, sink: SinkGrouping.Target, filters: seq<Expr>, row: Row)
    requires Printable(env, t) && Linked(t, sink) && SinkGrouping.Fits(sink, row)
    requires Entries(t, filters) != [] && Cross(Entries(t, filters)) == []
    ensures !EvalAnd(env, filters, row).T?
  {
    if EvalAnd(env, filters, row).T? {
      PruningSound(env, t, sink, filters, row);
    }
  }

  lemma SingleFilter(t: Table, col: nat, v: Val)
    requires Name(t, col) in t.partKeys
    ensures PartFilters(t, [Compare(Eq, Column(col), Constant(Some(v)))]) == [map[Name(t, col) := Render(t, v)]]
  {
    var e := Compare(Eq, Column(col), Constant(Some(v)));
    assert [e][..0] == [];
    assert Entries(t, []) == [];
    assert Entries(t, [e]) == [Alternatives(t, e)];
  }

  /** Equal printing is needed: with a value that equals the constant but prints
      differently, the row passes the filter and its partition is pruned. */
  lemma UnprintableLoses(env: Env, t: Table, sink: SinkGrouping.Target, col: nat, v: Val, row: Row)
    requires Linked(t, sink) && SinkGrouping.Fits(sink, row) && Name(t, col) in t.partKeys
    requires col < |row| && row[col].Some? && Compares(env, Eq, row[col].value, v)
    requires Render(t, row[col].value) != Render(t, v)
    ensures var filters := [Compare(Eq, Column(col), Constant(Some(v)))];
            && EvalAnd(env, filters, row).T?
            && PartFilters(t, filters) != []
            && !SatisfiesSome(PartitionOf(sink, row), PartFilters(t, filters))
  {
    var e := Compare(Eq, Column(col), Constant(Some(v)));
    var m: PartFilter := map[Name(t, col) := Render(t, v)];
    SingleFilter(t, col, v);
    assert [e][1..] == [];
    assert EvalAnd(env, [e], row).T?;
    hide EvalAnd, PartFilters, PartitionOf;
    CellText(t, sink, col, row);
  }

  /** The partition of a row has the printed value of its key column. */
  lemma CellText(t: Table, sink: SinkGrouping.Target, col: nat, row: Row)
    requires Linked(t, sink) && SinkGrouping.Fits(sink, row) && Name(t, col) in t.partKeys
    requires col < |row| && row[col].Some?
    ensures Name(t, col) in PartitionOf(sink, row) && PartitionOf(sink, row)[Name(t, col)] == Render(t, row[col].value)
  {
    var i := SinkGrouping.LastIndex(sink.partKeys, Name(t, col));
    assert col == sink.partCols[i];
    assert SinkGrouping.Rendered(sink, row[col].value) == Render(t, row[col].value);
  }

  /** The row is read: its partition passes, unless the scan is not pruned. */
  ghost predicate Scanned(env: Env, t: Table, sink: SinkGrouping.Target, filters: seq<Expr>, row: Row)
    requires |sink.partCols| == |sink.partKeys| && SinkGrouping.Fits(sink, row)
  {
    EvalAnd(env, filters, row).T? && PartFilters(t, filters) != [] ==>
      SatisfiesSome(PartitionOf(sink, row), PartFilters(t, filters))
  }

  /** A row with `x` in every column that matters. */
  function RowOf(sink: SinkGrouping.Target, col: nat, x: Val): (row: Row)
    ensures SinkGrouping.Fits(sink, row) && col < |row| && row[col] == Some(x)
  {
    var n := Widest(sink.partCols) + col + 1;
    seq(n, i => Some(x))
  }

  function Widest(cols: seq<nat>): (n: nat)
    ensures forall i :: 0 <= i < |cols| ==> cols[i] < n
  {
    if cols == [] then 0
    else
      var n := Widest(cols[..|cols| - 1]);
      if cols[|cols| - 1] < n then n else cols[|cols| - 1] + 1
  }

  /** Pruning loses no row of any query exactly when equal values print equally. */
  lemma SoundExactlyWhenPrintable(env: Env, t: Table, sink: SinkGrouping.Target, col: nat)
    requires Linked(t, sink) && Name(t, col) in t.partKeys
    ensures Printable(env, t)
       <==> forall filters, row :: SinkGrouping.Fits(sink, row) ==> Scanned(env, t, sink, filters, row)
  {
    hide PartFilters, EvalAnd, PartitionOf;
    if Printable(env, t) {
      forall filters, row | SinkGrouping.Fits(sink, row) ensures Scanned(env, t, sink, filters, row) {
        ScannedWhenPrintable(env, t, sink, filters, row);
      }
    } else {
      var x, v :| Compares(env, Eq, x, v) && Render(t, x) != Render(t, v);
      var row := RowOf(sink, col, x);
      UnprintableLoses(env, t, sink, col, v, row);
      assert !Scanned(env, t, sink, [Compare(Eq, Column(col), Constant(Some(v)))], row);
    }
  }

  lemma ScannedWhenPrintable(env: Env, t: Table, sink: SinkGrouping.Target, filters: seq<Expr>, row: Row)
    requires Printable(env, t) && Linked(t, sink) && SinkGrouping.Fits(sink, row)
    ensures Scanned(env, t, sink, filters, row)
  {
    if EvalAnd(env, filters, row).T? && PartFilters(t, filters) != [] {
      PruningSound(env, t, sink, filters, row);
    }
  }

  // ---- both kinds of pruning together --------------------------------------------------------

  predicate IsRead(read: SinkGrouping.Batch -> bool, b: SinkGrouping.Batch) {
    read(b)
  }

  function ReadOnly(read: SinkGrouping.Batch -> bool, batches: seq<SinkGrouping.Batch>): seq<SinkGrouping.Batch> {
    if batches == [] then []
    else
      var b := batches[|batches| - 1];
      ReadOnly(read, batches[..|batches| - 1]) + (if IsRead(read, b) then [b] else [])
  }

  /** At least the partitions that the pushed filters ask for are read. */
  ghost predicate ReadsEnough(t: Table, filters: seq<Expr>, read: SinkGrouping.Batch -> bool) {
    forall b: SinkGrouping.Batch :: PartFilters(t, filters) == [] || SatisfiesSome(b.partition, PartFilters(t, filters)) ==> IsRead(read, b)
  }

  lemma {:induction false} SelectAppend(env: Env, filters: seq<Expr>, a: seq<Row>, b: seq<Row>)
    ensures SelectRows(env, filters, a + b) == SelectRows(env, filters, a) + SelectRows(env, filters, b)
  {
    hide EvalAnd;
    if a == [] {
      assert a + b == b;
    } else {
      assert (a + b)[1..] == a[1..] + b;
      SelectAppend(env, filters, a[1..], b);
    }
  }

  lemma {:induction false} SelectNothing(env: Env, filters: seq<Expr>, rows: seq<Row>)
    requires forall row :: row in rows ==> !EvalAnd(env, filters, row).T?
    ensures SelectRows(env, filters, rows) == []
  {
    hide EvalAnd;
    if rows != [] {
      assert rows[0] in rows;
      SelectNothing(env, filters, rows[1..]);
    }
  }

  /** Leaving out partitions changes no answer. */
  lemma {:induction false} PartitionsKeepAnswer(env: Env, t: Table, sink: SinkGrouping.Target, filters: seq<Expr>,
                                                read: SinkGrouping.Batch -> bool, batches: seq<SinkGrouping.Batch>)
    requires Printable(env, t) && Linked(t, sink) && SinkGrouping.WellPlaced(sink, batches) && ReadsEnough(t, filters, read)
    ensures SelectRows(env, filters, SinkGrouping.RowsOf(ReadOnly(read, batches)))
         == SelectRows(env, filters, SinkGrouping.RowsOf(batches))
  {
    hide Printable, EvalAnd, PartFilters, SatisfiesSome, SelectRows;
    if batches != [] {
      var init, b := batches[..|batches| - 1], batches[|batches| - 1];
      PartitionsKeepAnswer(env, t, sink, filters, read, init);
      var before := SinkGrouping.RowsOf(ReadOnly(read, init));
      SelectAppend(env, filters, SinkGrouping.RowsOf(init), b.rows);
      if IsRead(read, b) {
        SinkGrouping.RowsOfSnoc(ReadOnly(read, init), b);
        SelectAppend(env, filters, before, b.rows);
      } else {
        assert ReadOnly(read, batches) == ReadOnly(read, init);
        forall row | row in b.rows ensures !EvalAnd(env, filters, row).T? {
          if EvalAnd(env, filters, row).T? {
            WrittenRowIsScanned(env, t, sink, filters, batches, b, row);
          }
        }
        SelectNothing(env, filters, b.rows);
      }
    }
  }

  /** A scan of what the Sink wrote, pruned by partition and by predicate, answers the
      query exactly as a scan of everything does. */
  lemma ScanKeepsAnswer(env: Env, t: Table, sink: SinkGrouping.Target, filters: seq<Expr>,
                        read: SinkGrouping.Batch -> bool, keep: Row -> bool, batches: seq<SinkGrouping.Batch>)
    requires Printable(env, t) && Linked(t, sink) && SinkGrouping.WellPlaced(sink, batches) && ReadsEnough(t, filters, read)
    requires Faithful(env) && SafeAll(env, filters, true, true) && ConvertAll(env, filters, false).Pushes?
    requires forall row :: EvalPAnd(env, ConvertAll(env, filters, false).pred, row).T? ==> Kept(keep, row)
    ensures SelectRows(env, filters, Prune(keep, SinkGrouping.RowsOf(ReadOnly(read, batches))))
         == SelectRows(env, filters, SinkGrouping.RowsOf(batches))
  {
    hide Printable, Linked, Faithful, PartFilters, SelectRows;
    PruningKeepsAnswer(env, filters, keep, SinkGrouping.RowsOf(ReadOnly(read, batches)));
    PartitionsKeepAnswer(env, t, sink, filters, read, batches);
  }
}
