/** The table cache as the program has it: an object whose fields its methods
    change under `entry_lock`. Every call, undisturbed by others, is a run of the
    interleaved steps from the state it finds to the state it leaves. */
module TableCache {
  import opened Prelude
  import opened CatalogCache

  class PaimonTableSet {
    var entries: map<string, Entry>
    var inited: bool
    ghost var lost: set<string>

    constructor ()
      ensures entries == map[] && !inited && lost == {}
    {
      entries, inited, lost := map[], false, {};
    }

    ghost function Seen(catalog: map<string, Def>, holder: Holder, mutator: Mutator): State
      reads this
    {
      State(TableSet, catalog, entries, inited, holder, mutator, lost)
    }

    /** The map's keys are those of the names. */
    ghost predicate Keyed()
      reads this
    {
      forall k :: k in entries ==> Fold(entries[k].name) == k
    }

    /** Some spelling of the name is cached. */
    ghost predicate Has(name: string)
      reads this
    {
      exists k :: k in entries && SameName(entries[k].name, name)
    }

    lemma HasExactly(name: string)
      requires Keyed()
      ensures Has(name) <==> Fold(name) in entries
      ensures Has(name) ==> SameName(entries[Fold(name)].name, name)
    {
      if Fold(name) in entries {
        FoldExactly(entries[Fold(name)].name, name);
      }
      if k :| k in entries && SameName(entries[k].name, name) {
        FoldExactly(entries[k].name, name);
      }
    }

    /** Loading any of `unreadable` raises an I/O error. The last three clauses say over
        spellings what the others say over keys. */
    method BuildEntry(catalog: map<string, Def>, unreadable: set<string>, name: string) returns (r: Result<Option<Entry>>)
      modifies this
      ensures inited == old(inited)
      ensures r == if Fold(name) in old(entries) then Ok(Some(old(entries)[Fold(name)]))
                   else if name in unreadable then Err
                   else if name in catalog then Ok(Some(Entry(name, catalog[name])))
                   else Ok(None)
      ensures if r.Ok? && r.value.Some? && Fold(name) !in old(entries)
              then entries == old(entries)[Fold(name) := r.value.value] && lost == old(lost) - {Fold(name)}
              else entries == old(entries) && lost == old(lost)
      ensures old(Keyed()) ==> Keyed()
      ensures old(Keyed()) && r.Ok? && r.value.Some? ==> SameName(r.value.value.name, name)
      ensures old(Keyed()) && !old(Has(name)) && name !in unreadable ==>
                r == Ok(if name in catalog then Some(Entry(name, catalog[name])) else None)
    {
      FoldExactly(name, name);
      if Keyed() {
        HasExactly(name);
      }
      if Fold(name) in entries {
        return Ok(Some(entries[Fold(name)]));
      }
      if name in unreadable {
        return Err;
      }
      if name !in catalog {
        return Ok(None);
      }
      entries := entries[Fold(name) := Entry(name, catalog[name])];
      lost := lost - {Fold(name)};
      return Ok(Some(Entry(name, catalog[name])));
    }

    /** `LoadEntries`, over what `ListTables` returned. */
    method LoadEntries(catalog: map<string, Def>, unreadable: set<string>, listing: Result<seq<Entry>>, ghost mutator: Mutator)
      returns (ok: bool, ghost steps: seq<Step>)
      modifies this
      ensures old(inited) || listing.Err? ==> entries == old(entries) && lost == old(lost)
      ensures !old(inited) && listing.Ok? ==>
                Run(old(Seen(catalog, Visiting(listing.value, ScanAll), mutator)), steps) == Some(Seen(catalog, Unlocked, mutator))
      ensures ok == inited && (old(inited) ==> inited) && (!old(inited) && listing.Err? ==> !ok)
    {
      hide Run, Fold, Enabled, Next;
      steps := [];
      if inited {
        return true, steps;
      }
      if listing.Err? {
        return false, steps;
      }
      var listed := listing.value;
      ghost var start := Seen(catalog, Visiting(listed, ScanAll), mutator);
      EmptyRun(start);
      assert listed[0..] == listed;
      for i := 0 to |listed|
        invariant !inited
        invariant Run(start, steps) == Some(Seen(catalog, Visiting(listed[i..], ScanAll), mutator))
      {
        ghost var before := Seen(catalog, Visiting(listed[i..], ScanAll), mutator);
        assert listed[i..][0] == listed[i] && listed[i..][1..] == listed[i + 1..];
        TurnRuns(before, unreadable);
        RunThen(start, steps, Turn(before, unreadable), before);
        steps := steps + Turn(before, unreadable);
        var r := BuildEntry(catalog, unreadable, listed[i].name);
        if r.Err? {
          return false, steps;
        }
      }
      ghost var last := Seen(catalog, Visiting(listed[|listed|..], ScanAll), mutator);
      inited := true;
      FinishLoad(last, Seen(catalog, Unlocked, mutator));
      RunMoves(start, steps, last, Visit, Seen(catalog, Unlocked, mutator));
      steps := steps + [Visit];
      return true, steps;
    }

    /** `GetEntry`. */
    method GetEntry(catalog: map<string, Def>, unreadable: set<string>, name: string, ghost mutator: Mutator)
      returns (r: Result<Option<Entry>>)
      modifies this
      ensures r.Ok? ==>
                var before := old(Seen(catalog, Unlocked, mutator));
                Run(before, LookupSteps(before, name)) == Some(Seen(catalog, Answering(name, r.value), mutator))
      ensures r.Err? ==> entries == old(entries) && inited == old(inited) && lost == old(lost)
      ensures r.Err? <==> Fold(name) !in old(entries) && name in unreadable
      ensures old(Keyed()) && r.Ok? && r.value.Some? ==> SameName(r.value.value.name, name)
      ensures old(Keyed()) && !old(Has(name)) && name !in unreadable ==>
                r == Ok(if name in catalog then Some(Entry(name, catalog[name])) else None)
    {
      hide Run;
      LookupRuns(Seen(catalog, Unlocked, mutator), name);
      r := BuildEntry(catalog, unreadable, name);
    }

    /** `Scan`: what the callback gets to see. */
    method Scan(catalog: map<string, Def>, unreadable: set<string>, listing: Result<seq<Entry>>, ghost mutator: Mutator)
      returns (ok: bool, ghost steps: seq<Step>, seen: map<string, Entry>)
      requires listing.Ok? ==> Lists(catalog, listing.value)
      modifies this
      ensures Run(old(Seen(catalog, Unlocked, mutator)), steps) == Some(Seen(catalog, Unlocked, mutator))
      ensures ok ==> inited && seen == entries
      ensures !old(inited) && listing.Err? ==> !ok
      ensures ok && mutator.NoMutator? && old(Inv(Seen(catalog, Unlocked, mutator))) ==>
                forall e: Entry :: e in seen.Values <==>
                  e.name in catalog && catalog[e.name] == e.def && forall k :: k in lost ==> !SameName(k, e.name)
    {
      hide Run, Fold;
      ghost var start := Seen(catalog, Unlocked, mutator);
      EmptyRun(start);
      if !inited && listing.Ok? {
        ghost var loading := Seen(catalog, Visiting(listing.value, ScanAll), mutator);
        RunMoves(start, [], start, BeginScan(listing.value), loading);
        ok, steps := LoadEntries(catalog, unreadable, listing, mutator);
        RunThen(start, [] + [BeginScan(listing.value)], steps, loading);
        steps := [] + [BeginScan(listing.value)] + steps;
      } else {
        ok, steps := LoadEntries(catalog, unreadable, listing, mutator);
        steps := [];
      }
      if ok && mutator.NoMutator? && Inv(start) {
        RunInv(start, steps);
        FilledIsExact(Seen(catalog, Unlocked, mutator));
        forall e: Entry | true ensures IsLost(Seen(catalog, Unlocked, mutator), e.name) <==> Fold(e.name) in lost {
          LostSpellings(Seen(catalog, Unlocked, mutator), e.name);
        }
        assert forall e: Entry :: e in entries.Values <==> ScanLists(Seen(catalog, Unlocked, mutator), e);
      }
      return ok, steps, entries;
    }

    /** `RefreshEntry`, the cache half of CREATE TABLE. */
    method RefreshEntry(catalog: map<string, Def>, unreadable: set<string>, name: string) returns (r: Result<Option<Entry>>)
      modifies this
      ensures Run(old(Seen(catalog, Unlocked, Created(name))), RefreshSteps(catalog, unreadable, name))
           == Some(Seen(catalog, Unlocked, NoMutator))
      ensures r == if name in unreadable then Err
                   else if name in catalog then Ok(Some(Entry(name, catalog[name]))) else Ok(None)
    {
      hide Run, Fold;
      RefreshRuns(Seen(catalog, Unlocked, Created(name)), unreadable);
      entries := entries - {Fold(name)};
      r := BuildEntry(catalog, unreadable, name);
      if r.Err? && inited {
        lost := lost + {Fold(name)};
      }
    }

    /** `DropEntry`, the cache half of DROP TABLE. */
    method DropEntry(name: string, ghost catalog: map<string, Def>)
      modifies this
      ensures Run(old(Seen(catalog, Unlocked, Dropped(name))), [Settle]) == Some(Seen(catalog, Unlocked, NoMutator))
    {
      hide Run, Fold;
      ghost var before := Seen(catalog, Unlocked, Dropped(name));
      entries := entries - {Fold(name)};
      lost := if inited && InCatalog(before, Fold(name)) then lost + {Fold(name)} else lost;
      EmptyRun(before);
      RunMoves(before, [], before, Settle, Seen(catalog, Unlocked, NoMutator));
      assert [] + [Settle] == [Settle];
    }
  }

  // ---- calls as runs of steps --------------------------------------------------------------

  lemma {:induction false} RunThen(start: State, a: seq<Step>, b: seq<Step>, mid: State)
    requires Run(start, a) == Some(mid)
    ensures Run(start, a + b) == Run(mid, b)
  {
    hide Enabled, Next;
    if b == [] {
      assert a + b == a;
    } else {
      assert (a + b)[..|a + b| - 1] == a + b[..|b| - 1];
      RunThen(start, a, b[..|b| - 1], mid);
    }
  }

  lemma FinishLoad(s: State, s': State)
    requires s.holder == Visiting([], ScanAll) && s' == s.(inited := true, holder := Unlocked)
    ensures Moves(s, Visit, s')
  {
  }

  /** The steps of `BuildEntry` once it has found no cached entry. */
  ghost function FetchSteps(catalog: map<string, Def>, unreadable: set<string>, name: string): seq<Step> {
    if name in unreadable then [FetchFails] else if name in catalog then [Fetch, Store] else [Fetch]
  }

  ghost function Fetched(s: State, unreadable: set<string>, name: string): State {
    if name !in unreadable && name in s.catalog then Emplace(s, Entry(name, s.catalog[name])) else s
  }

  /** One turn of the loop of `LoadEntries`. */
  ghost function Turn(s: State, unreadable: set<string>): seq<Step>
    requires s.holder.Visiting? && s.holder.todo != []
  {
    var name := s.holder.todo[0].name;
    if Fold(name) in s.entries then [Visit] else [Visit] + FetchSteps(s.catalog, unreadable, name)
  }

  lemma TurnRuns(s: State, unreadable: set<string>)
    requires s.sort.TableSet? && s.holder.Visiting? && s.holder.todo != [] && s.holder.purpose == ScanAll
    ensures var name := s.holder.todo[0].name;
            var next := Visiting(s.holder.todo[1..], ScanAll);
            Run(s, Turn(s, unreadable)) ==
            Some(if Fold(name) in s.entries then s.(holder := next)
                 else if name in unreadable then s.(holder := Unlocked)
                 else Fetched(s, unreadable, name).(holder := next))
  {
    hide Run, Fold;
    var name, rest := s.holder.todo[0].name, s.holder.todo[1..];
    EmptyRun(s);
    assert [] + [Visit] == [Visit];
    if Fold(name) in s.entries {
      RunMoves(s, [], s, Visit, s.(holder := Visiting(rest, ScanAll)));
    } else {
      var fetching := s.(holder := Fetching(name, rest, ScanAll));
      RunMoves(s, [], s, Visit, fetching);
      RunThen(s, [Visit], FetchSteps(s.catalog, unreadable, name), fetching);
      FetchRuns(fetching, unreadable);
    }
  }

  lemma FetchRuns(s: State, unreadable: set<string>)
    requires s.holder.Fetching? && Fold(s.holder.name) !in s.entries
    ensures var name := s.holder.name;
            Run(s, FetchSteps(s.catalog, unreadable, name)) ==
            Some(if name in unreadable then Next(s, FetchFails)
                 else Built(Fetched(s, unreadable, name), name, s.holder.todo, s.holder.purpose))
  {
    hide Run, Fold;
    var name := s.holder.name;
    EmptyRun(s);
    if name in unreadable {
      RunMoves(s, [], s, FetchFails, Next(s, FetchFails));
      assert [] + [FetchFails] == [FetchFails];
    } else {
      var fetched := Next(s, Fetch);
      RunMoves(s, [], s, Fetch, fetched);
      assert [] + [Fetch] == [Fetch];
      if name in s.catalog {
        RunMoves(s, [Fetch], fetched, Store, Next(fetched, Store));
        assert [Fetch] + [Store] == [Fetch, Store];
      }
    }
  }

  ghost function LookupSteps(s: State, name: string): seq<Step> {
    if Fold(name) in s.entries then [BeginLookup(name, [])]
    else [BeginLookup(name, [])] + FetchSteps(s.catalog, {}, name)
  }

  lemma LookupRuns(s: State, name: string)
    requires s.sort.TableSet? && s.holder.Unlocked?
    ensures Run(s, LookupSteps(s, name)) ==
            Some(if Fold(name) in s.entries then s.(holder := Answering(name, Found(s, name)))
                 else var end := Fetched(s, {}, name); end.(holder := Answering(name, Found(end, name))))
  {
    hide Run, Fold;
    EmptyRun(s);
    var begin := BeginLookup(name, []);
    var started := Next(s, begin);
    RunMoves(s, [], s, begin, started);
    assert [] + [begin] == [begin];
    if Fold(name) !in s.entries {
      RunThen(s, [begin], FetchSteps(s.catalog, {}, name), started);
      FetchRuns(started, {});
    }
  }

  ghost function RefreshSteps(catalog: map<string, Def>, unreadable: set<string>, name: string): seq<Step> {
    [Settle] + FetchSteps(catalog, unreadable, name)
  }

  lemma RefreshRuns(s: State, unreadable: set<string>)
    requires s.sort.TableSet? && s.holder.Unlocked? && s.mutator.Created?
    ensures var name := s.mutator.name;
            var erased := Forget(s, Fold(name)).(mutator := NoMutator);
            Run(s, RefreshSteps(s.catalog, unreadable, name)) ==
            Some(if name in unreadable && s.inited then erased.(lost := s.lost + {Fold(name)})
                 else Fetched(erased, unreadable, name))
  {
    hide Run, Fold;
    EmptyRun(s);
    var started := Next(s, Settle);
    RunMoves(s, [], s, Settle, started);
    assert [] + [Settle] == [Settle];
    RunThen(s, [Settle], FetchSteps(s.catalog, unreadable, s.mutator.name), started);
    FetchRuns(started, unreadable);
  }
}
