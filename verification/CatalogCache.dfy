/** The lazily filled, lock-protected caches in front of the Paimon catalog: the
    tables of one schema and the schemas of one catalog, while readers and one
    mutator at a time interleave. */
module CatalogCache {
  import opened Prelude

  datatype Sort = TableSet | SchemaSet

  /** What the catalog knows of a name: the column names and types of a table, or
      that it is a schema. */
  datatype Def = TableDef(columns: seq<(string, string)>) | SchemaDef

  datatype Entry = Entry(name: string, def: Def)

  /** A catalog call that succeeded and whose cache update is still to come. The
      caller holds the process-wide mutation mutex, so there is at most one. */
  datatype Mutator = NoMutator | Created(name: string) | Dropped(name: string)

  /** Why the holder of `entry_lock` builds entries. */
  datatype Purpose = Lookup(name: string) | ScanAll | Refresh

  /** Who holds `entry_lock`, and how far it is. */
  datatype Holder =
    | Unlocked
    | Visiting(todo: seq<Entry>, purpose: Purpose)
    | Fetching(name: string, todo: seq<Entry>, purpose: Purpose)
    | Storing(entry: Entry, todo: seq<Entry>, purpose: Purpose)
    | Answering(name: string, found: Option<Entry>)

  /** `lost` is history: keys whose cached entry a mutator erased although the
      catalog has them, and that nothing has stored again since. */
  datatype State = State(
    sort: Sort, catalog: map<string, Def>, entries: map<string, Entry>, inited: bool,
    holder: Holder, mutator: Mutator, lost: set<string>)

  /** The key of a case-insensitive map. */
  function Fold(name: string): string {
    seq(|name|, i requires 0 <= i < |name| =>
      if 'A' <= name[i] <= 'Z' then name[i] - 'A' + 'a' else name[i])
  }

  /** The same character, or the two cases of one ASCII letter. */
  predicate SameLetter(x: char, y: char) {
    || x == y
    || ('A' <= x <= 'Z' && y as int == x as int + 32)
    || ('A' <= y <= 'Z' && x as int == y as int + 32)
  }

  /** Two spellings of one name. */
  predicate SameName(a: string, b: string) {
    |a| == |b| && forall i :: 0 <= i < |a| ==> SameLetter(a[i], b[i])
  }

  /** The map treats as one key exactly what differs in the case of ASCII letters. */
  lemma FoldExactly(a: string, b: string)
    ensures Fold(a) == Fold(b) <==> SameName(a, b)
  {
    if Fold(a) == Fold(b) {
      assert |a| == |Fold(a)| == |Fold(b)| == |b|;
      forall i | 0 <= i < |a| ensures SameLetter(a[i], b[i]) {
        assert Fold(a)[i] == Fold(b)[i];
      }
    }
    if SameName(a, b) {
      forall i | 0 <= i < |a| ensures Fold(a)[i] == Fold(b)[i] {
        assert SameLetter(a[i], b[i]);
      }
    }
  }

  lemma FoldsAreSpellings()
    ensures forall a, b :: Fold(a) == Fold(b) <==> SameName(a, b)
  {
    forall a, b ensures Fold(a) == Fold(b) <==> SameName(a, b) {
      FoldExactly(a, b);
    }
  }

  lemma FoldTwice(name: string)
    ensures SameName(Fold(name), name)
  {
  }

  /** Catalog calls that fail change nothing and are no steps. `BeginScan` carries what
      `ListTables` or `ListDatabases` would return; so does `BeginLookup` of a schema. */
  datatype Step =
    | BeginLookup(wanted: string, listed: seq<Entry>)
    | BeginScan(listed: seq<Entry>)
    | Visit
    | Fetch
    | FetchFails
    | Store
    | Answer
    | Create(created: string, def: Def)
    | Drop(dropped: string)
    | Settle

  ghost predicate Lists(catalog: map<string, Def>, listed: seq<Entry>) {
    forall e :: e in listed <==> e.name in catalog && catalog[e.name] == e.def
  }

  ghost predicate Enabled(s: State, step: Step) {
    match step
    case BeginLookup(_, listed) => s.holder.Unlocked? && (s.sort.SchemaSet? ==> Lists(s.catalog, listed))
    case BeginScan(listed) => s.holder.Unlocked? && Lists(s.catalog, listed)
    case Visit => s.holder.Visiting?
    case Fetch => s.holder.Fetching?
    case FetchFails => s.holder.Fetching?
    case Store => s.holder.Storing?
    case Answer => s.holder.Answering?
    case Create(n, _) =>
      // names in the catalog stay unique up to case
      s.mutator.NoMutator? && forall m :: m in s.catalog && SameName(m, n) ==> m == n
    case Drop(_) => s.mutator.NoMutator?
    case Settle => !s.mutator.NoMutator? && s.holder.Unlocked?
  }

  function Found(s: State, name: string): Option<Entry> {
    if Fold(name) in s.entries then Some(s.entries[Fold(name)]) else None
  }

  predicate InCatalog(s: State, key: string) {
    exists n :: n in s.catalog && Fold(n) == key
  }

  function Forget(s: State, key: string): State {
    s.(entries := s.entries - {key})
  }

  /** `entries.emplace`: an existing entry stays. */
  function Emplace(s: State, e: Entry): State {
    if Fold(e.name) in s.entries then s
    else s.(entries := s.entries[Fold(e.name) := e], lost := s.lost - {Fold(e.name)})
  }

  /** The end of `BuildEntry` for `name`, whether it built something or not. */
  function Built(s: State, name: string, todo: seq<Entry>, purpose: Purpose): State {
    match purpose
    case Lookup(_) => s.(holder := Answering(name, Found(s, name)))
    case ScanAll => s.(holder := Visiting(todo, purpose))
    case Refresh => s.(holder := Unlocked, mutator := NoMutator)
  }

  /** The loop of `LoadEntries`. */
  function Visited(s: State): State
    requires s.holder.Visiting?
  {
    var todo, purpose := s.holder.todo, s.holder.purpose;
    if todo == [] then
      var done := s.(inited := true);
      if purpose.Lookup? then done.(holder := Answering(purpose.name, Found(s, purpose.name)))
      else done.(holder := Unlocked)
    else if s.sort.SchemaSet? then
      Emplace(s, todo[0]).(holder := Visiting(todo[1..], purpose))
    else if Fold(todo[0].name) in s.entries then
      s.(holder := Visiting(todo[1..], purpose))
    else
      s.(holder := Fetching(todo[0].name, todo[1..], purpose))
  }

  /** The cache half of CREATE and DROP. */
  function Settled(s: State): State
    requires !s.mutator.NoMutator?
  {
    var key := Fold(s.mutator.name);
    if s.mutator.Dropped? then
      Forget(s, key).(mutator := NoMutator,
                      lost := if s.inited && InCatalog(s, key) then s.lost + {key} else s.lost)
    else if s.sort.TableSet? then
      Forget(s, key).(holder := Fetching(s.mutator.name, [], Refresh))
    else if s.mutator.name in s.catalog then
      Emplace(s, Entry(s.mutator.name, s.catalog[s.mutator.name])).(mutator := NoMutator)
    else
      s.(mutator := NoMutator)
  }

  function Next(s: State, step: Step): State
    requires Enabled(s, step)
  {
    match step
    case BeginLookup(name, listed) =>
      if Fold(name) in s.entries && (s.sort.TableSet? || s.inited) then s.(holder := Answering(name, Found(s, name)))
      else if s.sort.TableSet? then s.(holder := Fetching(name, [], Lookup(name)))
      else if s.inited then s.(holder := Answering(name, None))
      else s.(holder := Visiting(listed, Lookup(name)))
    case BeginScan(listed) => if s.inited then s else s.(holder := Visiting(listed, ScanAll))
    case Visit => Visited(s)
    case Fetch =>
      var n := s.holder.name;
      if n in s.catalog then s.(holder := Storing(Entry(n, s.catalog[n]), s.holder.todo, s.holder.purpose))
      else Built(s, n, s.holder.todo, s.holder.purpose)
    case FetchFails =>
      if s.holder.purpose.Refresh? then
        s.(holder := Unlocked, mutator := NoMutator,
           lost := if s.inited then s.lost + {Fold(s.holder.name)} else s.lost)
      else s.(holder := Unlocked)
    case Store =>
      Built(Emplace(s, s.holder.entry), s.holder.entry.name, s.holder.todo, s.holder.purpose)
    case Answer => s.(holder := Unlocked)
    case Create(n, d) =>
      s.(catalog := if n in s.catalog then s.catalog else s.catalog[n := d], mutator := Created(n))
    case Drop(n) =>
      s.(catalog := s.catalog - {n}, mutator := Dropped(n),
         lost := if n in s.catalog then s.lost - {Fold(n)} else s.lost)
    case Settle => Settled(s)
  }

  // ---- the invariant -----------------------------------------------------------------------

  predicate DropPending(s: State, key: string) {
    s.mutator.Dropped? && Fold(s.mutator.name) == key
  }

  predicate CreatePending(s: State, key: string) {
    s.mutator.Created? && Fold(s.mutator.name) == key
  }

  predicate Current(s: State, e: Entry) {
    e.name in s.catalog && s.catalog[e.name] == e.def
  }

  /** An entry that is cached or about to be. */
  predicate Fresh(s: State, e: Entry) {
    Current(s, e) || DropPending(s, Fold(e.name))
  }

  ghost predicate UniqueNames(s: State) {
    forall m, n :: m in s.catalog && n in s.catalog && Fold(m) == Fold(n) ==> m == n
  }

  /** Cached entries agree with the catalog, save those that a mutator is about to
      erase. */
  ghost predicate CacheAgrees(s: State) {
    forall k :: k in s.entries ==> Fold(s.entries[k].name) == k && Fresh(s, s.entries[k])
  }

  function Todo(s: State): seq<Entry> {
    match s.holder
    case Visiting(todo, _) => todo
    case Fetching(n, todo, _) => todo
    case Storing(e, todo, _) => [e] + todo
    case _ => []
  }

  predicate InLoad(s: State) {
    && !s.holder.Unlocked? && !s.holder.Answering?
    && (s.sort.SchemaSet? || s.holder.purpose.ScanAll?)
  }

  /** `n` is cached, or the load under way will still come to it. */
  predicate Reached(s: State, n: string) {
    || Fold(n) in s.entries
    || (InLoad(s) && ((exists e :: e in Todo(s) && e.name == n) || (s.holder.Fetching? && s.holder.name == n)))
  }

  /** Nothing is missing once the cache is filled, or beyond what a load will visit. */
  ghost predicate Complete(s: State) {
    s.inited || InLoad(s) ==>
      forall n :: n in s.catalog ==> CreatePending(s, Fold(n)) || Fold(n) in s.lost || Reached(s, n)
  }

  ghost predicate LostIsLost(s: State) {
    && (s.lost != {} ==> s.inited)
    && forall k :: k in s.lost ==> k !in s.entries && InCatalog(s, k)
  }

  /** What the holder of the lock has read is what the catalog says, unless a
      mutator waits to correct it. */
  ghost predicate HolderAgrees(s: State) {
    match s.holder
    case Unlocked => true
    case Visiting(todo, p) =>
      !s.inited && !p.Refresh? && (p.Lookup? ==> s.sort.SchemaSet?)
      && (s.sort.SchemaSet? ==> forall e :: e in todo ==> Fresh(s, e))
    case Fetching(n, _, p) =>
      && s.sort.TableSet? && Fold(n) !in s.entries && (p.Lookup? ==> p.name == n) && (p.ScanAll? ==> !s.inited)
      && (p.Refresh? ==> s.mutator == Created(n) && n in s.catalog)
    case Storing(e, _, p) =>
      && s.sort.TableSet? && Fold(e.name) !in s.entries && (p.Lookup? ==> p.name == e.name) && (p.ScanAll? ==> !s.inited)
      && Fresh(s, e) && (p.Refresh? ==> s.mutator == Created(e.name))
    case Answering(n, None) =>
      forall m :: m in s.catalog && Fold(m) == Fold(n) ==>
        CreatePending(s, Fold(n)) || if s.sort.TableSet? then m != n else Fold(m) in s.lost
    case Answering(n, Some(e)) => Fold(e.name) == Fold(n) && Fresh(s, e)
  }

  ghost predicate Sound(s: State) {
    && UniqueNames(s) && CacheAgrees(s) && LostIsLost(s) && HolderAgrees(s)
    && (s.mutator.Created? ==> s.mutator.name in s.catalog)
    && (s.mutator.Dropped? ==> s.mutator.name !in s.catalog)
  }

  ghost predicate Inv(s: State) {
    Sound(s) && Complete(s)
  }

  // ---- every step keeps it -------------------------------------------------------------------

  lemma ListReaches(s: State, listed: seq<Entry>)
    requires Lists(s.catalog, listed)
    ensures forall n :: n in s.catalog ==> exists e :: e in listed && e.name == n
    ensures forall e :: e in listed ==> Current(s, e)
  {
    forall n | n in s.catalog ensures exists e :: e in listed && e.name == n {
      assert Entry(n, s.catalog[n]) in listed;
    }
  }

  /** Storing an entry that agrees leaves a cache that agrees. */
  lemma EmplaceAgrees(s: State, e: Entry)
    requires UniqueNames(s) && CacheAgrees(s) && LostIsLost(s) && Fresh(s, e)
    ensures var s' := Emplace(s, e);
            && UniqueNames(s') && CacheAgrees(s') && LostIsLost(s') && Fold(e.name) in s'.entries
            && s' == s.(entries := s'.entries, lost := s'.lost) && s'.lost <= s.lost
            && (forall k :: k in s.entries ==> k in s'.entries && s'.entries[k] == s.entries[k])
            && (Fold(e.name) !in s.entries ==> s'.entries[Fold(e.name)] == e)
            && forall k :: k in s.lost && k != Fold(e.name) ==> k in s'.lost
  {
    hide Fold;
  }

  /** What the lock holder is doing does not touch the cache. */
  lemma SameCache(s: State, s': State)
    requires s' == s.(holder := s'.holder, inited := s'.inited) && (s.inited ==> s'.inited)
    requires UniqueNames(s) && CacheAgrees(s) && LostIsLost(s)
    ensures UniqueNames(s') && CacheAgrees(s') && LostIsLost(s')
    ensures forall e :: Fresh(s', e) == Fresh(s, e)
    ensures forall k :: CreatePending(s', k) == CreatePending(s, k)
  {
    hide Fold;
  }

  /** What a lookup finds in a filled cache, or does not. */
  lemma HitOrMiss(s: State, name: string)
    requires Inv(s)
    ensures match Found(s, name)
            case Some(e) => Fold(e.name) == Fold(name) && Fresh(s, e)
            case None => s.inited || (s.holder.Visiting? && s.holder.todo == []) ==>
                forall m :: m in s.catalog && Fold(m) == Fold(name) ==> CreatePending(s, Fold(m)) || Fold(m) in s.lost
  {
    hide Fold;
  }

  lemma LookupSound(s: State, name: string, listed: seq<Entry>)
    requires Inv(s) && Enabled(s, BeginLookup(name, listed))
    ensures Sound(Next(s, BeginLookup(name, listed)))
  {
    hide Fold, CacheAgrees, UniqueNames, LostIsLost, Complete;
    if s.sort.SchemaSet? {
      ListReaches(s, listed);
    }
    HitOrMiss(s, name);
    SameCache(s, Next(s, BeginLookup(name, listed)));
  }

  lemma LookupComplete(s: State, name: string, listed: seq<Entry>)
    requires Inv(s) && Enabled(s, BeginLookup(name, listed))
    ensures Complete(Next(s, BeginLookup(name, listed)))
  {
    hide Fold;
    if s.sort.SchemaSet? {
      ListReaches(s, listed);
    }
  }

  lemma ScanKeeps(s: State, listed: seq<Entry>)
    requires Inv(s) && Enabled(s, BeginScan(listed))
    ensures Inv(Next(s, BeginScan(listed)))
  {
    hide Fold;
    ListReaches(s, listed);
  }

  lemma VisitSound(s: State)
    requires Inv(s) && Enabled(s, Visit)
    ensures Sound(Next(s, Visit))
  {
    hide Fold, CacheAgrees, UniqueNames, LostIsLost, Complete, Emplace;
    var todo := s.holder.todo;
    if todo == [] {
      if s.holder.purpose.Lookup? {
        HitOrMiss(s, s.holder.purpose.name);
      }
      SameCache(s, Next(s, Visit));
    } else if s.sort.SchemaSet? {
      EmplaceAgrees(s, todo[0]);
      SameCache(Emplace(s, todo[0]), Next(s, Visit));
      assert forall e :: e in todo[1..] ==> e in todo;
    } else {
      SameCache(s, Next(s, Visit));
    }
  }

  lemma VisitComplete(s: State)
    requires Inv(s) && Enabled(s, Visit)
    ensures Complete(Next(s, Visit))
  {
    hide Fold, CacheAgrees, UniqueNames, LostIsLost;
    var todo := s.holder.todo;
    if todo != [] {
      assert forall e :: e in todo ==> e == todo[0] || e in todo[1..];
    }
  }

  lemma FetchSound(s: State)
    requires Sound(s) && Enabled(s, Fetch)
    ensures Sound(Next(s, Fetch))
  {
    hide Fold;
  }

  lemma FetchComplete(s: State)
    requires Inv(s) && Enabled(s, Fetch)
    ensures Complete(Next(s, Fetch))
  {
    hide Fold;
  }

  lemma FetchFailsKeeps(s: State)
    requires Inv(s) && Enabled(s, FetchFails)
    ensures Inv(Next(s, FetchFails))
  {
    hide Fold;
  }

  lemma StoreSound(s: State)
    requires Sound(s) && Enabled(s, Store)
    ensures Sound(Next(s, Store))
  {
    hide Fold, Emplace;
    EmplaceAgrees(s, s.holder.entry);
  }

  lemma StoreComplete(s: State)
    requires Inv(s) && Enabled(s, Store)
    ensures Complete(Next(s, Store))
  {
    hide Fold;
  }

  lemma AnswerKeeps(s: State)
    requires Inv(s) && Enabled(s, Answer)
    ensures Inv(Next(s, Answer))
  {
    hide Fold;
  }

  lemma CreateCacheSound(s: State, name: string, def: Def)
    requires UniqueNames(s) && CacheAgrees(s) && LostIsLost(s) && Enabled(s, Create(name, def))
    ensures var s' := Next(s, Create(name, def)); UniqueNames(s') && CacheAgrees(s') && LostIsLost(s')
  {
    FoldsAreSpellings();
    hide Fold, SameName;
  }

  lemma CreateSound(s: State, name: string, def: Def)
    requires Sound(s) && Enabled(s, Create(name, def))
    ensures Sound(Next(s, Create(name, def)))
  {
    CreateCacheSound(s, name, def);
    hide Fold, UniqueNames, CacheAgrees, LostIsLost;
  }

  lemma CreateComplete(s: State, name: string, def: Def)
    requires Inv(s) && Enabled(s, Create(name, def))
    ensures Complete(Next(s, Create(name, def)))
  {
    hide Fold;
  }

  lemma DropSound(s: State, name: string)
    requires Sound(s) && Enabled(s, Drop(name))
    ensures Sound(Next(s, Drop(name)))
  {
    hide Fold;
  }

  lemma DropComplete(s: State, name: string)
    requires Inv(s) && Enabled(s, Drop(name))
    ensures Complete(Next(s, Drop(name)))
  {
    hide Fold;
  }

  lemma SettleDropSound(s: State)
    requires Sound(s) && s.holder.Unlocked? && s.mutator.Dropped?
    ensures Sound(Settled(s))
  {
    hide Fold;
  }

  lemma SettleCreateSound(s: State)
    requires Sound(s) && s.holder.Unlocked? && s.mutator.Created?
    ensures Sound(Settled(s))
  {
    hide Fold, Emplace;
    if s.sort.SchemaSet? {
      EmplaceAgrees(s, Entry(s.mutator.name, s.catalog[s.mutator.name]));
    }
  }

  lemma SettleSound(s: State)
    requires Sound(s) && Enabled(s, Settle)
    ensures Sound(Next(s, Settle))
  {
    hide Sound, Settled, Fold;
    if s.mutator.Dropped? {
      SettleDropSound(s);
    } else {
      SettleCreateSound(s);
    }
  }

  lemma SettleComplete(s: State)
    requires Inv(s) && Enabled(s, Settle)
    ensures Complete(Next(s, Settle))
  {
    hide Fold;
  }

  lemma InvNext(s: State, step: Step)
    requires Inv(s) && Enabled(s, step)
    ensures Inv(Next(s, step))
  {
    hide Enabled, Next, Sound, Complete;
    match step
    case BeginLookup(name, listed) =>
      LookupSound(s, name, listed);
      LookupComplete(s, name, listed);
    case BeginScan(listed) =>
      ScanKeeps(s, listed);
    case Visit =>
      VisitSound(s);
      VisitComplete(s);
    case Fetch =>
      FetchSound(s);
      FetchComplete(s);
    case FetchFails =>
      FetchFailsKeeps(s);
    case Store =>
      StoreSound(s);
      StoreComplete(s);
    case Answer =>
      AnswerKeeps(s);
    case Create(name, def) =>
      CreateSound(s, name, def);
      CreateComplete(s, name, def);
    case Drop(name) =>
      DropSound(s, name);
      DropComplete(s, name);
    case Settle =>
      SettleSound(s);
      SettleComplete(s);
  }

  // ---- whole runs --------------------------------------------------------------------------------

  function Start(sort: Sort, catalog: map<string, Def>): State {
    State(sort, catalog, map[], false, Unlocked, NoMutator, {})
  }

  ghost function Run(start: State, steps: seq<Step>): Option<State> {
    if steps == [] then Some(start)
    else
      match Run(start, steps[..|steps| - 1])
      case None => None
      case Some(s) => if Enabled(s, steps[|steps| - 1]) then Some(Next(s, steps[|steps| - 1])) else None
  }

  lemma {:induction false} RunInv(start: State, steps: seq<Step>)
    requires Inv(start) && Run(start, steps).Some?
    ensures Inv(Run(start, steps).value)
  {
    hide Inv, Enabled, Next;
    if steps != [] {
      var before := steps[..|steps| - 1];
      RunInv(start, before);
      InvNext(Run(start, before).value, steps[|steps| - 1]);
    }
  }

  /** Catalogs in which no two names differ only in case. */
  ghost predicate CaseUnique(catalog: map<string, Def>) {
    forall m, n :: m in catalog && n in catalog && SameName(m, n) ==> m == n
  }

  /** At every point of every interleaving at which no DROP waits to update the
      cache, each cached entry agrees with the catalog, and is what is found under
      exactly the spellings of its name. */
  lemma CacheCoherent(sort: Sort, catalog: map<string, Def>, steps: seq<Step>)
    requires CaseUnique(catalog) && Run(Start(sort, catalog), steps).Some?
    requires !Run(Start(sort, catalog), steps).value.mutator.Dropped?
    ensures var s := Run(Start(sort, catalog), steps).value;
            && (forall k :: k in s.entries ==>
                  s.entries[k].name in s.catalog && s.catalog[s.entries[k].name] == s.entries[k].def)
            && forall k, name :: k in s.entries ==>
                 (Found(s, name) == Some(s.entries[k]) <==> SameName(s.entries[k].name, name))
  {
    hide Run, Fold, SameName;
    StartInv(sort, catalog);
    RunInv(Start(sort, catalog), steps);
    FoldsAreSpellings();
  }

  /** Some spelling of the name was erased although the catalog has it. */
  ghost predicate IsLost(s: State, name: string) {
    exists k :: k in s.lost && SameName(k, name)
  }

  lemma LostSpellings(s: State, name: string)
    requires LostIsLost(s)
    ensures IsLost(s, name) <==> Fold(name) in s.lost
  {
    if k :| k in s.lost && SameName(k, name) {
      var n :| n in s.catalog && Fold(n) == k;
      FoldTwice(n);
      FoldExactly(k, n);
      FoldExactly(k, name);
    }
    FoldTwice(name);
  }

  /** What a scan of a filled cache calls back with. */
  ghost predicate ScanLists(s: State, e: Entry) {
    exists k :: k in s.entries && s.entries[k] == e
  }

  /** Once the cache is filled and no mutator is in flight, a scan lists exactly the
      catalog apart from the lost names, which the catalog does have: it is exact if
      and only if nothing is lost. */
  lemma ScanExact(sort: Sort, catalog: map<string, Def>, steps: seq<Step>)
    requires CaseUnique(catalog) && Run(Start(sort, catalog), steps).Some?
    requires var s := Run(Start(sort, catalog), steps).value; s.inited && s.mutator.NoMutator?
    ensures var s := Run(Start(sort, catalog), steps).value;
            forall e :: ScanLists(s, e) <==> Current(s, e) && !IsLost(s, e.name)
    ensures var s := Run(Start(sort, catalog), steps).value;
            s.lost == {} <==> forall e :: Current(s, e) ==> ScanLists(s, e)
  {
    hide Run, Fold, SameName, IsLost;
    StartInv(sort, catalog);
    RunInv(Start(sort, catalog), steps);
    var s := Run(Start(sort, catalog), steps).value;
    FilledIsExact(s);
    forall e: Entry | true ensures IsLost(s, e.name) <==> Fold(e.name) in s.lost {
      LostSpellings(s, e.name);
    }
    if s.lost != {} {
      var k :| k in s.lost;
      var n :| n in s.catalog && Fold(n) == k;
      assert Current(s, Entry(n, s.catalog[n]));
    }
  }

  lemma FilledIsExact(s: State)
    requires Inv(s) && s.inited && s.mutator.NoMutator?
    ensures forall e :: ScanLists(s, e) <==> Current(s, e) && Fold(e.name) !in s.lost
  {
    hide Fold;
    forall e | Current(s, e) && Fold(e.name) !in s.lost ensures ScanLists(s, e) {
      assert Reached(s, e.name);
      assert Fold(e.name) in s.entries;
      assert s.entries[Fold(e.name)] == e;
    }
  }

  /** The steps that erase a cached name which the catalog still has: the cache half
      of DROP IF EXISTS with another spelling of an existing name, and a reload that
      fails after CREATE TABLE. */
  ghost predicate Loses(s: State, step: Step) {
    && s.inited
    && ((step.Settle? && s.mutator.Dropped? && exists n :: n in s.catalog && SameName(n, s.mutator.name))
        || (step.FetchFails? && s.holder.Fetching? && s.holder.purpose.Refresh?))
  }

  lemma LossStep(s: State, step: Step)
    requires Inv(s) && Enabled(s, step)
    ensures !Loses(s, step) ==> Next(s, step).lost <= s.lost
    ensures Loses(s, step) ==> Next(s, step).lost != {} && Next(s, step).mutator.NoMutator?
  {
    FoldsAreSpellings();
    hide Fold, SameName;
  }

  ghost predicate Lossless(start: State, steps: seq<Step>) {
    steps == [] ||
    var before := steps[..|steps| - 1];
    && Lossless(start, before) && Run(start, before).Some?
    && !Loses(Run(start, before).value, steps[|steps| - 1])
  }

  lemma {:induction false} LosslessKeepsAll(start: State, steps: seq<Step>)
    requires Inv(start) && start.lost == {} && Run(start, steps).Some? && Lossless(start, steps)
    ensures Run(start, steps).value.lost == {}
  {
    hide Inv, Enabled, Next, Loses;
    if steps != [] {
      var before := steps[..|steps| - 1];
      LosslessKeepsAll(start, before);
      RunInv(start, before);
      LossStep(Run(start, before).value, steps[|steps| - 1]);
    }
  }

  /** Without such a step a scan lists exactly the catalog, however lazy loads race
      with CREATE and DROP; right after such a step it does not. */
  lemma ScanListsTheCatalog(sort: Sort, catalog: map<string, Def>, steps: seq<Step>)
    requires CaseUnique(catalog) && Run(Start(sort, catalog), steps).Some?
    requires var s := Run(Start(sort, catalog), steps).value; s.inited && s.mutator.NoMutator?
    ensures var s := Run(Start(sort, catalog), steps).value;
            Lossless(Start(sort, catalog), steps) ==> forall e :: ScanLists(s, e) <==> Current(s, e)
    ensures var s := Run(Start(sort, catalog), steps).value;
            steps != [] && Loses(Run(Start(sort, catalog), steps[..|steps| - 1]).value, steps[|steps| - 1]) ==>
              exists e :: Current(s, e) && !ScanLists(s, e)
  {
    hide Inv, Enabled, Next, Loses, Lossless, Current, ScanLists;
    var start := Start(sort, catalog);
    StartInv(sort, catalog);
    ScanExact(sort, catalog, steps);
    if Lossless(start, steps) {
      LosslessKeepsAll(start, steps);
    }
    if steps != [] {
      var before := Run(start, steps[..|steps| - 1]);
      RunInv(start, steps[..|steps| - 1]);
      LossStep(before.value, steps[|steps| - 1]);
    }
  }

  lemma StartInv(sort: Sort, catalog: map<string, Def>)
    requires CaseUnique(catalog)
    ensures Inv(Start(sort, catalog))
  {
    FoldsAreSpellings();
  }

  /** What lookups answer when no mutator is in flight: never something stale, and
      "not found" only for a name that the catalog lacks (a table) or that is absent
      or lost (a schema). */
  lemma LookupAnswers(sort: Sort, catalog: map<string, Def>, steps: seq<Step>)
    requires CaseUnique(catalog) && Run(Start(sort, catalog), steps).Some?
    requires var s := Run(Start(sort, catalog), steps).value; s.holder.Answering? && s.mutator.NoMutator?
    ensures var s := Run(Start(sort, catalog), steps).value;
            match s.holder.found
            case Some(e) => SameName(e.name, s.holder.name) && Current(s, e)
            case None =>
              if s.sort.TableSet? then s.holder.name !in s.catalog
              else (exists n :: n in s.catalog && SameName(n, s.holder.name)) ==> IsLost(s, s.holder.name)
  {
    hide Fold, SameName, IsLost, Run;
    StartInv(sort, catalog);
    RunInv(Start(sort, catalog), steps);
    FoldsAreSpellings();
    LostSpellings(Run(Start(sort, catalog), steps).value, Run(Start(sort, catalog), steps).value.holder.name);
  }

  /** Nobody gets stuck: whoever holds the lock can go on to release it, and a mutator
      that waits to update the cache can once the lock is free. */
  lemma NobodyStuck(s: State)
    requires Inv(s)
    ensures !s.holder.Unlocked? ==>
              Enabled(s, Visit) || (Enabled(s, Fetch) && Enabled(s, FetchFails)) || Enabled(s, Store) || Enabled(s, Answer)
    ensures s.holder.Unlocked? && !s.mutator.NoMutator? ==> Enabled(s, Settle)
    ensures s.mutator.NoMutator? ==> forall name :: Enabled(s, Drop(name))
  {
    hide Inv;
  }

  /** A lookup brings a lost table back. */
  lemma TableLookupHeals(s: State, name: string, listed: seq<Entry>)
    requires Inv(s) && s.sort.TableSet? && s.holder.Unlocked? && s.mutator.NoMutator?
    requires name in s.catalog && IsLost(s, name)
    ensures var looked := Next(Next(Next(s, BeginLookup(name, listed)), Fetch), Store);
            && looked.holder == Answering(name, Some(Entry(name, s.catalog[name])))
            && !IsLost(looked, name) && looked.lost < s.lost
  {
    hide Fold, SameName, IsLost;
    LostSpellings(s, name);
    var looked := Next(Next(Next(s, BeginLookup(name, listed)), Fetch), Store);
    assert looked.lost == s.lost - {Fold(name)};
    LostSpellings(looked, name);
  }

  /** Nothing that readers do brings a lost schema back. */
  lemma SchemaStaysLost(s: State, step: Step)
    requires Inv(s) && Enabled(s, step) && s.sort.SchemaSet? && s.lost != {}
    requires !step.Create? && !step.Drop? && !step.Settle?
    ensures Next(s, step).lost == s.lost
  {
    hide Fold;
  }

  // ---- the two losses, reached ----------------------------------------------------------------

  ghost predicate Moves(s: State, step: Step, s': State) {
    Enabled(s, step) && Next(s, step) == s'
  }

  lemma RunMoves(start: State, before: seq<Step>, s: State, step: Step, s': State)
    requires Run(start, before) == Some(s) && Moves(s, step, s')
    ensures Run(start, before + [step]) == Some(s')
  {
    hide Enabled, Next;
    assert (before + [step])[..|before|] == before;
  }

  /** A filled set of one schema. */
  function OneSchema(): State {
    State(SchemaSet, map["db" := SchemaDef], map[Fold("db") := Entry("db", SchemaDef)], true, Unlocked, NoMutator, {})
  }

  lemma ListOfOne(e: Entry)
    ensures Lists(map[e.name := e.def], [e])
  {
    forall x: Entry ensures x in [e] <==> x.name in map[e.name := e.def] && map[e.name := e.def][x.name] == x.def {
      if x.name == e.name && x.def == e.def {
        assert x == e;
      }
    }
  }

  lemma OneSchemaFilled()
    ensures Run(Start(SchemaSet, map["db" := SchemaDef]), [BeginScan([Entry("db", SchemaDef)]), Visit, Visit]) == Some(OneSchema())
    ensures Fold("DB") == Fold("db")
  {
    assert Fold("DB") == Fold("db");
    hide Fold, Run;
    var listed := [Entry("db", SchemaDef)];
    var s0 := Start(SchemaSet, map["db" := SchemaDef]);
    ListOfOne(listed[0]);
    assert listed[1..] == [];
    var s1 := s0.(holder := Visiting(listed, ScanAll));
    var s2 := s1.(holder := Visiting([], ScanAll), entries := map[Fold("db") := listed[0]]);
    assert Moves(s0, BeginScan(listed), s1);
    assert Moves(s1, Visit, s2);
    assert Moves(s2, Visit, OneSchema());
    RunOf3(s0, BeginScan(listed), s1, Visit, s2, Visit, OneSchema());
  }

  lemma RunOf3(s0: State, a: Step, s1: State, b: Step, s2: State, c: Step, s3: State)
    requires Moves(s0, a, s1) && Moves(s1, b, s2) && Moves(s2, c, s3)
    ensures Run(s0, [a, b, c]) == Some(s3)
  {
    hide Moves, Run;
    EmptyRun(s0);
    RunMoves(s0, [], s0, a, s1);
    assert [] + [a] == [a];
    RunMoves(s0, [a], s1, b, s2);
    assert [a] + [b] == [a, b];
    RunMoves(s0, [a, b], s2, c, s3);
    assert [a, b] + [c] == [a, b, c];
  }

  /** DROP SCHEMA IF EXISTS "DB" on a catalog that has "db": the catalog keeps it,
      and a lookup of "db" no longer finds it. */
  lemma OtherSpellingLosesSchema()
    ensures Run(Start(SchemaSet, map["db" := SchemaDef]), [BeginScan([Entry("db", SchemaDef)]), Visit, Visit]) == Some(OneSchema())
    ensures var end := Run(OneSchema(), [Drop("DB"), Settle, BeginLookup("db", [Entry("db", SchemaDef)])]);
            && end.Some? && end.value.mutator.NoMutator?
            && "db" in end.value.catalog && end.value.holder == Answering("db", None)
  {
    hide Run;
    OneSchemaFilled();
    var s0, listed := OneSchema(), [Entry("db", SchemaDef)];
    ListOfOne(listed[0]);
    var s1 := s0.(mutator := Dropped("DB"));
    var s2 := s1.(mutator := NoMutator, entries := map[], lost := {Fold("db")});
    var s3 := s2.(holder := Answering("db", None));
    hide Fold;
    assert s0.catalog - {"DB"} == s0.catalog;
    assert Moves(s0, Drop("DB"), s1);
    assert "db" in s1.catalog && InCatalog(s1, Fold("db"));
    assert Moves(s1, Settle, s2);
    assert Moves(s2, BeginLookup("db", listed), s3);
    RunOf3(s0, Drop("DB"), s1, Settle, s2, BeginLookup("db", listed), s3);
  }

  function EmptyFilled(): State {
    Start(TableSet, map[]).(inited := true)
  }

  lemma EmptySetFilled()
    ensures Run(Start(TableSet, map[]), [BeginScan([]), Visit]) == Some(EmptyFilled())
  {
    hide Fold, Run;
    var empty := Start(TableSet, map[]);
    assert Lists(empty.catalog, []);
    var loading := empty.(holder := Visiting([], ScanAll));
    EmptyRun(empty);
    RunMoves(empty, [], empty, BeginScan([]), loading);
    assert [] + [BeginScan([])] == [BeginScan([])];
    RunMoves(empty, [BeginScan([])], loading, Visit, EmptyFilled());
    assert [BeginScan([])] + [Visit] == [BeginScan([]), Visit];
  }

  /** CREATE TABLE t on a filled cache, with a reload that fails: the table exists
      and scans do not list it. */
  lemma FailedReloadLosesTable(def: Def)
    ensures Run(Start(TableSet, map[]), [BeginScan([]), Visit]) == Some(EmptyFilled())
    ensures var end := Run(EmptyFilled(), [Create("t", def), Settle, FetchFails]);
            && end.Some? && end.value.inited && end.value.mutator.NoMutator?
            && "t" in end.value.catalog && end.value.entries == map[]
  {
    hide Fold, Run;
    EmptySetFilled();
    var s0 := EmptyFilled();
    var s1 := s0.(mutator := Created("t"), catalog := map["t" := def]);
    var s2 := s1.(holder := Fetching("t", [], Refresh));
    var s3 := s2.(holder := Unlocked, mutator := NoMutator, lost := {Fold("t")});
    assert Moves(s0, Create("t", def), s1);
    assert Moves(s1, Settle, s2);
    assert Moves(s2, FetchFails, s3);
    RunOf3(s0, Create("t", def), s1, Settle, s2, FetchFails, s3);
  }

  lemma EmptyRun(start: State)
    ensures Run(start, []) == Some(start)
  {
  }
}
