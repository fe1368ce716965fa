/** The threads of one scan claim splits through a shared atomic counter and
    stream the batches of what they claimed. */
module SplitClaim {
  import opened Prelude

  /** Where one local state stands: about to claim, creating a reader for a
      claimed split, reading it, out of splits, or gone (it threw, or its query
      was cancelled). */
  datatype Thread =
    | Claiming
    | Opening(split: nat)
    | Reading(split: nat, position: nat)
    | Exhausted
    | Gone

  /** `splits[i]` lists the batches that a reader of split `i` yields. The logs are
      the values `fetch_add` returned, the batches handed to the engine, and the
      batches that departed threads had claimed and not returned. */
  datatype State<Batch> = State(
    splits: seq<seq<Batch>>, counter: nat, threads: seq<Thread>,
    claims: seq<nat>, emitted: seq<Batch>, abandoned: multiset<Batch>)

  /** One atomic step of thread `t`, or the start of one more thread. */
  datatype Step = Spawn | Claim(t: nat) | Open(t: nat) | Read(t: nat) | Leave(t: nat)

  predicate Enabled(s: State, step: Step) {
    match step
    case Spawn => true
    case Claim(t) => t < |s.threads| && s.threads[t].Claiming?
    case Open(t) => t < |s.threads| && s.threads[t].Opening?
    case Read(t) => t < |s.threads| && s.threads[t].Reading? && s.threads[t].split < |s.splits|
    case Leave(t) => t < |s.threads| && !s.threads[t].Gone?
  }

  /** What a thread has claimed and not yet returned. */
  function Rest<Batch>(splits: seq<seq<Batch>>, thread: Thread): multiset<Batch> {
    match thread
    case Opening(i) => if i < |splits| then multiset(splits[i]) else multiset{}
    case Reading(i, p) => if i < |splits| && p <= |splits[i]| then multiset(splits[i][p..]) else multiset{}
    case _ => multiset{}
  }

  /** An `idx_t` counter: `fetch_add` wraps. */
  function Bumped(counter: nat): nat {
    Wrapped(counter + 1)
  }

  function Next<Batch>(s: State<Batch>, step: Step): State<Batch>
    requires Enabled(s, step)
  {
    match step
    case Spawn => s.(threads := s.threads + [Claiming])
    case Claim(t) =>
      s.(counter := Bumped(s.counter), claims := s.claims + [s.counter],
         threads := s.threads[t := if s.counter >= |s.splits| then Exhausted else Opening(s.counter)])
    case Open(t) => s.(threads := s.threads[t := Reading(s.threads[t].split, 0)])
    case Read(t) =>
      var i, p := s.threads[t].split, s.threads[t].position;
      if p < |s.splits[i]| then
        s.(threads := s.threads[t := Reading(i, p + 1)], emitted := s.emitted + [s.splits[i][p]])
      else
        s.(threads := s.threads[t := Claiming])
    case Leave(t) =>
      s.(threads := s.threads[t := Gone], abandoned := s.abandoned + Rest(s.splits, s.threads[t]))
  }

  function Start<Batch>(splits: seq<seq<Batch>>): State<Batch> {
    State(splits, 0, [], [], [], multiset{})
  }

  function Run<Batch>(splits: seq<seq<Batch>>, steps: seq<Step>): Option<State<Batch>> {
    if steps == [] then Some(Start(splits))
    else
      match Run(splits, steps[..|steps| - 1])
      case None => None
      case Some(s) => if Enabled(s, steps[|steps| - 1]) then Some(Next(s, steps[|steps| - 1])) else None
  }

  // ---- the invariant ----------------------------------------------------------------------

  function RestOfAll<Batch>(splits: seq<seq<Batch>>, threads: seq<Thread>): multiset<Batch> {
    if threads == [] then multiset{}
    else RestOfAll(splits, threads[..|threads| - 1]) + Rest(splits, threads[|threads| - 1])
  }

  function Unclaimed<Batch>(s: State<Batch>): seq<seq<Batch>> {
    if s.counter <= |s.splits| then s.splits[s.counter..] else []
  }

  /** Calls of `fetch_add` that found no split. */
  function Misses(s: State): nat {
    if s.counter > |s.splits| then s.counter - |s.splits| else 0
  }

  /** The counter cannot wrap. */
  predicate Roomy(s: State) {
    |s.splits| + |s.threads| <= IDX_MAX
  }

  predicate HasSplit(thread: Thread) {
    thread.Opening? || thread.Reading?
  }

  predicate Owning(s: State, t: nat, i: nat)
    requires t < |s.threads|
  {
    HasSplit(s.threads[t]) && s.threads[t].split == i
  }

  /** No two threads work on one split. */
  predicate Exclusive(s: State) {
    && (forall t :: 0 <= t < |s.threads| && HasSplit(s.threads[t]) ==>
          s.threads[t].split < s.counter && s.threads[t].split < |s.splits|)
    && (forall t :: 0 <= t < |s.threads| && s.threads[t].Reading? && s.threads[t].split < |s.splits| ==>
          s.threads[t].position <= |s.splits[s.threads[t].split]|)
    && forall t, u :: 0 <= t < u < |s.threads| && HasSplit(s.threads[t]) && HasSplit(s.threads[u]) ==>
          s.threads[t].split != s.threads[u].split
  }

  /** Every batch is returned, still with the thread that claimed it, abandoned by
      that thread, or in a split that nobody claimed. */
  ghost predicate Conserved(s: State) {
    multiset(s.emitted) + RestOfAll(s.splits, s.threads) + s.abandoned + multiset(Flatten(Unclaimed(s)))
      == multiset(Flatten(s.splits))
  }

  predicate Counted(s: State) {
    && |s.claims| == s.counter && (forall k :: 0 <= k < |s.claims| ==> s.claims[k] == k)
    && multiset(s.threads)[Exhausted] <= Misses(s) <= multiset(s.threads)[Exhausted] + multiset(s.threads)[Gone]
  }

  ghost predicate Inv(s: State) {
    Exclusive(s) && Counted(s) && Conserved(s)
  }

  // ---- every step keeps it ------------------------------------------------------------------

  lemma {:induction false} RestUpdate<Batch>(splits: seq<seq<Batch>>, threads: seq<Thread>, t: nat, thread: Thread)
    requires t < |threads|
    ensures RestOfAll(splits, threads[t := thread]) + Rest(splits, threads[t])
         == RestOfAll(splits, threads) + Rest(splits, thread)
  {
    hide Rest;
    var n := |threads| - 1;
    var after := threads[t := thread];
    var before, now := RestOfAll(splits, threads[..n]), RestOfAll(splits, after[..n]);
    assert RestOfAll(splits, threads) == before + Rest(splits, threads[n]);
    assert RestOfAll(splits, after) == now + Rest(splits, after[n]);
    if t == n {
      assert after[..n] == threads[..n];
      assert now + Rest(splits, thread) + Rest(splits, threads[t]) == before + Rest(splits, threads[n]) + Rest(splits, thread);
    } else {
      assert after[..n] == threads[..n][t := thread];
      RestUpdate(splits, threads[..n], t, thread);
      assert now + Rest(splits, threads[t]) == before + Rest(splits, thread);
      var rest := Rest(splits, threads[n]);
      assert now + rest + Rest(splits, threads[t]) == (now + Rest(splits, threads[t])) + rest;
      assert before + rest + Rest(splits, thread) == (before + Rest(splits, thread)) + rest;
    }
  }

  lemma Balance<T>(e: multiset<T>, e': multiset<T>, r: multiset<T>, r': multiset<T>, a: multiset<T>, a': multiset<T>,
                   u: multiset<T>, u': multiset<T>, all: multiset<T>, all': multiset<T>)
    requires e' + r' + a' + u' == e + r + a + u
    requires all' + r == all + r'
    ensures e' + all' + a' + u' == e + all + a + u
  {
    forall x ensures (e' + all' + a' + u')[x] == (e + all + a + u)[x] {
      assert (e' + r' + a' + u')[x] == (e + r + a + u)[x];
      assert (all' + r)[x] == (all + r')[x];
    }
  }

  lemma EndedBound(threads: seq<Thread>, t: nat)
    requires t < |threads| && !threads[t].Exhausted? && !threads[t].Gone?
    ensures multiset(threads)[Exhausted] + multiset(threads)[Gone] < |threads|
  {
    var m := multiset(threads);
    assert threads[t] in m;
    var rest := m - multiset{threads[t]};
    var ended := multiset{}[Exhausted := m[Exhausted]][Gone := m[Gone]];
    assert ended <= rest;
    var others := rest - ended;
    assert rest == ended + others;
    assert |rest| == |threads| - 1;
    assert |ended| == m[Exhausted] + m[Gone];
  }

  lemma NoWrap(s: State, t: nat)
    requires Counted(s) && Roomy(s) && t < |s.threads| && s.threads[t].Claiming?
    ensures Bumped(s.counter) == s.counter + 1
  {
    EndedBound(s.threads, t);
  }

  lemma ExclusiveNext(s: State, step: Step)
    requires Exclusive(s) && Counted(s) && Enabled(s, step) && Roomy(s)
    ensures Exclusive(Next(s, step))
  {
    hide Rest;
    if step.Claim? {
      ClaimExclusive(s, step.t);
    } else {
      hide Counted, Roomy;
    }
  }

  lemma ClaimExclusive(s: State, t: nat)
    requires Exclusive(s) && Counted(s) && Enabled(s, Claim(t)) && Roomy(s)
    ensures Exclusive(Next(s, Claim(t)))
  {
    NoWrap(s, t);
    hide Counted, Bumped, Rest;
  }

  lemma CountedNext(s: State, step: Step)
    requires Counted(s) && Enabled(s, step) && Roomy(s)
    ensures Counted(Next(s, step))
  {
    hide Rest;
    if step.Claim? {
      ClaimCounted(s, step.t);
    } else {
      var s' := Next(s, step);
      assert s'.counter == s.counter && s'.claims == s.claims && s'.splits == s.splits;
      ThreadsCounted(s, step);
    }
  }

  lemma ClaimCounted(s: State, t: nat)
    requires Counted(s) && Enabled(s, Claim(t)) && Roomy(s)
    ensures Counted(Next(s, Claim(t)))
  {
    NoWrap(s, t);
    var s' := Next(s, Claim(t));
    assert multiset(s'.threads) == multiset(s.threads) - multiset{Claiming} + multiset{s'.threads[t]};
  }

  /** Other steps exhaust nobody, and an exhausted thread that leaves is still counted. */
  lemma ThreadsCounted(s: State, step: Step)
    requires Enabled(s, step) && !step.Claim?
    ensures var before, after := multiset(s.threads), multiset(Next(s, step).threads);
            after[Exhausted] <= before[Exhausted] && before[Exhausted] + before[Gone] <= after[Exhausted] + after[Gone]
  {
    hide Rest;
    var after := Next(s, step).threads;
    if step.Spawn? {
      assert after == s.threads + [Claiming];
    } else {
      assert multiset(after) == multiset(s.threads) - multiset{s.threads[step.t]} + multiset{after[step.t]};
    }
  }

  /** What a step moves: batches leave the unclaimed splits for a thread, and a
      thread for the output or for the abandoned ones. */
  lemma Moved<Batch>(s: State<Batch>, step: Step)
    requires Exclusive(s) && Counted(s) && Enabled(s, step) && Roomy(s) && !step.Spawn?
    ensures var s' := Next(s, step);
            (multiset(s'.emitted) + Rest(s.splits, s'.threads[step.t]) + s'.abandoned + multiset(Flatten(Unclaimed(s')))
          == multiset(s.emitted) + Rest(s.splits, s.threads[step.t]) + s.abandoned + multiset(Flatten(Unclaimed(s))))
  {
    hide Counted;
    var s' := Next(s, step);
    if step.Claim? {
      ClaimMoved(s, step.t);
    } else if step.Open? {
      assert s.splits[s.threads[step.t].split][0..] == s.splits[s.threads[step.t].split];
    } else if step.Read? {
      ReadMoved(s, step.t);
      hide Rest;
    }
  }

  lemma ReadMoved<Batch>(s: State<Batch>, t: nat)
    requires Exclusive(s) && Enabled(s, Read(t))
    ensures var s' := Next(s, Read(t));
            multiset(s'.emitted) + Rest(s.splits, s'.threads[t]) == multiset(s.emitted) + Rest(s.splits, s.threads[t])
  {
    var i, p := s.threads[t].split, s.threads[t].position;
    if p < |s.splits[i]| {
      assert s.splits[i][p..] == [s.splits[i][p]] + s.splits[i][p + 1..];
    }
  }

  lemma ClaimMoved<Batch>(s: State<Batch>, t: nat)
    requires Counted(s) && Enabled(s, Claim(t)) && Roomy(s)
    ensures var s' := Next(s, Claim(t));
            Rest(s.splits, s'.threads[t]) + multiset(Flatten(Unclaimed(s'))) == multiset(Flatten(Unclaimed(s)))
  {
    NoWrap(s, t);
    if s.counter < |s.splits| {
      var rest := Unclaimed(Next(s, Claim(t)));
      assert Unclaimed(s) == [s.splits[s.counter]] + rest;
      assert Flatten(Unclaimed(s)) == s.splits[s.counter] + Flatten(rest);
    }
  }

  lemma SpawnKeeps(s: State)
    ensures var s' := Next(s, Spawn);
            Unclaimed(s') == Unclaimed(s) && RestOfAll(s.splits, s'.threads) == RestOfAll(s.splits, s.threads)
  {
    assert Next(s, Spawn).threads[..|s.threads|] == s.threads;
  }

  lemma ConservedNext<Batch>(s: State<Batch>, step: Step)
    requires Inv(s) && Enabled(s, step) && Roomy(s)
    ensures Conserved(Next(s, step))
  {
    hide Exclusive, Counted, Rest, Unclaimed;
    var s' := Next(s, step);
    if step.Spawn? {
      SpawnKeeps(s);
    } else {
      Moved(s, step);
      RestUpdate(s.splits, s.threads, step.t, s'.threads[step.t]);
      assert s'.threads == s.threads[step.t := s'.threads[step.t]];
      Balance(multiset(s.emitted), multiset(s'.emitted), Rest(s.splits, s.threads[step.t]),
              Rest(s.splits, s'.threads[step.t]), s.abandoned, s'.abandoned, multiset(Flatten(Unclaimed(s))),
              multiset(Flatten(Unclaimed(s'))), RestOfAll(s.splits, s.threads), RestOfAll(s.splits, s'.threads));
    }
  }

  lemma InvNext(s: State, step: Step)
    requires Inv(s) && Enabled(s, step) && Roomy(s)
    ensures Inv(Next(s, step))
  {
    hide Enabled, Next, Exclusive, Counted, Conserved, Roomy;
    ExclusiveNext(s, step);
    CountedNext(s, step);
    ConservedNext(s, step);
  }

  // ---- whole runs ----------------------------------------------------------------------------

  lemma {:induction false} RunInv<Batch>(splits: seq<seq<Batch>>, steps: seq<Step>)
    requires Run(splits, steps).Some? && Roomy(Run(splits, steps).value)
    ensures Inv(Run(splits, steps).value) && Run(splits, steps).value.splits == splits
  {
    hide Inv;
    if steps == [] {
      StartInv(splits);
    } else {
      var before := steps[..|steps| - 1];
      RunInv(splits, before);
      InvNext(Run(splits, before).value, steps[|steps| - 1]);
    }
  }

  lemma StartInv<Batch>(splits: seq<seq<Batch>>)
    ensures Inv(Start(splits))
  {
    assert Start(splits).splits[0..] == splits;
  }

  /** In every interleaving, the calls of `fetch_add` return 0, 1, 2, ... each once,
      so no split index reaches two threads, now or over time. */
  lemma ClaimedOnce<Batch>(splits: seq<seq<Batch>>, steps: seq<Step>)
    requires Run(splits, steps).Some? && Roomy(Run(splits, steps).value)
    ensures var s := Run(splits, steps).value;
            && Distinct(s.claims) && |s.claims| <= |splits| + |s.threads|
            && forall t, u, i :: 0 <= t < u < |s.threads| && Owning(s, t, i) ==> !Owning(s, u, i)
  {
    hide Run;
    RunInv(splits, steps);
    var s := Run(splits, steps).value;
    CountAtMost(s.threads);
  }

  lemma CountAtMost(threads: seq<Thread>)
    ensures multiset(threads)[Exhausted] + multiset(threads)[Gone] <= |threads|
  {
    var m := multiset(threads);
    var ended := multiset{}[Exhausted := m[Exhausted]][Gone := m[Gone]];
    assert ended <= m && m == ended + (m - ended);
    assert |ended| == m[Exhausted] + m[Gone];
  }

  predicate AllExhausted(s: State) {
    |s.threads| > 0 && forall t :: 0 <= t < |s.threads| ==> s.threads[t].Exhausted?
  }

  lemma {:induction false} AllSame(threads: seq<Thread>)
    requires forall t :: 0 <= t < |threads| ==> threads[t].Exhausted?
    ensures multiset(threads)[Exhausted] == |threads| && multiset(threads)[Gone] == 0
  {
    if threads != [] {
      var n := |threads| - 1;
      assert threads == threads[..n] + [threads[n]];
      AllSame(threads[..n]);
    }
  }

  lemma {:induction false} NothingWithExhausted<Batch>(splits: seq<seq<Batch>>, threads: seq<Thread>)
    requires forall t :: 0 <= t < |threads| ==> !HasSplit(threads[t])
    ensures RestOfAll(splits, threads) == multiset{}
  {
    if threads != [] {
      NothingWithExhausted(splits, threads[..|threads| - 1]);
    }
  }

  lemma {:induction false} NobodyLeft<Batch>(splits: seq<seq<Batch>>, steps: seq<Step>)
    requires Run(splits, steps).Some? && forall k :: 0 <= k < |steps| ==> !steps[k].Leave?
    ensures var s := Run(splits, steps).value;
            s.abandoned == multiset{} && forall t :: 0 <= t < |s.threads| ==> !s.threads[t].Gone?
  {
    if steps != [] {
      NobodyLeft(splits, steps[..|steps| - 1]);
    }
  }

  /** Once every thread is exhausted, every split was claimed, `fetch_add` was
      called once per split and once per thread, and the batches returned are
      exactly those of all splits, apart from what departed threads abandoned. */
  lemma ExhaustedMeansComplete<Batch>(splits: seq<seq<Batch>>, steps: seq<Step>)
    requires Run(splits, steps).Some? && Roomy(Run(splits, steps).value) && AllExhausted(Run(splits, steps).value)
    ensures var s := Run(splits, steps).value;
            && |s.claims| == |splits| + |s.threads|
            && (forall i :: 0 <= i < |splits| ==> s.claims[i] == i)
            && multiset(s.emitted) + s.abandoned == multiset(Flatten(splits))
    ensures (forall k :: 0 <= k < |steps| ==> !steps[k].Leave?) ==>
              multiset(Run(splits, steps).value.emitted) == multiset(Flatten(splits))
  {
    hide Run, Exclusive;
    RunInv(splits, steps);
    var s := Run(splits, steps).value;
    AllSame(s.threads);
    NothingWithExhausted(splits, s.threads);
    assert Unclaimed(s) == [];
    if forall k :: 0 <= k < |steps| ==> !steps[k].Leave? {
      NobodyLeft(splits, steps);
    }
  }

  // ---- termination ----------------------------------------------------------------------------

  /** Steps that a thread still takes before it is exhausted, apart from new claims. */
  function Cost(splits: seq<seq>, thread: Thread): nat {
    match thread
    case Claiming => 1
    case Opening(i) => if i < |splits| then |splits[i]| + 3 else 0
    case Reading(i, p) => if i < |splits| && p <= |splits[i]| then |splits[i]| - p + 2 else 0
    case Exhausted => 0
    case Gone => 0
  }

  function CostOfAll(splits: seq<seq>, threads: seq<Thread>): nat {
    if threads == [] then 0
    else CostOfAll(splits, threads[..|threads| - 1]) + Cost(splits, threads[|threads| - 1])
  }

  function CostOfSplits(splits: seq<seq>): nat {
    if splits == [] then 0 else |splits[0]| + 3 + CostOfSplits(splits[1..])
  }

  function Work(s: State): nat {
    CostOfAll(s.splits, s.threads) + CostOfSplits(Unclaimed(s))
  }

  lemma {:induction false} CostUpdate(splits: seq<seq>, threads: seq<Thread>, t: nat, thread: Thread)
    requires t < |threads|
    ensures CostOfAll(splits, threads[t := thread]) + Cost(splits, threads[t])
         == CostOfAll(splits, threads) + Cost(splits, thread)
  {
    hide Cost;
    var n := |threads| - 1;
    var after := threads[t := thread];
    if t == n {
      assert after[..n] == threads[..n];
    } else {
      assert after[..n] == threads[..n][t := thread];
      CostUpdate(splits, threads[..n], t, thread);
    }
  }

  /** Every step of a thread takes exactly one unit of work off. */
  lemma StepTakesOne(s: State, step: Step)
    requires Inv(s) && Enabled(s, step) && Roomy(s)
    ensures (step.Claim? || step.Open? || step.Read?) ==> Work(Next(s, step)) + 1 == Work(s)
    ensures step.Leave? ==> Work(Next(s, step)) <= Work(s)
    ensures step.Spawn? ==> Work(Next(s, step)) == Work(s) + 1
  {
    hide Conserved;
    var s' := Next(s, step);
    if step.Spawn? {
      SpawnKeeps(s);
      assert s'.threads[..|s.threads|] == s.threads;
    } else {
      CostUpdate(s.splits, s.threads, step.t, s'.threads[step.t]);
      if step.Claim? {
        NoWrap(s, step.t);
        if s.counter < |s.splits| {
          assert Unclaimed(s) == [s.splits[s.counter]] + Unclaimed(s');
        }
      }
    }
  }

  function ThreadSteps(steps: seq<Step>): nat {
    if steps == [] then 0
    else
      var last := steps[|steps| - 1];
      ThreadSteps(steps[..|steps| - 1]) + if last.Claim? || last.Open? || last.Read? then 1 else 0
  }

  /** Every run ends: its threads together take at most one step per batch, three
      per split and one each; exactly that many when all end exhausted and none left. */
  lemma {:induction false} RunsAreBounded<Batch>(splits: seq<seq<Batch>>, steps: seq<Step>)
    requires Run(splits, steps).Some? && Roomy(Run(splits, steps).value)
    ensures var s := Run(splits, steps).value;
            && ThreadSteps(steps) + Work(s) <= CostOfSplits(splits) + |s.threads|
            && ((forall k :: 0 <= k < |steps| ==> !steps[k].Leave?) ==>
                  ThreadSteps(steps) + Work(s) == CostOfSplits(splits) + |s.threads|)
  {
    hide Inv, Work;
    if steps == [] {
      StartWork(splits);
    } else {
      var before := steps[..|steps| - 1];
      RunsAreBounded(splits, before);
      RunInv(splits, before);
      StepTakesOne(Run(splits, before).value, steps[|steps| - 1]);
    }
  }

  lemma StartWork<Batch>(splits: seq<seq<Batch>>)
    ensures Work(Start(splits)) == CostOfSplits(splits)
  {
    assert splits[0..] == splits;
  }

  /** No thread gets stuck: a run that no thread can continue has returned every
      batch of every split exactly once, if it had a thread and none left. */
  lemma QuiescentMeansComplete<Batch>(splits: seq<seq<Batch>>, steps: seq<Step>)
    requires Run(splits, steps).Some? && Roomy(Run(splits, steps).value) && |Run(splits, steps).value.threads| > 0
    requires forall k :: 0 <= k < |steps| ==> !steps[k].Leave?
    requires forall t :: !Enabled(Run(splits, steps).value, Claim(t)) && !Enabled(Run(splits, steps).value, Open(t))
                      && !Enabled(Run(splits, steps).value, Read(t))
    ensures multiset(Run(splits, steps).value.emitted) == multiset(Flatten(splits))
  {
    hide Run, Conserved, Counted;
    var s := Run(splits, steps).value;
    RunInv(splits, steps);
    NobodyLeft(splits, steps);
    forall t | 0 <= t < |s.threads| ensures s.threads[t].Exhausted? {
      assert !Enabled(s, Claim(t)) && !Enabled(s, Open(t)) && !Enabled(s, Read(t));
    }
    ExhaustedMeansComplete(splits, steps);
  }

  lemma OneStepOn<Batch>(splits: seq<seq<Batch>>, steps: seq<Step>, step: Step)
    requires Run(splits, steps).Some? && Enabled(Run(splits, steps).value, step)
    ensures Run(splits, steps + [step]) == Some(Next(Run(splits, steps).value, step))
  {
    hide Enabled, Next;
    assert (steps + [step])[..|steps|] == steps;
  }

  ghost predicate Completes<Batch>(splits: seq<seq<Batch>>, steps: seq<Step>) {
    && Run(splits, steps).Some? && AllExhausted(Run(splits, steps).value)
    && multiset(Run(splits, steps).value.emitted) == multiset(Flatten(splits))
  }

  /** The step that a thread takes next. */
  function Own(thread: Thread, t: nat): Step {
    if thread.Claiming? then Claim(t) else if thread.Opening? then Open(t) else Read(t)
  }

  /** Whatever its threads have done so far, a scan that none has left can be completed. */
  lemma {:induction false} CanComplete<Batch>(splits: seq<seq<Batch>>, steps: seq<Step>)
    requires Run(splits, steps).Some? && Roomy(Run(splits, steps).value) && |Run(splits, steps).value.threads| > 0
    requires forall k :: 0 <= k < |steps| ==> !steps[k].Leave?
    ensures exists more :: Completes(splits, steps + more)
    decreases Work(Run(splits, steps).value)
  {
    hide Run, Conserved, Counted, Work, Completes;
    var s := Run(splits, steps).value;
    RunInv(splits, steps);
    NobodyLeft(splits, steps);
    if t :| 0 <= t < |s.threads| && !s.threads[t].Exhausted? {
      var step := Own(s.threads[t], t);
      OneStepOn(splits, steps, step);
      StepTakesOne(s, step);
      CanComplete(splits, steps + [step]);
      var more :| Completes(splits, steps + [step] + more);
      assert steps + [step] + more == steps + ([step] + more);
    } else {
      Exhausts(splits, steps);
      assert steps + [] == steps;
    }
  }

  lemma Exhausts<Batch>(splits: seq<seq<Batch>>, steps: seq<Step>)
    requires Run(splits, steps).Some? && Roomy(Run(splits, steps).value) && AllExhausted(Run(splits, steps).value)
    requires forall k :: 0 <= k < |steps| ==> !steps[k].Leave?
    ensures Completes(splits, steps)
  {
    hide Run, AllExhausted;
    ExhaustedMeansComplete(splits, steps);
  }

  /** In particular every scan can: one thread is enough. */
  lemma OneThreadCompletes<Batch>(splits: seq<seq<Batch>>) returns (steps: seq<Step>)
    requires |splits| < IDX_MAX
    ensures Completes(splits, steps)
  {
    OneStepOn(splits, [], Spawn);
    assert [] + [Spawn] == [Spawn];
    CanComplete(splits, [Spawn]);
    var more :| Completes(splits, [Spawn] + more);
    steps := [Spawn] + more;
  }

  // ---- the calls of one thread -----------------------------------------------------------------

  /** What the local states of one scan share. */
  class GlobalScan<Batch> {
    const splits: seq<seq<Batch>>
    var index: nat

    constructor (splits: seq<seq<Batch>>)
      ensures this.splits == splits && index == 0
    {
      this.splits := splits;
      index := 0;
    }
  }

  /** Where reading goes wrong: splits that no reader can be created for, and
      batches whose retrieval fails. */
  datatype Faults = Faults(unreadable: set<nat>, broken: set<(nat, nat)>)

  /** What a thread at `reader` would return if no other thread claimed anything. */
  function Ahead<Batch>(splits: seq<seq<Batch>>, index: nat, reader: Option<(nat, nat)>): seq<Batch>
    requires reader.Some? ==> reader.value.0 < |splits| && reader.value.1 <= |splits[reader.value.0]|
  {
    (if reader.None? then [] else splits[reader.value.0][reader.value.1..])
    + (if index <= |splits| then Flatten(splits[index..]) else [])
  }

  lemma AheadTakes<Batch>(splits: seq<seq<Batch>>, index: nat, split: nat, position: nat)
    requires split < |splits| && position < |splits[split]|
    ensures Ahead(splits, index, Some((split, position)))
         == [splits[split][position]] + Ahead(splits, index, Some((split, position + 1)))
  {
    hide Flatten;
    assert splits[split][position..] == [splits[split][position]] + splits[split][position + 1..];
  }

  lemma AheadClaims<Batch>(splits: seq<seq<Batch>>, index: nat, split: nat)
    requires split < |splits| && index < |splits|
    ensures Ahead(splits, index, Some((split, |splits[split]|))) == Ahead(splits, index + 1, Some((index, 0)))
  {
    assert splits[index..] == [splits[index]] + splits[index + 1..];
    assert Flatten(splits[index..]) == splits[index] + Flatten(splits[index + 1..]);
    assert splits[index][0..] == splits[index];
  }

  lemma AheadEnds<Batch>(splits: seq<seq<Batch>>, index: nat, split: nat)
    requires split < |splits| && index >= |splits|
    ensures Ahead(splits, index, Some((split, |splits[split]|))) == [] == Ahead(splits, index + 1, None)
  {
  }

  lemma BumpedRoom(index: nat)
    requires index < IDX_MAX
    ensures Bumped(index) == index + 1
  {
  }

  class LocalScan<Batch> {
    const shared: GlobalScan<Batch>
    /** The split being read and how many of its batches were taken. */
    var reader: Option<(nat, nat)>
    var exhausted: bool

    /** Before the first claim, which the program makes before it hands the object out. */
    constructor (shared: GlobalScan<Batch>)
      ensures this.shared == shared && reader.None? && !exhausted
    {
      this.shared := shared;
      reader, exhausted := None, false;
    }

    ghost predicate Valid()
      reads this, shared
    {
      && |shared.splits| < IDX_MAX && shared.index <= IDX_MAX
      && (reader.Some? ==> reader.value.0 < |shared.splits| && reader.value.1 <= |shared.splits[reader.value.0]|)
    }

    /** What this thread would return if no other thread claimed anything. */
    ghost function Remaining(): seq<Batch>
      requires Valid()
      reads this, shared
    {
      Ahead(shared.splits, shared.index, if exhausted then None else reader)
    }

    /** `NextSplit`: claims the next split and opens it. */
    method NextSplit(faults: Faults) returns (r: Result<bool>)
      requires Valid()
      modifies this, shared
      ensures Valid() && shared.index == Bumped(old(shared.index))
      ensures r == if old(shared.index) >= |shared.splits| then Ok(false)
                   else if old(shared.index) in faults.unreadable then Err else Ok(true)
      ensures exhausted == (old(exhausted) || r == Ok(false))
      ensures reader == if r == Ok(true) then Some((old(shared.index), 0)) else old(reader)
    {
      var claimed := shared.index;
      shared.index := Bumped(shared.index);
      if claimed >= |shared.splits| {
        exhausted := true;
        return Ok(false);
      }
      if claimed in faults.unreadable {
        return Err;
      }
      reader := Some((claimed, 0));
      return Ok(true);
    }

    /** `NextBatch`: the next batch of all that is left, in order; none only when
        nothing is left. */
    method NextBatch(faults: Faults) returns (r: Result<Option<Batch>>)
      requires Valid() && (exhausted || (reader.Some? && shared.index < IDX_MAX))
      modifies this, shared
      ensures Valid() && shared.index >= old(shared.index)
      ensures r.Ok? && r.value.Some? ==> old(Remaining()) == [r.value.value] + Remaining()
      ensures r == Ok(None) ==> exhausted && (old(exhausted) || old(Remaining()) == [])
      ensures faults == Faults({}, {}) ==> r.Ok?
      ensures old(exhausted) ==> r == Ok(None) && Remaining() == old(Remaining())
    {
      hide Ahead, Bumped;
      while !exhausted
        invariant Valid() && (exhausted || (reader.Some? && shared.index < IDX_MAX))
        invariant shared.index >= old(shared.index)
        invariant Remaining() == old(Remaining())
        invariant exhausted && !old(exhausted) ==> Remaining() == []
        invariant old(exhausted) ==> exhausted
        decreases if exhausted then 0 else 1, IDX_MAX - shared.index
      {
        var (split, position) := reader.value;
        if (split, position) in faults.broken {
          return Err;
        }
        if position < |shared.splits[split]| {
          AheadTakes(shared.splits, shared.index, split, position);
          reader := Some((split, position + 1));
          return Ok(Some(shared.splits[split][position]));
        }
        BumpedRoom(shared.index);
        if shared.index < |shared.splits| {
          AheadClaims(shared.splits, shared.index, split);
        } else {
          AheadEnds(shared.splits, shared.index, split);
        }
        var more := NextSplit(faults);
        if more.Err? {
          return Err;
        }
      }
      return Ok(None);
    }
  }
}
