/** The host call that migrates a ledger state: the idempotency guard, the budgeted loop over the
    scheduler, the reported cost, and the new root in the arena. */
module Migration {
  import opened Common
  import opened Trie
  import opened LedgerTypes
  import opened LedgerLaws
  import opened TranslationTable
  import opened Translation
  import opened TranslationLaws
  import opened Schedule

  const RUN_BUDGET_PS := 10_000_000_000
  const MAX_STEPS := 100_000

  // ----- Keys and the arena -----

  type Hash(==, !new)

  /** A state key as its decoders see it: the tag in its header, if it has one, and the arena hash
      in its body, if the body is well formed. */
  datatype StateKey = StateKey(tag: Option<string>, body: Option<Hash>)

  const KEY_TAG_8 := "storage-key(ledger-state[v13])"
  const KEY_TAG_9 := "storage-key(ledger-state[v18])"

  /** A tagged decode of a state key. */
  function DecodeKey(key: StateKey, tag: string): Option<Hash>
  {
    if key.tag == Some(tag) then key.body else None
  }

  /** The stored wrapper: a ledger state and the fullness of the block in progress. */
  datatype Ledger = Ledger8(state8: State8, fullness: nat) | Ledger9(state9: State9, fullness: nat)

  datatype ApiError = Deserialization | NoLedgerState | HostApiError | BadAddress | BeneficiaryNotFound

  type Arena = map<Hash, Ledger>

  /** Every object of the older arena is still there. */
  predicate Extends(arena: Arena, older: Arena)
  {
    forall h :: h in older ==> h in arena && arena[h] == older[h]
  }

  function Load8(arena: Arena, key: StateKey): Result<Ledger, ApiError>
  {
    match DecodeKey(key, KEY_TAG_8)
    case None => Err(Deserialization)
    case Some(h) => if h in arena && arena[h].Ledger8? then Ok(arena[h]) else Err(NoLedgerState)
  }

  /** `Ledger9::new`: the state with an empty block. */
  function NewLedger9(state: State9): Ledger
  {
    Ledger9(state, 0)
  }

  /** The arena: objects stored under their content address. */
  class Storage {
    var arena: Arena
    const address: Ledger -> Hash

    constructor (address: Ledger -> Hash)
      ensures arena == map[] && this.address == address && Valid()
    {
      this.arena := map[];
      this.address := address;
    }

    ghost predicate Valid()
      reads this
    {
      forall h :: h in arena ==> address(arena[h]) == h
    }

    /** No stored content other than this one has its address. */
    ghost predicate CollidesWithNone(ledger: Ledger)
      reads this
    {
      forall h :: h in arena && address(arena[h]) == address(ledger) ==> arena[h] == ledger
    }

    /** Storing an object. Everything sits under its own address, so nothing stored before is disturbed
        unless two contents share an address. */
    method Alloc(ledger: Ledger) returns (h: Hash)
      requires Valid()
      requires CollidesWithNone(ledger)
      modifies this`arena
      ensures Valid()
      ensures h == address(ledger)
      ensures arena == old(arena)[h := ledger]
      ensures Extends(arena, old(arena))
    {
      h := address(ledger);
      arena := arena[h := ledger];
    }
  }

  /** The tag of a state key names the type it points at, the source or the target of the translation. */
  lemma KeyTagsNameTypes()
    ensures KEY_TAG_8 == "storage-key(" + SourceTag(LedgerTl) + ")"
    ensures KEY_TAG_9 == "storage-key(" + TargetTag(LedgerTl) + ")"
  {
    assert "storage-key(" + "ledger-state[v13]" == "storage-key(ledger-state[v13]";
    assert "storage-key(" + "ledger-state[v18]" == "storage-key(ledger-state[v18]";
  }

  // ----- The scheduler -----

  /** What one `run` call did: the pairs it tried, and the picoseconds it spent. */
  datatype RunTrace = RunTrace(attempts: seq<Child>, spent: nat)

  /** The behaviour of the scheduler: its first run is `runs(1)`. */
  type Runs = nat -> RunTrace

  /** The cache after `n` runs. */
  function After(env: Env, runs: Runs, n: nat): Result<Cache, Abort>
  {
    if n == 0 then Ok(map[])
    else
      match After(env, runs, n - 1)
      case Err(e) => Err(e)
      case Ok(cache) => Run(env, cache, runs(n).attempts)
  }

  predicate DoneAt(env: Env, s: State8, runs: Runs, n: nat)
  {
    After(env, runs, n).Ok? && Cached(env, After(env, runs, n).value, LedgerPair(s))
  }

  predicate FirstDone(env: Env, s: State8, runs: Runs, n: nat)
  {
    n >= 1 && DoneAt(env, s, runs, n) && forall i :: 1 <= i < n ==> !DoneAt(env, s, runs, i)
  }

  /** The scheduler of a translation of `s` only ever tries pairs reachable from its root, and no
      two of them share a content address. */
  ghost predicate SchedulerFor(env: Env, s: State8, runs: Runs)
  {
    && TypedState(s)
    && CollisionFree(env, LedgerPair(s))
    && (forall i :: i >= 1 ==> ScheduleOf(LedgerPair(s), runs(i).attempts))
  }

  lemma RootIsGood(s: State8)
    requires TypedState(s)
    ensures GoodRoot(LedgerPair(s))
  {
  }

  lemma RunKeepsInvOrTagsDiffer(env: Env, root: Child, cache: Cache, ps: seq<Child>)
    requires Inv(env, root, cache) && ScheduleOf(root, ps)
    ensures Run(env, cache, ps).Ok? ==> Inv(env, root, Run(env, cache, ps).value)
    ensures Run(env, cache, ps).Err? ==> !AllRecastsAgree(env, root)
  {
    hide Run, Inv;
    RunKeepsInv(env, root, cache, ps);
  }

  /** Every cache on the way satisfies the schedule invariant. */
  lemma {:induction false} AfterKeepsInv(env: Env, s: State8, runs: Runs, n: nat)
    requires SchedulerFor(env, s, runs)
    ensures After(env, runs, n).Ok? ==> Inv(env, LedgerPair(s), After(env, runs, n).value)
    ensures After(env, runs, n).Err? ==> !AllRecastsAgree(env, LedgerPair(s))
  {
    hide Run, Inv, AllRecastsAgree;
    RootIsGood(s);
    if n == 0 {
      EmptyCacheInv(env, LedgerPair(s));
    } else {
      AfterKeepsInv(env, s, runs, n - 1);
      if After(env, runs, n - 1).Ok? {
        RunKeepsInvOrTagsDiffer(env, LedgerPair(s), After(env, runs, n - 1).value, runs(n).attempts);
      }
    }
  }

  lemma {:induction false} AfterStaysFailed(env: Env, runs: Runs, m: nat, n: nat)
    requires m <= n && After(env, runs, m).Err?
    ensures After(env, runs, n).Err?
  {
    if m < n { AfterStaysFailed(env, runs, m, n - 1); }
  }

  /** The attempts of the first `n` runs, one after the other. */
  function AttemptsUpTo(runs: Runs, n: nat): seq<Child>
  {
    if n == 0 then [] else AttemptsUpTo(runs, n - 1) + runs(n).attempts
  }

  /** Running up to `n` times is one run over all these attempts, whatever the budget cut them into. */
  lemma {:induction false} AfterIsOneRun(env: Env, runs: Runs, n: nat)
    ensures After(env, runs, n) == Run(env, map[], AttemptsUpTo(runs, n))
  {
    if n > 0 {
      AfterIsOneRun(env, runs, n - 1);
      RunSplits(env, map[], AttemptsUpTo(runs, n - 1), runs(n).attempts);
    }
  }

  /** When the root is done it holds the plain translation of the state. */
  lemma DoneIsPlain(env: Env, s: State8, runs: Runs, n: nat)
    requires SchedulerFor(env, s, runs) && DoneAt(env, s, runs, n)
    ensures After(env, runs, n).value[CacheKey(env, LedgerPair(s))] == LedgerObj9(TranslateLedger(s, env.target))
  {
    AfterKeepsInv(env, s, runs, n);
    assert LedgerPair(s) in Work(LedgerPair(s));
    assert GoodEntry(env, After(env, runs, n).value, LedgerPair(s));
  }

  // ----- Convergence -----

  /** Run `i` finishes, or stores at least one new key. */
  ghost predicate StoresOrFinishes(env: Env, s: State8, runs: Runs, i: nat)
    requires i >= 1
  {
    After(env, runs, i - 1).Ok? && !DoneAt(env, s, runs, i) ==>
      Productive(env, After(env, runs, i - 1).value, runs(i).attempts) >= 1
  }

  ghost predicate Diligent(env: Env, s: State8, runs: Runs)
  {
    forall i :: i >= 1 ==> StoresOrFinishes(env, s, runs, i)
  }

  /** How many keys are still missing after `n` runs. */
  ghost function Left(env: Env, s: State8, runs: Runs, n: nat): nat
  {
    match After(env, runs, n)
    case Err(_) => 0
    case Ok(cache) => |Remaining(env, LedgerPair(s), cache)|
  }

  lemma OneRunFalls(env: Env, s: State8, runs: Runs, n: nat)
    requires n >= 1 && SchedulerFor(env, s, runs)
    requires After(env, runs, n).Ok? && !DoneAt(env, s, runs, n) && StoresOrFinishes(env, s, runs, n)
    ensures Left(env, s, runs, n) < Left(env, s, runs, n - 1)
  {
    hide Run, Productive, Remaining, Inv, DoneAt;
    AfterKeepsInv(env, s, runs, n - 1);
    ProductiveRunShrinks(env, LedgerPair(s), After(env, runs, n - 1).value, runs(n).attempts);
  }

  lemma {:induction false} RemainingFalls(env: Env, s: State8, runs: Runs, n: nat)
    requires SchedulerFor(env, s, runs) && Diligent(env, s, runs) && AllRecastsAgree(env, LedgerPair(s))
    requires forall i :: 1 <= i <= n ==> !DoneAt(env, s, runs, i)
    ensures Left(env, s, runs, n) + n <= Left(env, s, runs, 0)
  {
    hide Run, Inv, AllRecastsAgree, Remaining;
    if n > 0 {
      AfterKeepsInv(env, s, runs, n);
      RemainingFalls(env, s, runs, n - 1);
      OneRunFalls(env, s, runs, n);
    }
  }

  lemma SomethingIsLeft(env: Env, s: State8, runs: Runs, n: nat)
    requires After(env, runs, n).Ok? && !DoneAt(env, s, runs, n)
    ensures Left(env, s, runs, n) >= 1
  {
    var cache := After(env, runs, n).value;
    assert LedgerPair(s) in Work(LedgerPair(s));
    assert CacheKey(env, LedgerPair(s)) in Remaining(env, LedgerPair(s), cache);
  }

  lemma EarlyRunsLeaveWork(env: Env, s: State8, runs: Runs, n: nat)
    requires SchedulerFor(env, s, runs) && Diligent(env, s, runs) && AllRecastsAgree(env, LedgerPair(s))
    requires forall i :: 1 <= i <= n ==> !DoneAt(env, s, runs, i)
    ensures n < Left(env, s, runs, 0)
  {
    AfterKeepsInv(env, s, runs, n);
    RemainingFalls(env, s, runs, n);
    SomethingIsLeft(env, s, runs, n);
  }

  /** With equal tags and a scheduler that always stores something, the root is done after at most
      one run per distinct object. */
  lemma Converges(env: Env, s: State8, runs: Runs) returns (n: nat)
    requires SchedulerFor(env, s, runs) && Diligent(env, s, runs) && TagsAgree(env.tags, s)
    ensures FirstDone(env, s, runs, n)
    ensures n <= Left(env, s, runs, 0)
  {
    hide TagsAgree;
    AllRecastsAgreeIff(env, s);
    n := 1;
    EarlyRunsLeaveWork(env, s, runs, 0);
    while !DoneAt(env, s, runs, n)
      invariant 1 <= n <= Left(env, s, runs, 0)
      invariant forall i :: 1 <= i < n ==> !DoneAt(env, s, runs, i)
      decreases Left(env, s, runs, 0) - n
    {
      EarlyRunsLeaveWork(env, s, runs, n);
      n := n + 1;
    }
  }

  /** The root is never done with unequal tags, whatever the scheduler does. */
  lemma DoneMeansTagsAgree(env: Env, s: State8, runs: Runs, n: nat)
    requires SchedulerFor(env, s, runs) && DoneAt(env, s, runs, n)
    ensures TagsAgree(env.tags, s)
  {
    hide TagsAgree, Run, Inv;
    var cache := After(env, runs, n).value;
    AfterKeepsInv(env, s, runs, n);
    assert LedgerPair(s) in Work(LedgerPair(s));
    forall q | q in Work(LedgerPair(s)) ensures RecastsAgree(env.tags, TlOf(q.1)) {
      CachedMeansAllCached(env, LedgerPair(s), cache, LedgerPair(s), q);
    }
    AllRecastsAgreeIff(env, s);
  }

  /** The scheduler stores something in every unfinished run, and there are no more distinct objects than
      the driver allows runs. */
  ghost predicate WithinSteps(env: Env, s: State8, runs: Runs)
  {
    Diligent(env, s, runs) && Left(env, s, runs, 0) <= 100_000
  }

  lemma ConvergesWithinSteps(env: Env, s: State8, runs: Runs)
    requires SchedulerFor(env, s, runs) && WithinSteps(env, s, runs) && TagsAgree(env.tags, s)
    ensures exists n :: 1 <= n <= 100_000 && FirstDone(env, s, runs, n)
  {
    var n := Converges(env, s, runs);
  }

  // ----- The migration -----

  /** The loop of the driver: runs the scheduler until the root is done, at most MAX_STEPS times. */
  method Drive(env: Env, s: State8, runs: Runs) returns (r: Option<(State9, nat)>)
    requires SchedulerFor(env, s, runs)
    ensures r.Some? <==> exists n :: 1 <= n <= 100_000 && FirstDone(env, s, runs, n)
    ensures r.Some? ==> 1 <= r.value.1 <= 100_000 && FirstDone(env, s, runs, r.value.1)
    ensures r.Some? ==> r.value.0 == TranslateLedger(s, env.target)
    ensures !TagsAgree(env.tags, s) ==> r.None?
    ensures TagsAgree(env.tags, s) && WithinSteps(env, s, runs) ==> r.Some?
  {
    hide Run, TranslateLedger, SchedulerFor, TagsAgree, WithinSteps;
    if TagsAgree(env.tags, s) && WithinSteps(env, s, runs) {
      ConvergesWithinSteps(env, s, runs);
    }
    var cache: Cache := map[];
    var steps := 0;
    while !Cached(env, cache, LedgerPair(s))
      invariant 0 <= steps <= MAX_STEPS
      invariant After(env, runs, steps) == Ok(cache)
      invariant forall i :: 1 <= i < steps ==> !DoneAt(env, s, runs, i)
      invariant steps == 0 ==> !Cached(env, cache, LedgerPair(s))
      decreases MAX_STEPS - steps
    {
      steps := steps + 1;
      if steps > MAX_STEPS {
        return None;
      }
      var ran := Run(env, cache, runs(steps).attempts);
      if ran.Err? {
        NeverDoneAfterFailure(env, s, runs, steps);
        return None;
      }
      cache := ran.value;
    }
    assert FirstDone(env, s, runs, steps);
    DoneIsPlain(env, s, runs, steps);
    DoneMeansTagsAgree(env, s, runs, steps);
    r := Some((cache[CacheKey(env, LedgerPair(s))].state, steps));
  }

  lemma NeverDoneAfterFailure(env: Env, s: State8, runs: Runs, m: nat)
    requires After(env, runs, m).Err?
    requires forall i :: 1 <= i < m ==> !DoneAt(env, s, runs, i)
    ensures forall n :: n >= 1 ==> !FirstDone(env, s, runs, n)
  {
    forall n | n >= 1 ensures !FirstDone(env, s, runs, n) {
      if n >= m { AfterStaysFailed(env, runs, m, n); }
    }
  }

  /** The key is a ledger-8 key and points at a stored ledger-8 state. */
  predicate NeedsMigration(arena: Arena, key: StateKey)
  {
    && key.tag == Some("storage-key(ledger-state[v13])") && key.body.Some?
    && key.body.value in arena && arena[key.body.value].Ledger8?
  }

  /** The v8 state a key points at. */
  function StateAt(arena: Arena, key: StateKey): State8
    requires NeedsMigration(arena, key)
  {
    arena[key.body.value].state8
  }

  /** What the migration of a v8 state stores: its plain translation, at the start of a block. */
  function Target9(env: Env, s: State8): Ledger
  {
    Ledger9(TranslateLedger(s, env.target), 0)
  }

  /** `migrate_state_v8_to_v9` */
  method Migrate(storage: Storage, key: StateKey, env: Env, runs: Runs)
    returns (r: Result<(StateKey, int), ApiError>)
    requires storage.Valid()
    requires NeedsMigration(storage.arena, key) ==>
               var s := StateAt(storage.arena, key);
               SchedulerFor(env, s, runs) && storage.CollidesWithNone(Target9(env, s))
    modifies storage`arena
    ensures storage.Valid()
    // A well-formed v9 key comes back unchanged, at no cost.
    ensures key.tag == Some("storage-key(ledger-state[v18])") && key.body.Some? ==> r == Ok((key, 0))
    // Any other key that is not a well-formed ledger-8 key does not decode, and one that points at no
    // ledger-8 state finds nothing.
    ensures key.body.None? ==> r == Err(Deserialization)
    ensures (&& key.tag != Some("storage-key(ledger-state[v13])")
             && key.tag != Some("storage-key(ledger-state[v18])")) ==> r == Err(Deserialization)
    ensures (&& key.tag == Some("storage-key(ledger-state[v13])") && key.body.Some?
             && !NeedsMigration(old(storage.arena), key)) ==> r == Err(NoLedgerState)
    // Otherwise the call succeeds exactly when the root is done within 100,000 runs, reports 10 ms per
    // run, and stores the plain translation, with no block begun, under the v9 key it returns.
    ensures NeedsMigration(old(storage.arena), key) ==>
              var s := StateAt(old(storage.arena), key);
              match r
              case Err(e) => e == HostApiError && forall n :: 1 <= n <= 100_000 ==> !FirstDone(env, s, runs, n)
              case Ok((key', cost)) =>
                && (exists n :: 1 <= n <= 100_000 && FirstDone(env, s, runs, n) && cost == n * 10_000_000_000)
                && key'.tag == Some("storage-key(ledger-state[v18])")
                && key'.body == Some(storage.address(Ledger9(TranslateLedger(s, env.target), 0)))
                && storage.arena == old(storage.arena)[key'.body.value := Ledger9(TranslateLedger(s, env.target), 0)]
    // What is stored under that key shows everything the old state did, contracts included.
    ensures NeedsMigration(old(storage.arena), key) && r.Ok? && Lawful(env.target.ann) ==>
              && r.value.0.body.value in storage.arena && storage.arena[r.value.0.body.value].Ledger9?
              && SameLedger(StateAt(old(storage.arena), key), storage.arena[r.value.0.body.value].state9, env.target)
    // So it fails if a tag changed, and succeeds if none did and the state has at most MAX_STEPS distinct
    // objects, of which every unfinished run stores at least one.
    ensures NeedsMigration(old(storage.arena), key) ==>
              var s := StateAt(old(storage.arena), key);
              && (!TagsAgree(env.tags, s) ==> r.Err?)
              && (TagsAgree(env.tags, s) && WithinSteps(env, s, runs) ==> r.Ok?)
    // Nothing stored before is disturbed, and in every other case the arena is left alone.
    ensures Extends(storage.arena, old(storage.arena))
    ensures !NeedsMigration(old(storage.arena), key) || r.Err? ==> storage.arena == old(storage.arena)
  {
    hide TagsAgree, WithinSteps, SameLedger, Lawful, TranslateLedger;
    if DecodeKey(key, KEY_TAG_9).Some? {
      return Ok((key, 0));
    }
    var loaded := Load8(storage.arena, key);
    if loaded.Err? {
      return Err(loaded.error);
    }
    var driven := Drive(env, loaded.value.state8, runs);
    if driven.None? {
      return Err(HostApiError);
    }
    var (state9, steps) := driven.value;
    var cost := (steps * RUN_BUDGET_PS) % U64_BOUND;
    CostFitsU64(steps);
    var h := storage.Alloc(NewLedger9(state9));
    r := Ok((StateKey(Some(KEY_TAG_9), Some(h)), cost));
    if Lawful(env.target.ann) {
      LedgerIsKept(loaded.value.state8, env.target);
    }
  }

  /** The product the driver computes in 64 bits never wraps. */
  lemma CostFitsU64(steps: nat)
    requires steps <= MAX_STEPS
    ensures (steps * RUN_BUDGET_PS) % U64_BOUND == steps * RUN_BUDGET_PS
  {
  }

  // ----- The reported cost -----

  function TrueCost(runs: Runs, n: nat): nat
  {
    if n == 0 then 0 else TrueCost(runs, n - 1) + runs(n).spent
  }

  /** A run spends at most its budget, and stops short of a result only when it is spent. */
  ghost predicate Frugal(env: Env, s: State8, runs: Runs)
  {
    forall i :: i >= 1 ==> runs(i).spent <= RUN_BUDGET_PS
                           && (!DoneAt(env, s, runs, i) ==> runs(i).spent == RUN_BUDGET_PS)
  }

  lemma {:induction false} FullRunsCostTheirBudget(env: Env, s: State8, runs: Runs, n: nat)
    requires Frugal(env, s, runs)
    requires forall i :: 1 <= i <= n ==> !DoneAt(env, s, runs, i)
    ensures TrueCost(runs, n) == n * RUN_BUDGET_PS
  {
    if n > 0 { FullRunsCostTheirBudget(env, s, runs, n - 1); }
  }

  /** The reported cost is never below the true one and less than or equal to one budget above; the
      gap is what the last run left unspent. */
  lemma ReportedCostIsTight(env: Env, s: State8, runs: Runs, n: nat)
    requires Frugal(env, s, runs) && FirstDone(env, s, runs, n)
    ensures TrueCost(runs, n) <= n * RUN_BUDGET_PS <= TrueCost(runs, n) + RUN_BUDGET_PS
    ensures n * RUN_BUDGET_PS - TrueCost(runs, n) == RUN_BUDGET_PS - runs(n).spent
  {
    FullRunsCostTheirBudget(env, s, runs, n - 1);
  }
}
