/** The read accessors of the ledger-9 host API, which serve a ledger-8 root through the ledger-8
    code while the migration has not yet run, and the proof that a client cannot tell the two
    apart on anything the migration keeps. */
module HostReads {
  import opened Common
  import opened Trie
  import opened LedgerTypes
  import opened LedgerLaws
  import opened Translation
  import opened Migration

  /** What the accessors take from other crates: the address decoder and the root hash of the
      shielded-pool state. */
  datatype Host = Host(nightAddress: Bytes -> Option<Path>, zswapRoot: Bytes -> Bytes)

  /** `is_ledger_8_state_key`: looks at the tag alone. */
  predicate IsLedger8Key(key: StateKey)
  {
    key.tag == Some(KEY_TAG_8)
  }

  function Load9(arena: Arena, key: StateKey): Result<Ledger, ApiError>
  {
    match DecodeKey(key, KEY_TAG_9)
    case None => Err(Deserialization)
    case Some(h) => if h in arena && arena[h].Ledger9? then Ok(arena[h]) else Err(NoLedgerState)
  }

  /** The four reads a bridge client makes. */
  datatype Query =
    | BridgeReceiving(beneficiary: Bytes)
    | Unclaimed(beneficiary: Bytes)
    | BridgeMinAmount
    | ZswapRoot

  datatype Answer = Number(amount: u128) | Digest(bytes: Bytes)

  function Found(amount: Option<u128>): Result<Answer, ApiError>
  {
    match amount case None => Err(BeneficiaryNotFound) case Some(a) => Ok(Number(a))
  }

  /** A read through the ledger-8 bridge. */
  function Read8(host: Host, arena: Arena, key: StateKey, q: Query): Result<Answer, ApiError>
  {
    if (q.BridgeReceiving? || q.Unclaimed?) && host.nightAddress(q.beneficiary).None? then Err(BadAddress)
    else
      match Load8(arena, key)
      case Err(e) => Err(e)
      case Ok(ledger) =>
        match q
        case BridgeReceiving(b) =>
          Found(Amount(Lookup(ledger.state8.bridgeReceiving, host.nightAddress(b).value)))
        case Unclaimed(b) => Found(Lookup(ledger.state8.unclaimedBlockRewards, host.nightAddress(b).value))
        case BridgeMinAmount => Ok(Number(ledger.state8.parameters.bridgeMinAmount))
        case ZswapRoot => Ok(Digest(host.zswapRoot(ledger.state8.zswap)))
  }

  /** A read through the ledger-9 bridge. */
  function Read9(host: Host, arena: Arena, key: StateKey, q: Query): Result<Answer, ApiError>
  {
    if (q.BridgeReceiving? || q.Unclaimed?) && host.nightAddress(q.beneficiary).None? then Err(BadAddress)
    else
      match Load9(arena, key)
      case Err(e) => Err(e)
      case Ok(ledger) =>
        match q
        case BridgeReceiving(b) =>
          Found(MigratedAmount(Lookup(ledger.state9.bridgeReceiving, host.nightAddress(b).value)))
        case Unclaimed(b) => Found(Lookup(ledger.state9.unclaimedBlockRewards, host.nightAddress(b).value))
        case BridgeMinAmount => Ok(Number(ledger.state9.parameters.bridgeMinAmount))
        case ZswapRoot => Ok(Digest(host.zswapRoot(ledger.state9.zswap)))
  }

  /** The host function: `serve_pre_migration_v8_read!`, then the ledger-9 body. */
  function Read(host: Host, arena: Arena, key: StateKey, q: Query): Result<Answer, ApiError>
  {
    if IsLedger8Key(key) then Read8(host, arena, key, q) else Read9(host, arena, key, q)
  }

  // ----- What the reads observe -----

  function Load(arena: Arena, key: StateKey): Result<Ledger, ApiError>
  {
    if IsLedger8Key(key) then Load8(arena, key) else Load9(arena, key)
  }

  function BridgeAmountAt(ledger: Ledger, p: Path): Option<u128>
  {
    match ledger
    case Ledger8(s, _) =>
      var v := Lookup(s.bridgeReceiving, p);
      if v.Some? && v.value.Amount8? then Some(v.value.amount) else None
    case Ledger9(s, _) =>
      var v := Lookup(s.bridgeReceiving, p);
      if v.Some? && v.value.Amount9? then Some(v.value.amount) else None
  }

  function RewardAt(ledger: Ledger, p: Path): Option<u128>
  {
    match ledger
    case Ledger8(s, _) => Lookup(s.unclaimedBlockRewards, p)
    case Ledger9(s, _) => Lookup(s.unclaimedBlockRewards, p)
  }

  function MinAmount(ledger: Ledger): u128
  {
    match ledger
    case Ledger8(s, _) => s.parameters.bridgeMinAmount
    case Ledger9(s, _) => s.parameters.bridgeMinAmount
  }

  function Zswap(ledger: Ledger): Bytes
  {
    match ledger
    case Ledger8(s, _) => s.zswap
    case Ledger9(s, _) => s.zswap
  }

  /** Two ledgers, of either version, agree on the part of the state a query is about. */
  ghost predicate SamePart(a: Ledger, b: Ledger, q: Query)
  {
    match q
    case BridgeReceiving(_) => forall p :: BridgeAmountAt(a, p) == BridgeAmountAt(b, p)
    case Unclaimed(_) => forall p :: RewardAt(a, p) == RewardAt(b, p)
    case BridgeMinAmount => MinAmount(a) == MinAmount(b)
    case ZswapRoot => Zswap(a) == Zswap(b)
  }

  lemma SamePartReadsAlike(host: Host, arena: Arena, key: StateKey, arena': Arena, key': StateKey, q: Query)
    requires Load(arena, key).Ok? && Load(arena', key').Ok?
    requires SamePart(Load(arena, key).value, Load(arena', key').value, q)
    ensures Read(host, arena, key, q) == Read(host, arena', key', q)
  {
    var a, b := Load(arena, key).value, Load(arena', key').value;
    if (q.BridgeReceiving? || q.Unclaimed?) && host.nightAddress(q.beneficiary).Some? {
      var p := host.nightAddress(q.beneficiary).value;
      assert q.BridgeReceiving? ==> BridgeAmountAt(a, p) == BridgeAmountAt(b, p);
      assert q.Unclaimed? ==> RewardAt(a, p) == RewardAt(b, p);
    }
  }

  /** Each read looks at its own part of the state and at nothing else, whatever the version: two roots
      answer a query alike on every host if and only if they agree on that part. */
  lemma ReadsUseTheirOwnPart(arena: Arena, key: StateKey, arena': Arena, key': StateKey, q: Query)
    requires Load(arena, key).Ok? && Load(arena', key').Ok?
    ensures (forall host :: Read(host, arena, key, q) == Read(host, arena', key', q))
       <==> SamePart(Load(arena, key).value, Load(arena', key').value, q)
  {
    var a, b := Load(arena, key).value, Load(arena', key').value;
    if forall host :: Read(host, arena, key, q) == Read(host, arena', key', q) {
      forall p ensures q.BridgeReceiving? ==> BridgeAmountAt(a, p) == BridgeAmountAt(b, p)
               ensures q.Unclaimed? ==> RewardAt(a, p) == RewardAt(b, p) {
        var host := Host(_ => Some(p), root => root);
        assert Read(host, arena, key, q) == Read(host, arena', key', q);
      }
      var host := Host(_ => None, root => root);
      assert Read(host, arena, key, q) == Read(host, arena', key', q);
    }
    if SamePart(a, b, q) {
      forall host ensures Read(host, arena, key, q) == Read(host, arena', key', q) {
        SamePartReadsAlike(host, arena, key, arena', key', q);
      }
    }
  }

  /** What every read answers, spelled out: a bad address first, then a key that does not decode, then a
      missing ledger, then the amount at the decoded address, the bridge minimum or the shielded-pool
      root, in the state of the version the key names. */
  lemma ReadAnswers(host: Host, arena: Arena, key: StateKey, q: Query)
    ensures IsLedger8Key(key) <==> key.tag == Some("storage-key(ledger-state[v13])")
    ensures var address := if q.BridgeReceiving? || q.Unclaimed? then host.nightAddress(q.beneficiary) else Some([]);
            var v8, v9 := "storage-key(ledger-state[v13])", "storage-key(ledger-state[v18])";
            Read(host, arena, key, q)
            == if address == None then Err(BadAddress)
               else if key.body == None || (key.tag != Some(v8) && key.tag != Some(v9)) then Err(Deserialization)
               else if key.body.value !in arena || (key.tag == Some(v8) <==> arena[key.body.value].Ledger9?) then
                 Err(NoLedgerState)
               else AnswerIn(host, arena[key.body.value], address.value, q)
  {
  }

  function AnswerIn(host: Host, ledger: Ledger, address: Path, q: Query): Result<Answer, ApiError>
  {
    match q
    case BridgeReceiving(_) =>
      (match BridgeAmountAt(ledger, address) case None => Err(BeneficiaryNotFound) case Some(a) => Ok(Number(a)))
    case Unclaimed(_) =>
      (match RewardAt(ledger, address) case None => Err(BeneficiaryNotFound) case Some(a) => Ok(Number(a)))
    case BridgeMinAmount => Ok(Number(MinAmount(ledger)))
    case ZswapRoot => Ok(Digest(host.zswapRoot(Zswap(ledger))))
  }

  /** The migration is invisible: for every v8 root, every query gives the same answer, or the same
      error, through the old key before the migration and through the new key after it. */
  lemma MigrationIsInvisible(host: Host, env: Env, arena: Arena, key: StateKey, h: Hash, q: Query)
    requires Lawful(env.target.ann)
    requires NeedsMigration(arena, key)
    ensures Read(host, arena, key, q)
            == Read(host, arena[h := Target9(env, StateAt(arena, key))],
                    StateKey(Some("storage-key(ledger-state[v18])"), Some(h)), q)
  {
    hide Read;
    var after := arena[h := Target9(env, StateAt(arena, key))];
    KeyTagsDiffer();
    MigratedPartsAgree(env, arena[key.body.value], q);
    ReadsUseTheirOwnPart(arena, key, after, StateKey(Some(KEY_TAG_9), Some(h)), q);
  }

  lemma MigratedPartsAgree(env: Env, ledger: Ledger, q: Query)
    requires Lawful(env.target.ann) && ledger.Ledger8?
    ensures SamePart(ledger, Target9(env, ledger.state8), q)
  {
    BridgeIsKept(ledger.state8.bridgeReceiving, env.target);
  }

  lemma KeyTagsDiffer()
    ensures KEY_TAG_8 != KEY_TAG_9
  {
  }

  /** Nor does it disturb any other root: a read through any key that worked before gives the same
      answer after. */
  lemma OtherReadsAreUndisturbed(host: Host, arena: Arena, arena': Arena, key: StateKey, q: Query)
    requires Extends(arena', arena)
    requires Read(host, arena, key, q).Ok?
    ensures Read(host, arena', key, q) == Read(host, arena, key, q)
  {
  }

  /** Every key the migration hands out is a v9 key, so migrating it again is the no-op of the
      idempotency guard and it is never served through the ledger-8 bridge. */
  lemma MigratedKeyIsNotLedger8(h: Hash)
    ensures DecodeKey(StateKey(Some(KEY_TAG_9), Some(h)), KEY_TAG_9) == Some(h)
    ensures !IsLedger8Key(StateKey(Some(KEY_TAG_9), Some(h)))
  {
  }

  /** Migrating twice: every read through the new key answers as the old key did, no other read that
      worked is disturbed, and the second call returns the new key again, at no cost, and changes
      nothing. */
  method MigrateTwice(host: Host, storage: Storage, key: StateKey, env: Env, runs: Runs, runs': Runs)
    returns (first: Result<(StateKey, int), ApiError>, second: Result<(StateKey, int), ApiError>)
    requires storage.Valid() && Lawful(env.target.ann)
    requires NeedsMigration(storage.arena, key)
    requires var s := StateAt(storage.arena, key);
             SchedulerFor(env, s, runs) && storage.CollidesWithNone(Target9(env, s))
    modifies storage`arena
    ensures storage.Valid()
    ensures forall k, q :: Read(host, old(storage.arena), k, q).Ok? ==>
              Read(host, storage.arena, k, q) == Read(host, old(storage.arena), k, q)
    ensures first.Ok? ==>
              var ledger := Ledger9(TranslateLedger(StateAt(old(storage.arena), key), env.target), 0);
              && second == Ok((first.value.0, 0))
              && !IsLedger8Key(first.value.0)
              && storage.arena == old(storage.arena)[storage.address(ledger) := ledger]
              && forall q :: Read(host, storage.arena, first.value.0, q) == Read(host, old(storage.arena), key, q)
  {
    hide Read, Lawful, SameLedger, TranslateLedger;
    ghost var before := storage.arena;
    first := Migrate(storage, key, env, runs);
    second := first;
    if first.Ok? {
      var h := first.value.0.body.value;
      MigratedKeyIsNotLedger8(h);
      second := Migrate(storage, first.value.0, env, runs');
      forall q ensures Read(host, storage.arena, first.value.0, q) == Read(host, before, key, q) {
        MigrationIsInvisible(host, env, before, key, h, q);
      }
    }
    forall k, q | Read(host, before, k, q).Ok?
      ensures Read(host, storage.arena, k, q) == Read(host, before, k, q)
    {
      OtherReadsAreUndisturbed(host, before, storage.arena, k, q);
    }
  }
}
