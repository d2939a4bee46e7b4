/** Contract states of ledger 8 and ledger 9, their translation, and the verifier-key
    slots of a ledger-9 contract operation. */
module ContractState {
  import opened Common

  type EntryPoint = Bytes

  // `verifier-key[v6]` and `verifier-key[v7]` are different types in the source.
  datatype Key6 = Key6(bytes: Bytes)
  datatype Key7 = Key7(bytes: Bytes)

  datatype Operation8 = Operation8(v2: Option<Key6>)
  datatype Operation9 = Operation9(v2: Option<Key6>, v3: Option<Key7>, ir: Option<Bytes>)

  datatype SchnorrKey = SchnorrKey(bytes: Bytes)
  datatype MaintenanceKey = Schnorr(key: SchnorrKey) | Ecdsa(bytes: Bytes)

  datatype Authority8 = Authority8(committee: seq<SchnorrKey>, threshold: nat, counter: nat)
  datatype Authority9 = Authority9(committee: seq<MaintenanceKey>, threshold: nat, counter: nat)

  // `data` and `balance` keep their tag and are carried over as stored objects.
  datatype State8 = State8(
    data: Bytes, operations: map<EntryPoint, Operation8>, authority: Authority8, balance: Bytes)
  datatype State9 = State9(
    data: Bytes, operations: map<EntryPoint, Operation9>, authority: Authority9, balance: Bytes)

  // ----- Translation -----

  /** `ContractOperation::new(vk, ir)`: the key it is given goes to `v3`. */
  function NewOperation(vk: Option<Key7>, ir: Option<Bytes>): Operation9
  {
    Operation9(None, vk, ir)
  }

  function TranslateOperation(op: Operation8): Operation9
  {
    NewOperation(None, None).(v2 := op.v2)
  }

  function TranslateAuthority(a: Authority8): Authority9
  {
    Authority9(MapSeq(a.committee, (k: SchnorrKey) => Schnorr(k)), a.threshold, a.counter)
  }

  function TranslateState(s: State8): State9
  {
    State9(s.data, map k | k in s.operations :: TranslateOperation(s.operations[k]),
           TranslateAuthority(s.authority), s.balance)
  }

  /** The rebuild loop.  `order` is the order in which the map iterator yields its keys; the
      result does not depend on it. */
  method RebuildState(s: State8, order: seq<EntryPoint>) returns (r: State9)
    requires (set k | k in order) == s.operations.Keys
    ensures r == TranslateState(s)
  {
    var operations: map<EntryPoint, Operation9> := map[];
    for i := 0 to |order|
      invariant operations.Keys == set k | k in order[..i]
      invariant forall k :: k in operations ==>
                  k in s.operations && operations[k] == TranslateOperation(s.operations[k])
    {
      assert order[i] in (set k | k in order);
      operations := operations[order[i] := TranslateOperation(s.operations[order[i]])];
      assert order[..i + 1] == order[..i] + [order[i]];
    }
    assert order[..|order|] == order;
    assert operations == TranslateState(s).operations;
    r := State9(s.data, operations, TranslateAuthority(s.authority), s.balance);
  }

  /** What a reader of the contract can observe is kept: the same entry points, each with its
      old key in the old-key slot and nothing else; the same committee in the same order, all
      Schnorr; the same threshold, counter, data and balance. */
  ghost predicate SameContract(a: State8, b: State9)
  {
    && a.data == b.data && a.balance == b.balance
    && a.operations.Keys == b.operations.Keys
    && (forall k :: k in a.operations ==> SameOperation(a.operations[k], b.operations[k]))
    && |a.authority.committee| == |b.authority.committee|
    && (forall i :: 0 <= i < |a.authority.committee| ==>
          b.authority.committee[i] == Schnorr(a.authority.committee[i]))
    && a.authority.threshold == b.authority.threshold
    && a.authority.counter == b.authority.counter
  }

  ghost predicate SameOperation(a: Operation8, b: Operation9)
  {
    b.v2 == a.v2 && b.v3 == None && b.ir == None
  }

  /** Translation yields exactly the ledger-9 state that keeps all observations. */
  lemma TranslateStateIsTheOnlyImage(a: State8, b: State9)
    ensures SameContract(a, b) <==> b == TranslateState(a)
  {
  }

  // ----- Verifier-key slots -----

  /** The slot names used by maintenance updates: `V3` is the field `v2`, `V4` the field `v3`. */
  datatype Version = V3 | V4

  datatype AnyKey = OldKey(k6: Key6) | NewKey(k7: Key7)

  function Slot(op: Operation9, v: Version): Option<AnyKey>
  {
    match v
    case V3 => MapOption(op.v2, (k: Key6) => OldKey(k))
    case V4 => MapOption(op.v3, (k: Key7) => NewKey(k))
  }

  function SlotVersion(k: AnyKey): Version
  {
    if k.OldKey? then V3 else V4
  }

  /** `contract_operation_version_of` */
  function VersionOf(op: Operation9): Version
  {
    if op.v3.Some? then V4 else V3
  }

  /** Removing the key of a slot; an empty slot is `VerifierKeyNotFound`. */
  function Remove(op: Operation9, v: Version): Option<Operation9>
  {
    if Slot(op, v) == None then None
    else match v
         case V3 => Some(op.(v2 := None))
         case V4 => Some(op.(v3 := None))
  }

  predicate HasKey(op: Operation9)
  {
    Slot(op, V3) != None || Slot(op, V4) != None
  }

  /** A removal aimed at the reported slot succeeds exactly when the operation has a key; it
      keeps the other slot and the zkir.  With keys in both slots the new one is reported. */
  lemma ReportedSlotIsPopulated(op: Operation9)
    ensures VersionOf(op) == V4 <==> op.v3.Some?
    ensures HasKey(op) <==> op.v2.Some? || op.v3.Some?
    ensures Slot(op, VersionOf(op)) != None <==> HasKey(op)
    ensures Remove(op, VersionOf(op)).Some? <==> HasKey(op)
    ensures Remove(op, VersionOf(op)).Some? ==>
              var op' := Remove(op, VersionOf(op)).value;
              op'.ir == op.ir
              && forall v :: Slot(op', v) == if v == VersionOf(op) then None else Slot(op, v)
  {
  }

  /** A removal aimed at any slot succeeds exactly if that slot holds a key, and takes only that key. */
  lemma RemovalTakesOneKey(op: Operation9, v: Version)
    ensures Remove(op, v).Some? <==> if v == V3 then op.v2.Some? else op.v3.Some?
    ensures Remove(op, v).Some? ==>
              Remove(op, v).value == if v == V3 then Operation9(None, op.v3, op.ir) else Operation9(op.v2, None, op.ir)
  {
  }

  function KeyCount(op: Operation9): nat
  {
    (if op.v2.Some? then 1 else 0) + (if op.v3.Some? then 1 else 0)
  }

  /** Removing at the reported slot again and again. */
  function Drain(op: Operation9): (r: seq<Operation9>)
    ensures |r| == KeyCount(op) + 1
    decreases KeyCount(op)
  {
    match Remove(op, VersionOf(op))
    case None => [op]
    case Some(op') => [op] + Drain(op')
  }

  /** Draining stops after one removal per key, at most two, with no key left. */
  lemma {:induction false} DrainEmpties(op: Operation9)
    ensures |Drain(op)| <= 3
    ensures !HasKey(Drain(op)[|Drain(op)| - 1])
    decreases KeyCount(op)
  {
    if HasKey(op) {
      DrainEmpties(Remove(op, VersionOf(op)).value);
    }
  }

  /** Every translated operation reports `V3`, and that slot holds its old key. */
  lemma TranslatedOperationSlot(op: Operation8)
    ensures VersionOf(TranslateOperation(op)) == V3
    ensures Slot(TranslateOperation(op), V3) == MapOption(op.v2, (k: Key6) => OldKey(k))
    ensures Drain(TranslateOperation(op))
         == if op.v2.None? then [TranslateOperation(op)]
            else [TranslateOperation(op), Operation9(None, None, None)]
  {
  }

  // ----- Building an operation from a key file -----

  /** A key file as the decoder sees it: the tag in its header, if it has one, and the key in
      its body, if the body is well formed. */
  datatype KeyFile = KeyFile(tag: Option<string>, body: Option<Bytes>)

  /** Reading a key file either works, is an I/O error, or panics on a tag it does not know. */
  datatype Outcome<+T> = Done(value: T) | IoError | UnknownTag(tag: string)

  const TAG_V6 := "verifier-key[v6]"
  const TAG_V7 := "verifier-key[v7]"

  /** `contract_operation_new` */
  method BuildOperation(vk: Option<KeyFile>, ir: Option<Bytes>) returns (r: Outcome<Operation9>)
    ensures vk.None? ==> r == Done(Operation9(None, None, ir))
    ensures vk.Some? ==>
              match VersionedKey(vk.value)
              case Done(key) =>
                r.Done? && r.value.ir == ir && Slot(r.value, SlotVersion(key)) == Some(key)
                && KeyCount(r.value) == 1
              case IoError => r == IoError
              case UnknownTag(t) => r == UnknownTag(t)
  {
    var op := NewOperation(None, ir);
    if vk.Some? {
      var file := vk.value;
      if file.tag.None? { return IoError; }
      if file.tag.value == TAG_V6 {
        if file.body.None? { return IoError; }
        op := op.(v2 := Some(Key6(file.body.value)));
      } else if file.tag.value == TAG_V7 {
        if file.body.None? { return IoError; }
        op := op.(v3 := Some(Key7(file.body.value)));
      } else {
        return UnknownTag(file.tag.value);
      }
    }
    return Done(op);
  }

  /** `contract_operation_versioned_verifier_key` */
  function VersionedKey(file: KeyFile): Outcome<AnyKey>
  {
    if file.tag.None? then IoError
    else if file.tag.value == TAG_V6 then
      if file.body.None? then IoError else Done(OldKey(Key6(file.body.value)))
    else if file.tag.value == TAG_V7 then
      if file.body.None? then IoError else Done(NewKey(Key7(file.body.value)))
    else UnknownTag(file.tag.value)
  }

  /** A key file is accepted exactly if it has one of the two known tags and a well-formed body, and the key
      is that body; an unknown tag is reported as such, and everything else is an I/O error. */
  lemma KeyFileAcceptedIff(file: KeyFile)
    ensures VersionedKey(file).Done? <==>
              file.body.Some? && (file.tag == Some("verifier-key[v6]") || file.tag == Some("verifier-key[v7]"))
    ensures file.tag == Some("verifier-key[v6]") && file.body.Some? ==>
              VersionedKey(file) == Done(OldKey(Key6(file.body.value)))
    ensures file.tag == Some("verifier-key[v7]") && file.body.Some? ==>
              VersionedKey(file) == Done(NewKey(Key7(file.body.value)))
    ensures VersionedKey(file).UnknownTag? <==>
              file.tag.Some? && file.tag != Some("verifier-key[v6]") && file.tag != Some("verifier-key[v7]")
    ensures VersionedKey(file).UnknownTag? ==> file.tag == Some(VersionedKey(file).tag)
  {
    assert TAG_V6[14] == '6' && TAG_V7[14] == '7';
  }

  /** The tag of a file decides its slot, and a file with an old tag builds the very operation that a
      migrated contract with the same key has. */
  lemma TagDecidesSlot(file: KeyFile, op: Operation9)
    requires VersionedKey(file).Done?
    ensures SlotVersion(VersionedKey(file).value) == V3 <==> file.tag == Some("verifier-key[v6]")
    ensures SlotVersion(VersionedKey(file).value) == V4 <==> file.tag == Some("verifier-key[v7]")
    ensures file.tag == Some("verifier-key[v6]") ==>
              (op == TranslateOperation(Operation8(Some(Key6(file.body.value))))
               <==> op.ir == None && KeyCount(op) == 1 && Slot(op, V3) == Some(VersionedKey(file).value))
  {
    assert TAG_V6[14] == '6' && TAG_V7[14] == '7';
  }

  /** An operation with a single key reports the slot a maintenance update with that key would
      use, so a removal after a deployment always finds it. */
  lemma OnlyKeyIsReported(op: Operation9, key: AnyKey)
    requires KeyCount(op) == 1 && Slot(op, SlotVersion(key)) == Some(key)
    ensures VersionOf(op) == SlotVersion(key)
    ensures Drain(op)[1..] == [Operation9(None, None, op.ir)]
  {
  }
}
