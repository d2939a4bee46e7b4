/** What a whole ledger state keeps when it is translated. */
module LedgerLaws {
  import opened Common
  import opened Trie
  import opened TrieLaws
  import opened LedgerTypes
  import CS = ContractState

  function Amount(v: Option<Value8>): Option<u128>
  {
    if v.Some? && v.value.Amount8? then Some(v.value.amount) else None
  }

  function MigratedAmount(v: Option<Value9>): Option<u128>
  {
    if v.Some? && v.value.Amount9? then Some(v.value.amount) else None
  }

  /** Everything a client can observe of a state, before and after. */
  ghost predicate SameLedger(s: State8, t: State9, target: Target)
  {
    && SameScalars(s, t)
    && SameBridge(s.bridgeReceiving, t.bridgeReceiving, target)
    && SameContracts(s.contract, t.contract, target)
    && SameParameters(s.parameters, t.parameters, target.initial)
  }

  ghost predicate SameScalars(s: State8, t: State9)
  {
    && s.networkId == t.networkId
    && s.lockedPool == t.lockedPool && s.reservePool == t.reservePool && s.blockRewardPool == t.blockRewardPool
    && s.unclaimedBlockRewards == t.unclaimedBlockRewards && s.treasury == t.treasury
    && s.zswap == t.zswap && s.utxo == t.utxo && s.replayProtection == t.replayProtection && s.dust == t.dust
  }

  /** The same trie, node for node, with fresh annotations: the fold of the values below each node. */
  ghost predicate SameTrie(a: Node8, b: Node9, target: Target)
  {
    SameShape(a, b, (v: Value8) => TranslateValue(v)) && WellAnnotated(b, target.ann)
  }

  /** Every beneficiary keeps its amount, no beneficiary appears, and every node of the new trie is
      annotated with the fold of the amounts below it. */
  ghost predicate SameBridge(a: Node8, b: Node9, target: Target)
  {
    && (forall p :: MigratedAmount(Lookup(b, p)) == Amount(Lookup(a, p)))
    && (forall p :: Lookup(b, p).Some? <==> Lookup(a, p).Some?)
    && SameTrie(a, b, target)
    && AnnOf(b, target.ann) == Total(target.ann, MapEntries(Entries(a), (v: Value8) => TranslateValue(v)))
  }

  /** Every address holds the image of the contract it held, and no address appears. */
  ghost predicate SameContracts(a: Node8, b: Node9, target: Target)
  {
    && (forall p :: Lookup(b, p).Some? <==> Lookup(a, p).Some?)
    && (forall p :: Lookup(a, p).Some? ==> SameValue(Lookup(a, p).value, Lookup(b, p).value))
    && SameTrie(a, b, target)
  }

  ghost predicate SameValue(a: Value8, b: Value9)
  {
    match a
    case ContractValue8(c) => b.ContractValue9? && CS.SameContract(c, b.contract)
    case Amount8(amount) => b == Amount9(amount)
  }

  /** The parameters that exist in both versions agree; the new ones are the initial ones. */
  ghost predicate SameParameters(p: Parameters8, q: Parameters9, initial: Parameters9)
  {
    && q.costModel == initial.costModel.(
         runtimeCostModel := p.costModel.runtimeCostModel, baselineCost := p.costModel.baselineCost)
    && q.limits == Limits9(
         p.limits.transactionByteLimit, p.limits.timeToDismissPerByte, p.limits.minTimeToDismiss,
         p.limits.blockLimits, p.limits.blockWithdrawalMinimumMultiple, initial.limits.maxContractMetadataSize)
    && q == initial.(
         costModel := q.costModel, limits := q.limits, dust := p.dust, feePrices := p.feePrices,
         globalTtl := p.globalTtl, costDimensionMinRatio := p.costDimensionMinRatio,
         priceAdjustmentA := p.priceAdjustmentA, bridgeFeeBasisPoints := p.bridgeFeeBasisPoints,
         bridgeMinAmount := p.bridgeMinAmount)
  }

  lemma BridgeIsKept(n: Node8, target: Target)
    requires Lawful(target.ann)
    ensures SameBridge(n, TranslateNode(n, target), target)
  {
    var f := (v: Value8) => TranslateValue(v);
    var t := Translate(n, f, target.ann);
    assert t == TranslateNode(n, target);
    forall p
      ensures MigratedAmount(Lookup(t, p)) == Amount(Lookup(n, p))
      ensures Lookup(t, p).Some? <==> Lookup(n, p).Some?
    {
      LookupTranslated(n, f, target.ann, p);
    }
    TranslateKeepsShape(n, f, target.ann);
    TranslatedIsWellAnnotated(n, f, target.ann);
    EntriesTranslated(n, f, target.ann);
    AnnOfIsTotal(t, target.ann);
  }

  lemma ValueIsKept(v: Value8)
    ensures SameValue(v, TranslateValue(v))
  {
    if v.ContractValue8? { CS.TranslateStateIsTheOnlyImage(v.contract, CS.TranslateState(v.contract)); }
  }

  lemma ContractsAreKept(n: Node8, target: Target)
    requires Lawful(target.ann)
    ensures SameContracts(n, TranslateNode(n, target), target)
  {
    var f := (v: Value8) => TranslateValue(v);
    var t := TranslateNode(n, target);
    forall p
      ensures Lookup(t, p).Some? <==> Lookup(n, p).Some?
      ensures Lookup(n, p).Some? ==> SameValue(Lookup(n, p).value, Lookup(t, p).value)
    {
      LookupTranslated(n, f, target.ann, p);
      if Lookup(n, p).Some? {
        ValueIsKept(Lookup(n, p).value);
        assert Lookup(t, p).value == TranslateValue(Lookup(n, p).value);
      }
    }
    TranslateKeepsShape(n, f, target.ann);
    TranslatedIsWellAnnotated(n, f, target.ann);
  }

  /** A state that shows all this of the old one is the translated one. */
  lemma LedgerIsTheOnlyImage(s: State8, t: State9, target: Target)
    requires Lawful(target.ann)
    ensures t == TranslateLedger(s, target) <==> SameLedger(s, t, target)
  {
    hide SameBridge, SameContracts;
    LedgerIsKept(s, target);
    if SameLedger(s, t, target) {
      SameTries(s, t, target);
      var f := (v: Value8) => TranslateValue(v);
      TranslateIsTheOnlyImage(s.bridgeReceiving, t.bridgeReceiving, f, target.ann);
      TranslateIsTheOnlyImage(s.contract, t.contract, f, target.ann);
    }
  }

  lemma SameTries(s: State8, t: State9, target: Target)
    requires SameLedger(s, t, target)
    ensures SameTrie(s.bridgeReceiving, t.bridgeReceiving, target) && SameTrie(s.contract, t.contract, target)
  {
  }

  /** The translated ledger state shows a client everything the old one did. */
  lemma LedgerIsKept(s: State8, target: Target)
    requires Lawful(target.ann)
    ensures SameLedger(s, TranslateLedger(s, target), target)
  {
    BridgeIsKept(s.bridgeReceiving, target);
    ContractsAreKept(s.contract, target);
  }

  /** Every entry point of every contract is found again after the migration, its operation reports
      slot `V3`, and that slot holds the key it had. */
  lemma MigratedOperationsReportTheirKey(s: State8, target: Target, address: Path, entry: CS.EntryPoint)
    requires Lawful(target.ann)
    requires Lookup(s.contract, address).Some? && Lookup(s.contract, address).value.ContractValue8?
    ensures var found := Lookup(TranslateLedger(s, target).contract, address);
            var c := Lookup(s.contract, address).value.contract;
            && found.Some? && found.value.ContractValue9?
            && (entry in found.value.contract.operations <==> entry in c.operations)
            && (entry in c.operations ==>
                  var op := found.value.contract.operations[entry];
                  && CS.VersionOf(op) == CS.V3
                  && CS.Slot(op, CS.V3) == MapOption(c.operations[entry].v2, (k: CS.Key6) => CS.OldKey(k)))
  {
    ContractsAreKept(s.contract, target);
    var found := Lookup(TranslateLedger(s, target).contract, address);
    assert SameValue(Lookup(s.contract, address).value, found.value);
    if entry in found.value.contract.operations {
      assert CS.SameOperation(Lookup(s.contract, address).value.contract.operations[entry],
                              found.value.contract.operations[entry]);
    }
  }
}
