/** The stored ledger states of version 8 and version 9, and their translation written as a
    plain recursion over values. */
module LedgerTypes {
  import opened Common
  import opened Trie
  import opened TranslationTable
  import CS = ContractState

  // The cached annotation of a v8 node and of a v9 node.  Their contents do not matter here.
  type SourceAnn(==, !new)
  type NightAnn(==, !new)

  datatype Value8 = ContractValue8(contract: CS.State8) | Amount8(amount: u128)
  datatype Value9 = ContractValue9(contract: CS.State9) | Amount9(amount: u128)

  type Node8 = Node<Value8, SourceAnn>
  type Node9 = Node<Value9, NightAnn>

  // ----- Parameters -----

  datatype CostModel8 = CostModel8(runtimeCostModel: Bytes, baselineCost: Bytes, parallelismFactor: int)
  datatype CostModel9 = CostModel9(
    runtimeCostModel: Bytes, baselineCost: Bytes,
    validationFactor: int, guaranteedFactor: int, fallibleFactor: int)

  datatype Limits8 = Limits8(
    transactionByteLimit: nat, timeToDismissPerByte: nat, minTimeToDismiss: nat,
    blockLimits: Bytes, blockWithdrawalMinimumMultiple: int)
  datatype Limits9 = Limits9(
    transactionByteLimit: nat, timeToDismissPerByte: nat, minTimeToDismiss: nat,
    blockLimits: Bytes, blockWithdrawalMinimumMultiple: int, maxContractMetadataSize: nat)

  datatype Parameters8 = Parameters8(
    costModel: CostModel8, limits: Limits8, dust: Bytes, feePrices: Bytes,
    globalTtl: int, costDimensionMinRatio: int, priceAdjustmentA: int,
    bridgeFeeBasisPoints: nat, bridgeMinAmount: u128)
  datatype Parameters9 = Parameters9(
    costModel: CostModel9, limits: Limits9, dust: Bytes, feePrices: Bytes,
    globalTtl: int, costDimensionMinRatio: int, priceAdjustmentA: int,
    bridgeFeeBasisPoints: nat, bridgeMinAmount: u128, minBlockPrice: int)

  // ----- Ledger states -----

  // A map that keeps its tag from v8 to v9 and is carried over unchanged.
  type StableMap = Node<u128, SourceAnn>

  datatype State8 = State8(
    networkId: string, parameters: Parameters8, lockedPool: u128, bridgeReceiving: Node8,
    reservePool: u128, blockRewardPool: u128, unclaimedBlockRewards: StableMap, treasury: StableMap,
    zswap: Bytes, contract: Node8, utxo: Bytes, replayProtection: Bytes, dust: Bytes)
  datatype State9 = State9(
    networkId: string, parameters: Parameters9, lockedPool: u128, bridgeReceiving: Node9,
    reservePool: u128, blockRewardPool: u128, unclaimedBlockRewards: StableMap, treasury: StableMap,
    zswap: Bytes, contract: Node9, utxo: Bytes, replayProtection: Bytes, dust: Bytes)

  /** What the translation takes from its surroundings: the v9 initial parameters and the v9
      annotation of a node. */
  datatype Target = Target(initial: Parameters9, ann: Annotation<Value9, NightAnn>)

  // ----- Plain translation -----

  function TranslateValue(v: Value8): Value9
  {
    match v
    case ContractValue8(c) => ContractValue9(CS.TranslateState(c))
    case Amount8(a) => Amount9(a)
  }

  function TranslateNode(n: Node8, target: Target): Node9
  {
    Translate(n, (v: Value8) => TranslateValue(v), target.ann)
  }

  function TranslateParameters(p: Parameters8, initial: Parameters9): Parameters9
  {
    Parameters9(
      CostModel9(p.costModel.runtimeCostModel, p.costModel.baselineCost,
                 initial.costModel.validationFactor, initial.costModel.guaranteedFactor,
                 initial.costModel.fallibleFactor),
      Limits9(p.limits.transactionByteLimit, p.limits.timeToDismissPerByte, p.limits.minTimeToDismiss,
              p.limits.blockLimits, p.limits.blockWithdrawalMinimumMultiple,
              initial.limits.maxContractMetadataSize),
      p.dust, p.feePrices, p.globalTtl, p.costDimensionMinRatio, p.priceAdjustmentA,
      p.bridgeFeeBasisPoints, p.bridgeMinAmount, initial.minBlockPrice)
  }

  function TranslateLedger(s: State8, target: Target): State9
  {
    State9(s.networkId, TranslateParameters(s.parameters, target.initial), s.lockedPool,
           TranslateNode(s.bridgeReceiving, target), s.reservePool, s.blockRewardPool,
           s.unclaimedBlockRewards, s.treasury, s.zswap, TranslateNode(s.contract, target),
           s.utxo, s.replayProtection, s.dust)
  }

  // ----- Typing: which values a trie of each kind holds -----

  predicate HasKind(v: Value8, kind: Kind)
  {
    v.ContractValue8? <==> kind == Contract
  }

  /** The Rust type of a trie node: the right entry type everywhere and full branches. */
  predicate TypedNode(n: Node8, kind: Kind)
  {
    match n
    case Empty => true
    case Branch(_, ch) => |ch| == 16 && forall i :: 0 <= i < |ch| ==> TypedNode(ch[i], kind)
    case Extension(_, _, child) => TypedNode(child, kind)
    case MidBranchLeaf(_, v, child) => HasKind(v, kind) && TypedNode(child, kind)
    case Leaf(_, v) => HasKind(v, kind)
  }

  predicate TypedState(s: State8)
  {
    TypedNode(s.bridgeReceiving, Bridge) && TypedNode(s.contract, Contract)
  }
}
