/** The translations of the v8 -> v9 table at work: which children each object asks for, and how
    it is finalised from a cache of translated children. */
module Translation {
  import opened Common
  import opened Trie
  import opened LedgerTypes
  import opened TranslationTable
  import CS = ContractState

  // ----- Stored objects -----

  /** A v8 object as the untyped machinery handles it; each constructor is one Rust type. */
  datatype Object8 =
    | LedgerObj8(state: State8)
    | ParametersObj8(parameters: Parameters8)
    | ContractObj8(contract: CS.State8)
    | TrieObj8(kind: Kind, root: Node8)
    | NodeObj8(kind: Kind, node: Node8)
    | AmountObj8(amount: u128)

  datatype Object9 =
    | LedgerObj9(state: State9)
    | ParametersObj9(parameters: Parameters9)
    | ContractObj9(contract: CS.State9)
    | TrieObj9(kind: Kind, root: Node9)
    | NodeObj9(kind: Kind, node: Node9)
    | AmountObj9(amount: u128)

  // The content address of an object.
  type Key(==, !new)

  // ----- Child translations -----

  function ValueObj8(v: Value8): Object8
  {
    match v case ContractValue8(c) => ContractObj8(c) case Amount8(a) => AmountObj8(a)
  }

  type Child = (TranslationId, Object8)

  /** `child_translations` of a trie node */
  function NodeChildren(kind: Kind, n: Node8): seq<Child>
  {
    match n
    case Empty => []
    case Branch(_, ch) => seq(|ch|, i requires 0 <= i < |ch| => (IdOf(NodeTl(kind)), NodeObj8(kind, ch[i])))
    case Extension(_, _, child) => [(IdOf(NodeTl(kind)), NodeObj8(kind, child))]
    case MidBranchLeaf(_, v, child) =>
      [(IdOf(EntryTl(kind)), ValueObj8(v)), (IdOf(NodeTl(kind)), NodeObj8(kind, child))]
    case Leaf(_, v) => [(IdOf(EntryTl(kind)), ValueObj8(v))]
  }

  /** `child_translations` */
  function Children(o: Object8): seq<Child>
  {
    match o
    case LedgerObj8(s) =>
      [(IdOf(ParametersTl), ParametersObj8(s.parameters)),
       (IdOf(MptTl(Bridge)), TrieObj8(Bridge, s.bridgeReceiving)),
       (IdOf(MptTl(Contract)), TrieObj8(Contract, s.contract))]
    case TrieObj8(kind, root) => [(IdOf(NodeTl(kind)), NodeObj8(kind, root))]
    case NodeObj8(kind, n) => NodeChildren(kind, n)
    case ParametersObj8(_) => []
    case ContractObj8(_) => []
    case AmountObj8(_) => []
  }

  // ----- Finalising -----

  /** The (v8 tag, v9 tag) pair each recast compares. */
  datatype RecastTags = RecastTags(
    unclaimedBlockRewards: (string, string), treasury: (string, string), zswap: (string, string),
    utxo: (string, string), replayProtection: (string, string), dust: (string, string),
    runtimeCostModel: (string, string), baselineCost: (string, string),
    dustParameters: (string, string), feePrices: (string, string),
    chargedState: (string, string), balance: (string, string))

  datatype Env = Env(target: Target, tags: RecastTags, key: Object8 -> Key)

  type Cache = map<(TranslationId, Key), Object9>

  /** What a call of `finalize` comes to.  `TypePanic` stands for a failed downcast. */
  datatype Outcome = Done(result: Object9) | NotReady | TagMismatch | TypePanic

  /** `recast` and `recast_base`: the same content under the other type, if the tags agree. */
  function Recast<T>(content: T, tags: (string, string)): Option<T>
  {
    if tags.0 != tags.1 then None else Some(content)
  }

  function CacheKey(env: Env, c: Child): (TranslationId, Key)
  {
    (c.0, env.key(c.1))
  }

  function LookupCache(env: Env, cache: Cache, c: Child): Option<Object9>
  {
    if CacheKey(env, c) in cache then Some(cache[CacheKey(env, c)]) else None
  }

  datatype Resolved<T> = Got(value: T) | Missing | WrongType

  function ResolveNode(env: Env, cache: Cache, kind: Kind, c: Child): Resolved<Node9>
  {
    match LookupCache(env, cache, c)
    case None => Missing
    case Some(o) => if o.NodeObj9? && o.kind == kind then Got(o.node) else WrongType
  }

  function ResolveValue(env: Env, cache: Cache, kind: Kind, c: Child): Resolved<Value9>
  {
    match LookupCache(env, cache, c)
    case None => Missing
    case Some(o) =>
      if kind == Contract && o.ContractObj9? then Got(ContractValue9(o.contract))
      else if kind == Bridge && o.AmountObj9? then Got(Amount9(o.amount))
      else WrongType
  }

  /** The children of a branch resolved one after the other, stopping at the first failure. */
  function ResolveNodes(env: Env, cache: Cache, kind: Kind, cs: seq<Child>): (r: Resolved<seq<Node9>>)
    ensures r.Got? ==> |r.value| == |cs|
  {
    if cs == [] then Got([])
    else
      match ResolveNodes(env, cache, kind, cs[..|cs| - 1])
      case Missing => Missing
      case WrongType => WrongType
      case Got(nodes) =>
        match ResolveNode(env, cache, kind, cs[|cs| - 1])
        case Missing => Missing
        case WrongType => WrongType
        case Got(n) => Got(nodes + [n])
  }

  /** The 16 children of the new branch: the resolved ones, and empty nodes after them. */
  function Padded(nodes: seq<Node9>): seq<Node9>
  {
    seq(FANOUT, i requires 0 <= i < FANOUT => if i < |nodes| then nodes[i] else Empty)
  }

  function Failure<T>(r: Resolved<T>): Outcome
  {
    if r.Missing? then NotReady else TypePanic
  }

  /** `finalize` of a trie node */
  function FinalizeNode(env: Env, cache: Cache, kind: Kind, n: Node8): Outcome
  {
    var cs := NodeChildren(kind, n);
    var m := env.target.ann;
    match n
    case Empty => Done(NodeObj9(kind, Empty))
    case Branch(_, _) =>
      (match ResolveNodes(env, cache, kind, cs)
       case Got(nodes) =>
         var kids := Padded(nodes);
         Done(NodeObj9(kind, Branch(FoldAnn(kids, |kids|, m), kids)))
       case failure => Failure(failure))
    case Extension(_, path, _) =>
      (match ResolveNode(env, cache, kind, cs[0])
       case Got(kid) => Done(NodeObj9(kind, Extension(AnnOf(kid, m), path, kid)))
       case failure => Failure(failure))
    case Leaf(_, _) =>
      (match ResolveValue(env, cache, kind, cs[0])
       case Got(v) => Done(NodeObj9(kind, Leaf(m.fromValue(v), v)))
       case failure => Failure(failure))
    case MidBranchLeaf(_, _, _) =>
      match ResolveValue(env, cache, kind, cs[0])
      case Got(v) =>
        (match ResolveNode(env, cache, kind, cs[1])
         case Got(kid) =>
           Done(NodeObj9(kind, MidBranchLeaf(m.append(m.fromValue(v), AnnOf(kid, m)), v, kid)))
         case failure => Failure(failure))
      case failure => Failure(failure)
  }

  /** `finalize` of the ledger state: three cached children, six recasts. */
  function FinalizeLedger(env: Env, cache: Cache, s: State8): Outcome
  {
    var cs := Children(LedgerObj8(s));
    var params := LookupCache(env, cache, cs[0]);
    var bridge := LookupCache(env, cache, cs[1]);
    var contract := LookupCache(env, cache, cs[2]);
    if params.None? || bridge.None? || contract.None? then NotReady
    else if !params.value.ParametersObj9? then TypePanic
    else if !(bridge.value.TrieObj9? && bridge.value.kind == Bridge) then TypePanic
    else
      var unclaimed := Recast(s.unclaimedBlockRewards, env.tags.unclaimedBlockRewards);
      var treasury := Recast(s.treasury, env.tags.treasury);
      var zswap := Recast(s.zswap, env.tags.zswap);
      if unclaimed.None? || treasury.None? || zswap.None? then TagMismatch
      else if !(contract.value.TrieObj9? && contract.value.kind == Contract) then TypePanic
      else
        var utxo := Recast(s.utxo, env.tags.utxo);
        var replay := Recast(s.replayProtection, env.tags.replayProtection);
        var dust := Recast(s.dust, env.tags.dust);
        if utxo.None? || replay.None? || dust.None? then TagMismatch
        else
          Done(LedgerObj9(State9(
            s.networkId, params.value.parameters, s.lockedPool, bridge.value.root,
            s.reservePool, s.blockRewardPool, unclaimed.value, treasury.value, zswap.value,
            contract.value.root, utxo.value, replay.value, dust.value)))
  }

  function FinalizeParameters(env: Env, p: Parameters8): Outcome
  {
    var runtime := Recast(p.costModel.runtimeCostModel, env.tags.runtimeCostModel);
    var baseline := Recast(p.costModel.baselineCost, env.tags.baselineCost);
    var dust := Recast(p.dust, env.tags.dustParameters);
    var fees := Recast(p.feePrices, env.tags.feePrices);
    if runtime.None? || baseline.None? || dust.None? || fees.None? then TagMismatch
    else
      var initial := env.target.initial;
      Done(ParametersObj9(Parameters9(
        CostModel9(runtime.value, baseline.value, initial.costModel.validationFactor,
                   initial.costModel.guaranteedFactor, initial.costModel.fallibleFactor),
        Limits9(p.limits.transactionByteLimit, p.limits.timeToDismissPerByte, p.limits.minTimeToDismiss,
                p.limits.blockLimits, p.limits.blockWithdrawalMinimumMultiple,
                initial.limits.maxContractMetadataSize),
        dust.value, fees.value, p.globalTtl, p.costDimensionMinRatio, p.priceAdjustmentA,
        p.bridgeFeeBasisPoints, p.bridgeMinAmount, initial.minBlockPrice)))
  }

  function FinalizeContract(env: Env, c: CS.State8): Outcome
  {
    var data := Recast(c.data, env.tags.chargedState);
    var balance := Recast(c.balance, env.tags.balance);
    if data.None? || balance.None? then TagMismatch
    else Done(ContractObj9(CS.TranslateState(c).(data := data.value, balance := balance.value)))
  }

  /** `finalize` of the translation `tl` applied to an untyped object. */
  function Finalize(env: Env, cache: Cache, tl: Translator, o: Object8): Outcome
  {
    match (tl, o)
    case (LedgerTl, LedgerObj8(s)) => FinalizeLedger(env, cache, s)
    case (ParametersTl, ParametersObj8(p)) => FinalizeParameters(env, p)
    case (ContractTl, ContractObj8(c)) => FinalizeContract(env, c)
    case (MptTl(kind), TrieObj8(kind', root)) =>
      if kind != kind' then TypePanic
      else
        (match ResolveNode(env, cache, kind, Children(o)[0])
         case Got(n) => Done(TrieObj9(kind, n))
         case failure => Failure(failure))
    case (NodeTl(kind), NodeObj8(kind', n)) =>
      if kind != kind' then TypePanic else FinalizeNode(env, cache, kind, n)
    case (IdentityTl, AmountObj8(a)) => Done(AmountObj9(a))
    case _ => TypePanic
  }

  // ----- Specification: the plain recursion -----

  function Plain(target: Target, o: Object8): Object9
  {
    match o
    case LedgerObj8(s) => LedgerObj9(TranslateLedger(s, target))
    case ParametersObj8(p) => ParametersObj9(TranslateParameters(p, target.initial))
    case ContractObj8(c) => ContractObj9(CS.TranslateState(c))
    case TrieObj8(kind, root) => TrieObj9(kind, TranslateNode(root, target))
    case NodeObj8(kind, n) => NodeObj9(kind, TranslateNode(n, target))
    case AmountObj8(a) => AmountObj9(a)
  }

  /** The translation whose source type an object has. */
  function TlOf(o: Object8): Translator
  {
    match o
    case LedgerObj8(_) => LedgerTl
    case ParametersObj8(_) => ParametersTl
    case ContractObj8(_) => ContractTl
    case TrieObj8(kind, _) => MptTl(kind)
    case NodeObj8(kind, _) => NodeTl(kind)
    case AmountObj8(_) => IdentityTl
  }

  /** The tag of the Rust type of a produced object. */
  function Tag9(o: Object9): string
  {
    match o
    case LedgerObj9(_) => TargetTag(LedgerTl)
    case ParametersObj9(_) => TargetTag(ParametersTl)
    case ContractObj9(_) => TargetTag(ContractTl)
    case TrieObj9(kind, _) => TargetTag(MptTl(kind))
    case NodeObj9(kind, _) => TargetTag(NodeTl(kind))
    case AmountObj9(_) => TargetTag(IdentityTl)
  }

  predicate Typed(o: Object8)
  {
    match o
    case LedgerObj8(s) => TypedState(s)
    case TrieObj8(kind, root) => TypedNode(root, kind)
    case NodeObj8(kind, n) => TypedNode(n, kind)
    case ParametersObj8(_) => true
    case ContractObj8(_) => true
    case AmountObj8(_) => true
  }

  /** Whether the recasts a translation performs all find equal tags. */
  predicate RecastsAgree(tags: RecastTags, tl: Translator)
  {
    match tl
    case LedgerTl =>
      && tags.unclaimedBlockRewards.0 == tags.unclaimedBlockRewards.1
      && tags.treasury.0 == tags.treasury.1 && tags.zswap.0 == tags.zswap.1
      && tags.utxo.0 == tags.utxo.1 && tags.replayProtection.0 == tags.replayProtection.1
      && tags.dust.0 == tags.dust.1
    case ParametersTl =>
      && tags.runtimeCostModel.0 == tags.runtimeCostModel.1 && tags.baselineCost.0 == tags.baselineCost.1
      && tags.dustParameters.0 == tags.dustParameters.1 && tags.feePrices.0 == tags.feePrices.1
    case ContractTl => tags.chargedState.0 == tags.chargedState.1 && tags.balance.0 == tags.balance.1
    case MptTl(_) => true
    case NodeTl(_) => true
    case IdentityTl => true
  }
}
