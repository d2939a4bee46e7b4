/** The v8 -> v9 translation table: type tags, translation ids, the translations they name and
    the ids each translation requires. */
module TranslationTable {
  import opened Common

  /** The two tries whose nodes are rewritten: `contract` and `bridge_receiving`. */
  datatype Kind = Contract | Bridge

  // ----- Type tags and translation ids -----

  datatype TranslationId = TranslationId(source: string, target: string)

  datatype Translator = LedgerTl | ParametersTl | ContractTl | MptTl(kind: Kind) | NodeTl(kind: Kind) | IdentityTl

  function EntryTag8(kind: Kind): string
  {
    match kind case Contract => "contract-state[v6]" case Bridge => "u128"
  }

  function EntryTag9(kind: Kind): string
  {
    match kind case Contract => "contract-state[v8]" case Bridge => "u128"
  }

  function AnnTag8(kind: Kind): string
  {
    match kind case Contract => "night-annotation" case Bridge => "size-annotation"
  }

  const ANN_TAG_9 := "night-annotation"

  function MptTag(entry: string, ann: string): string { "mpt(" + entry + "," + ann + ")" }

  function NodeTag(entry: string, ann: string): string { "mpt-node(" + entry + "," + ann + ")" }

  /** The tag of the type a translation reads. */
  function SourceTag(tl: Translator): string
  {
    match tl
    case LedgerTl => "ledger-state[v13]"
    case ParametersTl => "ledger-parameters[v5]"
    case ContractTl => EntryTag8(Contract)
    case MptTl(kind) => MptTag(EntryTag8(kind), AnnTag8(kind))
    case NodeTl(kind) => NodeTag(EntryTag8(kind), AnnTag8(kind))
    case IdentityTl => EntryTag8(Bridge)
  }

  /** The tag of the type a translation produces. */
  function TargetTag(tl: Translator): string
  {
    match tl
    case LedgerTl => "ledger-state[v18]"
    case ParametersTl => "ledger-parameters[v8]"
    case ContractTl => EntryTag9(Contract)
    case MptTl(kind) => MptTag(EntryTag9(kind), ANN_TAG_9)
    case NodeTl(kind) => NodeTag(EntryTag9(kind), ANN_TAG_9)
    case IdentityTl => EntryTag9(Bridge)
  }

  /** The id a translation builds from its types. */
  function IdOf(tl: Translator): TranslationId
  {
    TranslationId(SourceTag(tl), TargetTag(tl))
  }

  const CONTRACT_MPT_8 := "mpt(contract-state[v6],night-annotation)"
  const CONTRACT_MPT_9 := "mpt(contract-state[v8],night-annotation)"
  const CONTRACT_NODE_8 := "mpt-node(contract-state[v6],night-annotation)"
  const CONTRACT_NODE_9 := "mpt-node(contract-state[v8],night-annotation)"
  const BRIDGE_MPT_8 := "mpt(u128,size-annotation)"
  const BRIDGE_MPT_9 := "mpt(u128,night-annotation)"
  const BRIDGE_NODE_8 := "mpt-node(u128,size-annotation)"
  const BRIDGE_NODE_9 := "mpt-node(u128,night-annotation)"

  /** The table, with its ids as string literals. */
  const TABLE: seq<(TranslationId, Translator)> := [
    (TranslationId("ledger-state[v13]", "ledger-state[v18]"), LedgerTl),
    (TranslationId("ledger-parameters[v5]", "ledger-parameters[v8]"), ParametersTl),
    (TranslationId("contract-state[v6]", "contract-state[v8]"), ContractTl),
    (TranslationId(CONTRACT_MPT_8, CONTRACT_MPT_9), MptTl(Contract)),
    (TranslationId(CONTRACT_NODE_8, CONTRACT_NODE_9), NodeTl(Contract)),
    (TranslationId("u128", "u128"), IdentityTl),
    (TranslationId(BRIDGE_MPT_8, BRIDGE_MPT_9), MptTl(Bridge)),
    (TranslationId(BRIDGE_NODE_8, BRIDGE_NODE_9), NodeTl(Bridge))
  ]

  function Search(table: seq<(TranslationId, Translator)>, id: TranslationId): Option<Translator>
  {
    if table == [] then None
    else if table[0].0 == id then Some(table[0].1)
    else Search(table[1..], id)
  }

  /** The translation registered under an id. */
  function Dispatch(id: TranslationId): Option<Translator>
  {
    Search(TABLE, id)
  }

  // ----- What a translation asks for -----

  function EntryTl(kind: Kind): Translator
  {
    match kind case Contract => ContractTl case Bridge => IdentityTl
  }

  /** `required_translations` */
  function Required(tl: Translator): seq<TranslationId>
  {
    match tl
    case LedgerTl => [IdOf(ParametersTl), IdOf(MptTl(Bridge)), IdOf(MptTl(Contract))]
    case MptTl(kind) => [IdOf(NodeTl(kind))]
    case NodeTl(kind) => [IdOf(EntryTl(kind)), IdOf(NodeTl(kind))]
    case ParametersTl => []
    case ContractTl => []
    case IdentityTl => []
  }

  // ----- The table -----

  /** A table whose entry `i` carries `id`, with no earlier entry of that id, dispatches `id`
      to that entry. */
  lemma {:induction false} SearchFinds(table: seq<(TranslationId, Translator)>, id: TranslationId, i: nat)
    requires i < |table| && table[i].0 == id
    requires forall j :: 0 <= j < i ==> table[j].0 != id
    ensures Search(table, id) == Some(table[i].1)
  {
    if i > 0 { SearchFinds(table[1..], id, i - 1); }
  }

  // Each literal is the concatenation its type's tag is built by.  Spelled out one literal at a
  // time because comparing long literals character by character is what costs here.

  lemma ContractMptTag8()
    ensures MptTag("contract-state[v6]", "night-annotation") == CONTRACT_MPT_8
  {
    assert "mpt(" + "contract-state[v6]" == "mpt(contract-state[v6]";
    assert "mpt(contract-state[v6]" + "," == "mpt(contract-state[v6],";
    assert "mpt(contract-state[v6]," + "night-annotation" == "mpt(contract-state[v6],night-annotation";
  }

  lemma ContractMptTag9()
    ensures MptTag("contract-state[v8]", "night-annotation") == CONTRACT_MPT_9
  {
    assert "mpt(" + "contract-state[v8]" == "mpt(contract-state[v8]";
    assert "mpt(contract-state[v8]" + "," == "mpt(contract-state[v8],";
    assert "mpt(contract-state[v8]," + "night-annotation" == "mpt(contract-state[v8],night-annotation";
  }

  lemma ContractNodeTag8()
    ensures NodeTag("contract-state[v6]", "night-annotation") == CONTRACT_NODE_8
  {
    assert "mpt-node(" + "contract-state[v6]" == "mpt-node(contract-state[v6]";
    assert "mpt-node(contract-state[v6]" + "," == "mpt-node(contract-state[v6],";
    assert "mpt-node(contract-state[v6]," + "night-annotation" == "mpt-node(contract-state[v6],night-annotation";
  }

  lemma ContractNodeTag9()
    ensures NodeTag("contract-state[v8]", "night-annotation") == CONTRACT_NODE_9
  {
    assert "mpt-node(" + "contract-state[v8]" == "mpt-node(contract-state[v8]";
    assert "mpt-node(contract-state[v8]" + "," == "mpt-node(contract-state[v8],";
    assert "mpt-node(contract-state[v8]," + "night-annotation" == "mpt-node(contract-state[v8],night-annotation";
  }

  lemma BridgeMptTag8()
    ensures MptTag("u128", "size-annotation") == BRIDGE_MPT_8
  {
    assert "mpt(" + "u128" == "mpt(u128";
    assert "mpt(u128" + "," == "mpt(u128,";
    assert "mpt(u128," + "size-annotation" == "mpt(u128,size-annotation";
  }

  lemma BridgeMptTag9()
    ensures MptTag("u128", "night-annotation") == BRIDGE_MPT_9
  {
    assert "mpt(" + "u128" == "mpt(u128";
    assert "mpt(u128" + "," == "mpt(u128,";
    assert "mpt(u128," + "night-annotation" == "mpt(u128,night-annotation";
  }

  lemma BridgeNodeTag8()
    ensures NodeTag("u128", "size-annotation") == BRIDGE_NODE_8
  {
    assert "mpt-node(" + "u128" == "mpt-node(u128";
    assert "mpt-node(u128" + "," == "mpt-node(u128,";
    assert "mpt-node(u128," + "size-annotation" == "mpt-node(u128,size-annotation";
  }

  lemma BridgeNodeTag9()
    ensures NodeTag("u128", "night-annotation") == BRIDGE_NODE_9
  {
    assert "mpt-node(" + "u128" == "mpt-node(u128";
    assert "mpt-node(u128" + "," == "mpt-node(u128,";
    assert "mpt-node(u128," + "night-annotation" == "mpt-node(u128,night-annotation";
  }

  lemma TagLiterals()
    ensures SourceTag(MptTl(Contract)) == CONTRACT_MPT_8 && TargetTag(MptTl(Contract)) == CONTRACT_MPT_9
    ensures SourceTag(NodeTl(Contract)) == CONTRACT_NODE_8 && TargetTag(NodeTl(Contract)) == CONTRACT_NODE_9
    ensures SourceTag(MptTl(Bridge)) == BRIDGE_MPT_8 && TargetTag(MptTl(Bridge)) == BRIDGE_MPT_9
    ensures SourceTag(NodeTl(Bridge)) == BRIDGE_NODE_8 && TargetTag(NodeTl(Bridge)) == BRIDGE_NODE_9
  {
    ContractMptTag8();
    ContractMptTag9();
    ContractNodeTag8();
    ContractNodeTag9();
    BridgeMptTag8();
    BridgeMptTag9();
    BridgeNodeTag8();
    BridgeNodeTag9();
  }

  /** The literal ids of the table are the ids its translations build from their types. */
  lemma TableTagsMatchTypes(i: nat)
    requires i < |TABLE|
    ensures TABLE[i].0 == IdOf(TABLE[i].1)
  {
    TagLiterals();
  }

  function TableIndex(tl: Translator): (i: nat)
    ensures i < |TABLE| && TABLE[i].1 == tl
  {
    match tl
    case LedgerTl => 0
    case ParametersTl => 1
    case ContractTl => 2
    case MptTl(Contract) => 3
    case NodeTl(Contract) => 4
    case IdentityTl => 5
    case MptTl(Bridge) => 6
    case NodeTl(Bridge) => 7
  }

  lemma SourceTagsDiffer(a: Translator, b: Translator)
    requires a != b
    ensures SourceTag(a) != SourceTag(b)
  {
  }

  /** Looking up the id a translation builds from its types finds exactly that translation, so
      the table never dispatches an object to the wrong one. */
  lemma DispatchFindsTranslator(tl: Translator)
    ensures Dispatch(IdOf(tl)) == Some(tl)
  {
    var i := TableIndex(tl);
    TableTagsMatchTypes(i);
    forall j | 0 <= j < i ensures TABLE[j].0 != IdOf(tl) {
      TableTagsMatchTypes(j);
      SourceTagsDiffer(TABLE[j].1, tl);
    }
    SearchFinds(TABLE, IdOf(tl), i);
  }

  lemma {:induction false} SearchIsSound(table: seq<(TranslationId, Translator)>, id: TranslationId) returns (i: nat)
    requires Search(table, id).Some?
    ensures i < |table| && table[i] == (id, Search(table, id).value)
  {
    if table[0].0 == id {
      i := 0;
    } else {
      i := SearchIsSound(table[1..], id);
      i := i + 1;
    }
  }

  /** An id is dispatched to a translation exactly when it is the one that translation builds from its
      types; every other id is unknown. */
  lemma DispatchIff(id: TranslationId, tl: Translator)
    ensures Dispatch(id) == Some(tl) <==> id == IdOf(tl)
  {
    hide Search, IdOf;
    DispatchFindsTranslator(tl);
    if Dispatch(id) == Some(tl) {
      var i := SearchIsSound(TABLE, id);
      TableTagsMatchTypes(i);
    }
  }

  /** The table is closed: every id a registered translation requires is registered. */
  lemma TableIsClosed(tl: Translator, id: TranslationId)
    requires id in Required(tl)
    ensures Dispatch(id).Some? && IdOf(Dispatch(id).value) == id
  {
    DispatchFindsTranslator(ParametersTl);
    DispatchFindsTranslator(MptTl(Bridge));
    DispatchFindsTranslator(MptTl(Contract));
    DispatchFindsTranslator(NodeTl(Bridge));
    DispatchFindsTranslator(NodeTl(Contract));
    DispatchFindsTranslator(ContractTl);
    DispatchFindsTranslator(IdentityTl);
  }
}
