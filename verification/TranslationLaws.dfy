/** One step of the translation is right: type safety of the children an object asks for, and
    `finalize` computing exactly the plain translation once all children are cached. */
module TranslationLaws {
  import opened Trie
  import opened LedgerTypes
  import opened TranslationTable
  import opened Translation
  import CS = ContractState

  // ----- Type safety -----

  /** Every child is sent, well typed, to the id of its own source type, and that id is among the
      ones the parent declared. */
  lemma ChildrenAreTyped(o: Object8, c: Child)
    requires Typed(o) && c in Children(o)
    ensures Typed(c.1)
    ensures c.0 == IdOf(TlOf(c.1))
    ensures c.0 in Required(TlOf(o))
  {
  }

  /** No translation declares more than it uses: for every declared id some well-typed object of the
      translation, built from any given state, contract and annotation, has a child sent to it. */
  lemma RequiredIsUsed(tl: Translator, id: TranslationId, s: State8, c: CS.State8, ann: SourceAnn)
    returns (o: Object8, k: nat)
    requires id in Required(tl) && TypedState(s)
    ensures Typed(o) && TlOf(o) == tl && k < |Children(o)| && Children(o)[k].0 == id
  {
    hide IdOf;
    match tl
    case LedgerTl =>
      o := LedgerObj8(s);
      k :| 0 <= k < 3 && Required(tl)[k] == id;
      assert Children(o)[k].0 == id;
    case MptTl(kind) =>
      o, k := TrieObj8(kind, Empty), 0;
    case NodeTl(kind) =>
      var v := if kind == Contract then ContractValue8(c) else Amount8(0);
      var n: Node8 := MidBranchLeaf(ann, v, Empty);
      o := NodeObj8(kind, n);
      k :| 0 <= k < 2 && Required(tl)[k] == id;
      assert HasKind(v, kind) && TypedNode(n.child, kind);
      assert Children(o)[k].0 == id;
  }

  /** A produced object has the target type its id promises, so the downcast of a cached child is
      always the right one. */
  lemma PlainHasTargetTag(target: Target, o: Object8)
    ensures Tag9(Plain(target, o)) == IdOf(TlOf(o)).target
  {
  }

  // ----- Finalising -----

  predicate Cached(env: Env, cache: Cache, c: Child)
  {
    CacheKey(env, c) in cache
  }

  predicate AllCached(env: Env, cache: Cache, cs: seq<Child>)
  {
    forall i :: 0 <= i < |cs| ==> Cached(env, cache, cs[i])
  }

  /** Whatever is cached for these children is their plain translation. */
  ghost predicate SoundFor(env: Env, cache: Cache, cs: seq<Child>)
  {
    forall i :: 0 <= i < |cs| && Cached(env, cache, cs[i]) ==>
      cache[CacheKey(env, cs[i])] == Plain(env.target, cs[i].1)
  }

  function TranslateNodes(ch: seq<Node8>, target: Target): (r: seq<Node9>)
    ensures |r| == |ch|
    ensures forall i :: 0 <= i < |ch| ==> r[i] == TranslateNode(ch[i], target)
  {
    seq(|ch|, i requires 0 <= i < |ch| => TranslateNode(ch[i], target))
  }

  lemma {:induction false} ResolveNodesFromSound(
    env: Env, cache: Cache, kind: Kind, ch: seq<Node8>, cs: seq<Child>)
    requires |cs| == |ch|
    requires forall i :: 0 <= i < |cs| ==> cs[i] == (IdOf(NodeTl(kind)), NodeObj8(kind, ch[i]))
    requires SoundFor(env, cache, cs)
    ensures ResolveNodes(env, cache, kind, cs)
         == if AllCached(env, cache, cs)
            then Got(TranslateNodes(ch, env.target))
            else Missing
  {
    hide TranslateNode, IdOf;
    if cs == [] {
      assert TranslateNodes(ch, env.target) == [];
    } else {
      var k := |cs| - 1;
      ResolveNodesFromSound(env, cache, kind, ch[..k], cs[..k]);
      assert AllCached(env, cache, cs) <==> AllCached(env, cache, cs[..k]) && Cached(env, cache, cs[k]);
      if AllCached(env, cache, cs) {
        assert TranslateNodes(ch, env.target)
            == TranslateNodes(ch[..k], env.target) + [TranslateNode(ch[k], env.target)];
      }
    }
  }

  lemma FinalizeBranch(env: Env, cache: Cache, kind: Kind, n: Node8)
    requires n.Branch? && TypedNode(n, kind)
    requires SoundFor(env, cache, NodeChildren(kind, n))
    ensures FinalizeNode(env, cache, kind, n)
         == if AllCached(env, cache, NodeChildren(kind, n))
            then Done(NodeObj9(kind, TranslateNode(n, env.target)))
            else NotReady
  {
    ResolveNodesFromSound(env, cache, kind, n.children, NodeChildren(kind, n));
    var f := (v: Value8) => TranslateValue(v);
    var kids := TranslateNodes(n.children, env.target);
    assert Translate(n, f, env.target.ann).children == kids;
    assert Padded(kids) == kids;
  }

  lemma ResolveValueFromSound(env: Env, cache: Cache, kind: Kind, v: Value8)
    requires HasKind(v, kind)
    requires SoundFor(env, cache, [(IdOf(EntryTl(kind)), ValueObj8(v))])
    ensures ResolveValue(env, cache, kind, (IdOf(EntryTl(kind)), ValueObj8(v)))
         == if Cached(env, cache, (IdOf(EntryTl(kind)), ValueObj8(v))) then Got(TranslateValue(v)) else Missing
  {
    var cs := [(IdOf(EntryTl(kind)), ValueObj8(v))];
    assert Cached(env, cache, cs[0]) ==> cache[CacheKey(env, cs[0])] == Plain(env.target, cs[0].1);
  }

  lemma ResolveNodeFromSound(env: Env, cache: Cache, kind: Kind, n: Node8)
    requires SoundFor(env, cache, [(IdOf(NodeTl(kind)), NodeObj8(kind, n))])
    ensures ResolveNode(env, cache, kind, (IdOf(NodeTl(kind)), NodeObj8(kind, n)))
         == if Cached(env, cache, (IdOf(NodeTl(kind)), NodeObj8(kind, n)))
            then Got(TranslateNode(n, env.target)) else Missing
  {
    var cs := [(IdOf(NodeTl(kind)), NodeObj8(kind, n))];
    assert Cached(env, cache, cs[0]) ==> cache[CacheKey(env, cs[0])] == Plain(env.target, cs[0].1);
  }

  /** Finalising a trie node: the plain translation once all its children are cached. */
  lemma FinalizeNodeIsPlain(env: Env, cache: Cache, kind: Kind, n: Node8)
    requires TypedNode(n, kind)
    requires SoundFor(env, cache, NodeChildren(kind, n))
    ensures FinalizeNode(env, cache, kind, n)
         == if AllCached(env, cache, NodeChildren(kind, n))
            then Done(NodeObj9(kind, TranslateNode(n, env.target)))
            else NotReady
  {
    var cs := NodeChildren(kind, n);
    match n
    case Empty =>
    case Branch(_, _) => FinalizeBranch(env, cache, kind, n);
    case Extension(_, _, child) =>
      assert cs[0] == [cs[0]][0];
      ResolveNodeFromSound(env, cache, kind, child);
      assert AllCached(env, cache, cs) <==> Cached(env, cache, cs[0]);
    case MidBranchLeaf(_, v, child) =>
      assert SoundFor(env, cache, [cs[0]]) && SoundFor(env, cache, [cs[1]]);
      ResolveValueFromSound(env, cache, kind, v);
      ResolveNodeFromSound(env, cache, kind, child);
      assert AllCached(env, cache, cs) <==> Cached(env, cache, cs[0]) && Cached(env, cache, cs[1]);
    case Leaf(_, v) =>
      ResolveValueFromSound(env, cache, kind, v);
      assert AllCached(env, cache, cs) <==> Cached(env, cache, cs[0]);
  }

  lemma FinalizeLedgerIsPlain(env: Env, cache: Cache, s: State8)
    requires SoundFor(env, cache, Children(LedgerObj8(s)))
    ensures FinalizeLedger(env, cache, s)
         == if !AllCached(env, cache, Children(LedgerObj8(s))) then NotReady
            else if !RecastsAgree(env.tags, LedgerTl) then TagMismatch
            else Done(Plain(env.target, LedgerObj8(s)))
  {
  }

  /** The outcome of finalising any well typed object through the id it was sent to: it waits
      exactly while a child is missing, fails exactly when one of its recasts compares unequal
      tags, never downcasts wrongly, and otherwise yields the plain translation. */
  lemma FinalizeIsPlain(env: Env, cache: Cache, o: Object8)
    requires Typed(o)
    requires SoundFor(env, cache, Children(o))
    ensures Finalize(env, cache, TlOf(o), o)
         == if !AllCached(env, cache, Children(o)) then NotReady
            else if !RecastsAgree(env.tags, TlOf(o)) then TagMismatch
            else Done(Plain(env.target, o))
  {
    match o
    case LedgerObj8(s) => FinalizeLedgerIsPlain(env, cache, s);
    case TrieObj8(kind, root) =>
      assert Children(o) == [(IdOf(NodeTl(kind)), NodeObj8(kind, root))];
      ResolveNodeFromSound(env, cache, kind, root);
      assert AllCached(env, cache, Children(o)) <==> Cached(env, cache, Children(o)[0]);
    case NodeObj8(kind, n) => FinalizeNodeIsPlain(env, cache, kind, n);
    case ParametersObj8(_) =>
    case ContractObj8(_) =>
    case AmountObj8(_) =>
  }

  // ----- Finalising over any cache -----

  /** Everything an object asks for is cached, and of the type its id promises. */
  predicate AllOfTheirType(env: Env, cache: Cache, cs: seq<Child>)
  {
    forall i :: 0 <= i < |cs| ==> Cached(env, cache, cs[i]) && Tag9(cache[CacheKey(env, cs[i])]) == cs[i].0.target
  }

  lemma {:induction false} ResolvedNodesHaveTheirType(env: Env, cache: Cache, kind: Kind, cs: seq<Child>)
    requires forall i :: 0 <= i < |cs| ==> cs[i].0 == IdOf(NodeTl(kind))
    ensures match ResolveNodes(env, cache, kind, cs)
            case Got(_) => AllOfTheirType(env, cache, cs)
            case Missing => !AllCached(env, cache, cs)
            case WrongType => true
  {
    hide TargetTag, SourceTag;
    if cs != [] {
      var k := |cs| - 1;
      ResolvedNodesHaveTheirType(env, cache, kind, cs[..k]);
      assert cs == cs[..k] + [cs[k]];
    }
  }

  lemma FinalizedNodeHasTypedChildren(env: Env, cache: Cache, kind: Kind, n: Node8)
    ensures FinalizeNode(env, cache, kind, n).Done? ==> AllOfTheirType(env, cache, NodeChildren(kind, n))
    ensures FinalizeNode(env, cache, kind, n).NotReady? ==> !AllCached(env, cache, NodeChildren(kind, n))
  {
    hide TargetTag, SourceTag;
    if n.Branch? {
      ResolvedNodesHaveTheirType(env, cache, kind, NodeChildren(kind, n));
    }
  }

  /** Whatever a cache holds, even objects of wrong types: an object is finalised only from children that
      are all cached with the types their ids promise, it waits only for a child that is missing, and a
      translation applied to an object of another type panics. */
  lemma FinalizeOverAnyCache(env: Env, cache: Cache, tl: Translator, o: Object8)
    ensures tl != TlOf(o) ==> Finalize(env, cache, tl, o) == TypePanic
    ensures tl == TlOf(o) && Finalize(env, cache, tl, o).Done? ==> AllOfTheirType(env, cache, Children(o))
    ensures tl == TlOf(o) && Finalize(env, cache, tl, o).NotReady? ==> !AllCached(env, cache, Children(o))
  {
    hide TargetTag, SourceTag, FinalizeNode, NodeChildren;
    if o.NodeObj8? {
      FinalizedNodeHasTypedChildren(env, cache, o.kind, o.node);
    }
  }

  // ----- The loop that fills a branch -----

  /** The branch case as the source runs it: an array of 16 empty nodes, overwritten one child at
      a time, given up at the first child that is not cached. */
  method FillBranch(env: Env, cache: Cache, kind: Kind, n: Node8) returns (r: Outcome)
    requires n.Branch? && |n.children| <= FANOUT
    ensures r == FinalizeNode(env, cache, kind, n)
  {
    var cs := NodeChildren(kind, n);
    var kids: array<Node9> := new Node9[FANOUT](_ => Empty);
    for i := 0 to |cs|
      invariant ResolveNodes(env, cache, kind, cs[..i]).Got?
      invariant kids[..] == Padded(ResolveNodes(env, cache, kind, cs[..i]).value)
    {
      assert cs[..i + 1][..i] == cs[..i];
      var resolved := ResolveNode(env, cache, kind, cs[i]);
      if !resolved.Got? {
        ResolveNodesStop(env, cache, kind, cs, i + 1);
        return Failure(resolved);
      }
      kids[i] := resolved.value;
    }
    assert cs[..|cs|] == cs;
    return Done(NodeObj9(kind, Branch(FoldAnn(kids[..], kids.Length, env.target.ann), kids[..])));
  }

  lemma {:induction false} ResolveNodesStop(env: Env, cache: Cache, kind: Kind, cs: seq<Child>, k: nat)
    requires k <= |cs| && !ResolveNodes(env, cache, kind, cs[..k]).Got?
    ensures ResolveNodes(env, cache, kind, cs) == ResolveNodes(env, cache, kind, cs[..k])
    decreases |cs|
  {
    if k == |cs| {
      assert cs[..k] == cs;
    } else {
      assert cs[..|cs| - 1][..k] == cs[..k];
      ResolveNodesStop(env, cache, kind, cs[..|cs| - 1], k);
    }
  }
}
