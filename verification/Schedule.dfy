/** The translation driven by an arbitrary scheduler.

    The scheduler may try to finalise any pair reachable from the root, in any order, as often as
    it likes; an attempt whose children are not all cached changes nothing.  The results hold for
    every such schedule over every content-addressed source, shared subtrees included: two equal
    subtrees have one key and so one cache entry. */
module Schedule {
  import opened Common
  import opened Trie
  import opened TrieLaws
  import opened LedgerTypes
  import opened TranslationTable
  import opened Translation
  import opened TranslationLaws

  // ----- The work below a pair -----

  function Level(o: Object8): nat
  {
    match o
    case LedgerObj8(_) => 3
    case TrieObj8(_, _) => 2
    case NodeObj8(_, _) => 1
    case ParametersObj8(_) => 0
    case ContractObj8(_) => 0
    case AmountObj8(_) => 0
  }

  function NodePart(o: Object8): Node8
  {
    if o.NodeObj8? then o.node else Empty
  }

  lemma ChildrenAreSmaller(o: Object8)
    ensures forall c :: c in Children(o) ==>
              Level(c.1) < Level(o) || (Level(c.1) == Level(o) && NodePart(c.1) < NodePart(o))
  {
  }

  /** Every pair reachable from `p` through child translations. */
  ghost function Work(p: Child): set<Child>
    decreases Level(p.1), NodePart(p.1)
  {
    ChildrenAreSmaller(p.1);
    {p} + set c, q | c in Children(p.1) && q in Work(c) :: q
  }

  /** The work is closed under child translations. */
  lemma {:induction false} WorkIsClosed(root: Child, p: Child, c: Child)
    requires p in Work(root) && c in Children(p.1)
    ensures c in Work(root)
    decreases Level(root.1), NodePart(root.1)
  {
    if p == root {
      assert c in Work(c);
    } else {
      var d :| d in Children(root.1) && p in Work(d);
      ChildrenAreSmaller(root.1);
      WorkIsClosed(d, p, c);
    }
  }

  /** A well typed starting pair, sent to the id of its own type. */
  predicate GoodRoot(root: Child)
  {
    Typed(root.1) && root.0 == IdOf(TlOf(root.1))
  }

  /** Type safety of everything the scheduler can ever touch. */
  lemma {:induction false} WorkIsTyped(root: Child, p: Child)
    requires GoodRoot(root) && p in Work(root)
    ensures GoodRoot(p) && Dispatch(p.0) == Some(TlOf(p.1))
    decreases Level(root.1), NodePart(root.1)
  {
    if p == root {
      DispatchFindsTranslator(TlOf(p.1));
    } else {
      var d :| d in Children(root.1) && p in Work(d);
      ChildrenAreSmaller(root.1);
      ChildrenAreTyped(root.1, d);
      WorkIsTyped(d, p);
    }
  }

  /** No two objects met in this translation share a content address. */
  ghost predicate CollisionFree(env: Env, root: Child)
  {
    forall p, q :: p in Work(root) && q in Work(root) && p.0 == q.0 && env.key(p.1) == env.key(q.1) ==> p == q
  }

  // ----- Attempts and runs -----

  datatype Abort = UnknownId | Tags | Panic

  /** One call of `finalize`, its result stored in the cache. */
  function Attempt(env: Env, cache: Cache, p: Child): Result<Cache, Abort>
  {
    match Dispatch(p.0)
    case None => Err(UnknownId)
    case Some(tl) =>
      match Finalize(env, cache, tl, p.1)
      case Done(o) => Ok(cache[CacheKey(env, p) := o])
      case NotReady => Ok(cache)
      case TagMismatch => Err(Tags)
      case TypePanic => Err(Panic)
  }

  /** An attempt under an id that is no translation's own is not made. */
  lemma UnknownIdAborts(env: Env, cache: Cache, p: Child)
    ensures Attempt(env, cache, p) == Err(UnknownId) <==> forall tl :: p.0 != IdOf(tl)
  {
    hide IdOf, Finalize;
    if Dispatch(p.0).Some? {
      DispatchIff(p.0, Dispatch(p.0).value);
    } else {
      forall tl ensures p.0 != IdOf(tl) {
        DispatchIff(p.0, tl);
      }
    }
  }

  function Run(env: Env, cache: Cache, ps: seq<Child>): Result<Cache, Abort>
    decreases |ps|
  {
    if ps == [] then Ok(cache)
    else
      match Attempt(env, cache, ps[0])
      case Err(e) => Err(e)
      case Ok(cache') => Run(env, cache', ps[1..])
  }

  /** Every attempt is at a pair the root can reach. */
  ghost predicate ScheduleOf(root: Child, ps: seq<Child>)
  {
    forall i :: 0 <= i < |ps| ==> ps[i] in Work(root)
  }

  /** A schedule from the empty cache that gets the root done. */
  ghost predicate Finishes(env: Env, root: Child, ps: seq<Child>)
  {
    && ScheduleOf(root, ps)
    && Run(env, map[], ps).Ok?
    && Cached(env, Run(env, map[], ps).value, root)
  }

  predicate Ready(env: Env, cache: Cache, p: Child)
  {
    AllCached(env, cache, Children(p.1))
  }

  // ----- The invariant -----

  /** What holds of one cached pair: it is the plain translation, its children are cached, and its
      recasts went through. */
  ghost predicate GoodEntry(env: Env, cache: Cache, p: Child)
  {
    Cached(env, cache, p) ==>
      && cache[CacheKey(env, p)] == Plain(env.target, p.1)
      && AllCached(env, cache, Children(p.1))
      && RecastsAgree(env.tags, TlOf(p.1))
  }

  ghost predicate Inv(env: Env, root: Child, cache: Cache)
  {
    && GoodRoot(root)
    && CollisionFree(env, root)
    && (forall p :: p in Work(root) ==> GoodEntry(env, cache, p))
  }

  lemma InvGivesSoundFor(env: Env, root: Child, cache: Cache, p: Child)
    requires Inv(env, root, cache) && p in Work(root)
    ensures SoundFor(env, cache, Children(p.1))
  {
    forall i | 0 <= i < |Children(p.1)| && Cached(env, cache, Children(p.1)[i])
      ensures cache[CacheKey(env, Children(p.1)[i])] == Plain(env.target, Children(p.1)[i].1)
    {
      WorkIsClosed(root, p, Children(p.1)[i]);
      assert GoodEntry(env, cache, Children(p.1)[i]);
    }
  }

  /** What an attempt does, exactly. */
  lemma AttemptOutcome(env: Env, root: Child, cache: Cache, p: Child)
    requires Inv(env, root, cache) && p in Work(root)
    ensures Attempt(env, cache, p)
         == if !Ready(env, cache, p) then Ok(cache)
            else if !RecastsAgree(env.tags, TlOf(p.1)) then Err(Tags)
            else Ok(cache[CacheKey(env, p) := Plain(env.target, p.1)])
  {
    WorkIsTyped(root, p);
    InvGivesSoundFor(env, root, cache, p);
    FinalizeIsPlain(env, cache, p.1);
  }

  /** Storing a finished pair keeps the invariant. */
  lemma StoreKeepsInv(env: Env, root: Child, cache: Cache, p: Child)
    requires Inv(env, root, cache) && p in Work(root)
    requires Ready(env, cache, p) && RecastsAgree(env.tags, TlOf(p.1))
    ensures Inv(env, root, cache[CacheKey(env, p) := Plain(env.target, p.1)])
  {
  }

  /** An attempt keeps the invariant. */
  lemma AttemptKeepsInv(env: Env, root: Child, cache: Cache, p: Child)
    requires Inv(env, root, cache) && p in Work(root)
    ensures Attempt(env, cache, p).Ok? ==> Inv(env, root, Attempt(env, cache, p).value)
  {
    AttemptOutcome(env, root, cache, p);
    if Ready(env, cache, p) && RecastsAgree(env.tags, TlOf(p.1)) {
      StoreKeepsInv(env, root, cache, p);
    }
  }

  /** Every schedule keeps the invariant; the only way a run can end early is a recast that
      compares unequal tags. */
  lemma {:induction false} RunKeepsInv(env: Env, root: Child, cache: Cache, ps: seq<Child>)
    requires Inv(env, root, cache) && ScheduleOf(root, ps)
    ensures match Run(env, cache, ps)
            case Ok(cache') => Inv(env, root, cache')
            case Err(e) => e == Tags && exists p :: p in Work(root) && !RecastsAgree(env.tags, TlOf(p.1))
    decreases |ps|
  {
    if ps != [] {
      AttemptOutcome(env, root, cache, ps[0]);
      AttemptKeepsInv(env, root, cache, ps[0]);
      if Attempt(env, cache, ps[0]).Ok? {
        RunKeepsInv(env, root, Attempt(env, cache, ps[0]).value, ps[1..]);
      }
    }
  }

  lemma EmptyCacheInv(env: Env, root: Child)
    requires GoodRoot(root) && CollisionFree(env, root)
    ensures Inv(env, root, map[])
  {
  }

  /** Splitting a schedule over several budgets changes nothing. */
  lemma {:induction false} RunSplits(env: Env, cache: Cache, ps: seq<Child>, qs: seq<Child>)
    ensures Run(env, cache, ps + qs)
         == (match Run(env, cache, ps) case Err(e) => Err(e) case Ok(cache') => Run(env, cache', qs))
    decreases |ps|
  {
    if ps == [] {
      assert ps + qs == qs;
    } else {
      assert (ps + qs)[1..] == ps[1..] + qs;
      if Attempt(env, cache, ps[0]).Ok? {
        RunSplits(env, Attempt(env, cache, ps[0]).value, ps[1..], qs);
      }
    }
  }

  // ----- Correctness of every schedule -----

  /** In every reachable cache every entry is the plain recursive translation of its object, and has
      the type its id promises to whoever downcasts it. */
  lemma EveryEntryIsPlain(env: Env, root: Child, ps: seq<Child>)
    requires GoodRoot(root) && CollisionFree(env, root) && ScheduleOf(root, ps)
    ensures Run(env, map[], ps).Ok? ==>
              forall p :: p in Work(root) && Cached(env, Run(env, map[], ps).value, p) ==>
                && Run(env, map[], ps).value[CacheKey(env, p)] == Plain(env.target, p.1)
                && Tag9(Run(env, map[], ps).value[CacheKey(env, p)]) == p.0.target
  {
    hide Run, Plain, Tag9;
    EmptyCacheInv(env, root);
    RunKeepsInv(env, root, map[], ps);
    if Run(env, map[], ps).Ok? {
      var cache := Run(env, map[], ps).value;
      forall p | p in Work(root) && Cached(env, cache, p)
        ensures cache[CacheKey(env, p)] == Plain(env.target, p.1) && Tag9(cache[CacheKey(env, p)]) == p.0.target
      {
        assert GoodEntry(env, cache, p);
        WorkIsTyped(root, p);
        PlainHasTargetTag(env.target, p.1);
      }
    }
  }

  /** Any two schedules that finish the root agree on the result. */
  lemma SchedulesAgree(env: Env, root: Child, ps: seq<Child>, qs: seq<Child>)
    requires GoodRoot(root) && CollisionFree(env, root)
    requires Finishes(env, root, ps) && Finishes(env, root, qs)
    ensures Run(env, map[], ps).value[CacheKey(env, root)] == Run(env, map[], qs).value[CacheKey(env, root)]
    ensures Run(env, map[], ps).value[CacheKey(env, root)] == Plain(env.target, root.1)
  {
    hide Run, Plain;
    assert root in Work(root);
    EveryEntryIsPlain(env, root, ps);
    EveryEntryIsPlain(env, root, qs);
  }

  // ----- Progress -----

  /** The cache keys still to be filled. */
  ghost function Remaining(env: Env, root: Child, cache: Cache): set<(TranslationId, Key)>
  {
    set p | p in Work(root) && !Cached(env, cache, p) :: CacheKey(env, p)
  }

  /** While a pair is missing, some missing pair below it is ready. */
  lemma {:induction false} SomethingIsReady(env: Env, cache: Cache, root: Child) returns (p: Child)
    requires !Cached(env, cache, root)
    ensures p in Work(root) && !Cached(env, cache, p) && Ready(env, cache, p)
    decreases Level(root.1), NodePart(root.1)
  {
    if Ready(env, cache, root) {
      p := root;
    } else {
      var i :| 0 <= i < |Children(root.1)| && !Cached(env, cache, Children(root.1)[i]);
      var c := Children(root.1)[i];
      ChildrenAreSmaller(root.1);
      p := SomethingIsReady(env, cache, c);
    }
  }

  /** Finalising a missing ready pair takes exactly one key off what remains. */
  lemma StoreShrinksRemaining(env: Env, root: Child, cache: Cache, p: Child, o: Object9)
    requires p in Work(root) && !Cached(env, cache, p)
    ensures Remaining(env, root, cache[CacheKey(env, p) := o]) == Remaining(env, root, cache) - {CacheKey(env, p)}
    ensures |Remaining(env, root, cache[CacheKey(env, p) := o])| == |Remaining(env, root, cache)| - 1
  {
  }

  /** The recasts of everything below a pair go through. */
  ghost predicate AllRecastsAgree(env: Env, root: Child)
  {
    forall p :: p in Work(root) ==> RecastsAgree(env.tags, TlOf(p.1))
  }

  /** From any cache some schedule finishes the root, in at most one attempt per missing key. */
  lemma {:induction false} CanFinish(env: Env, root: Child, cache: Cache) returns (ps: seq<Child>)
    requires Inv(env, root, cache) && AllRecastsAgree(env, root)
    ensures ScheduleOf(root, ps) && |ps| <= |Remaining(env, root, cache)|
    ensures Run(env, cache, ps).Ok? && Cached(env, Run(env, cache, ps).value, root)
    decreases |Remaining(env, root, cache)|
  {
    hide Inv, Attempt, Remaining, Plain, RecastsAgree, Work;
    if Cached(env, cache, root) {
      ps := [];
    } else {
      var p := SomethingIsReady(env, cache, root);
      AttemptOutcome(env, root, cache, p);
      StoreKeepsInv(env, root, cache, p);
      var cache' := cache[CacheKey(env, p) := Plain(env.target, p.1)];
      StoreShrinksRemaining(env, root, cache, p, Plain(env.target, p.1));
      var rest := CanFinish(env, root, cache');
      ps := [p] + rest;
      assert ps[1..] == rest;
      assert Run(env, cache, ps) == Run(env, cache', rest);
    }
  }

  /** Once a pair is cached, so is everything below it, and all its recasts went through. */
  lemma {:induction false} CachedMeansAllCached(env: Env, root: Child, cache: Cache, p: Child, q: Child)
    requires Inv(env, root, cache) && p in Work(root) && Cached(env, cache, p) && q in Work(p)
    ensures q in Work(root) && Cached(env, cache, q) && RecastsAgree(env.tags, TlOf(q.1))
    decreases Level(p.1), NodePart(p.1)
  {
    assert GoodEntry(env, cache, p);
    if q != p {
      var c :| c in Children(p.1) && q in Work(c);
      ChildrenAreSmaller(p.1);
      WorkIsClosed(root, p, c);
      CachedMeansAllCached(env, root, cache, c, q);
    }
  }

  /** A translation can finish exactly when every recast it meets compares equal tags. */
  lemma FinishesIffRecastsAgree(env: Env, root: Child)
    requires GoodRoot(root) && CollisionFree(env, root)
    ensures (exists ps :: Finishes(env, root, ps)) <==> AllRecastsAgree(env, root)
  {
    EmptyCacheInv(env, root);
    if AllRecastsAgree(env, root) {
      var ps := CanFinish(env, root, map[]);
      assert Finishes(env, root, ps);
    }
    if ps :| Finishes(env, root, ps) {
      RunKeepsInv(env, root, map[], ps);
      assert root in Work(root);
      forall q | q in Work(root) ensures RecastsAgree(env.tags, TlOf(q.1)) {
        CachedMeansAllCached(env, root, Run(env, map[], ps).value, root, q);
      }
    }
  }

  // ----- Which recasts a ledger state meets -----

  function NodePair(kind: Kind, n: Node8): Child
  {
    (IdOf(NodeTl(kind)), NodeObj8(kind, n))
  }

  function LedgerPair(s: State8): Child
  {
    (IdOf(LedgerTl), LedgerObj8(s))
  }

  /** What a pair reaches besides itself it reaches through a child. */
  lemma ThroughChild(p: Child, q: Child) returns (c: Child)
    requires q in Work(p) && q != p
    ensures c in Children(p.1) && q in Work(c)
  {
    c :| c in Children(p.1) && q in Work(c);
  }

  lemma NoChildren(p: Child, q: Child)
    requires q in Work(p) && Children(p.1) == []
    ensures q == p
  {
  }

  /** A child with entries, if there are any below a branch. */
  lemma {:induction false} SomeChildHasEntries<V, N>(ch: seq<Node<V, N>>, k: nat)
    requires k <= |ch|
    ensures ChildEntries(ch, k) != [] <==> exists i :: 0 <= i < k && Entries(ch[i]) != []
  {
    if k > 0 { SomeChildHasEntries(ch, k - 1); }
  }

  /** A trie of contracts that is not empty has a contract in its work. */
  lemma {:induction false} ContractBelow(n: Node8) returns (q: Child)
    requires TypedNode(n, Contract) && Entries(n) != []
    ensures q in Work(NodePair(Contract, n)) && q.1.ContractObj8?
  {
    var p := NodePair(Contract, n);
    var c: Child;
    match n {
      case Branch(_, ch) =>
        SomeChildHasEntries(ch, |ch|);
        var i :| 0 <= i < |ch| && Entries(ch[i]) != [];
        q := ContractBelow(ch[i]);
        c := Children(p.1)[i];
      case Extension(_, _, child) =>
        q := ContractBelow(child);
        c := Children(p.1)[0];
      case MidBranchLeaf(_, v, _) =>
        q := Children(p.1)[0];
        c := q;
      case Leaf(_, v) =>
        q := Children(p.1)[0];
        c := q;
    }
    assert c in Children(p.1) && q in Work(c);
  }

  /** The work of a trie is nodes and entries of its kind, and there is an entry in it only if the trie
      has one. */
  lemma {:induction false} NodeWork(kind: Kind, n: Node8, q: Child)
    requires TypedNode(n, kind) && q in Work(NodePair(kind, n))
    ensures q.1.NodeObj8? || (q.1.ContractObj8? && kind == Contract) || (q.1.AmountObj8? && kind == Bridge)
    ensures !q.1.NodeObj8? ==> Entries(n) != []
  {
    hide Work, IdOf, Entries;
    var p := NodePair(kind, n);
    if q != p {
      var c := ThroughChild(p, q);
      match n {
        case Branch(_, ch) =>
          var i :| 0 <= i < |ch| && c == NodePair(kind, ch[i]);
          NodeWork(kind, ch[i], q);
          SomeChildHasEntries(ch, |ch|);
          HasEntries(n);
        case Extension(_, _, child) =>
          NodeWork(kind, child, q);
          HasEntries(n);
        case MidBranchLeaf(_, v, child) =>
          HasEntries(n);
          if c == NodePair(kind, child) {
            NodeWork(kind, child, q);
          } else {
            NoChildren(c, q);
          }
        case Leaf(_, v) =>
          HasEntries(n);
          NoChildren(c, q);
      }
    }
  }

  lemma HasEntries<V, N>(n: Node<V, N>)
    ensures Entries(n) != [] <==>
              match n
              case Empty => false
              case Branch(_, ch) => ChildEntries(ch, |ch|) != []
              case Extension(_, _, child) => Entries(child) != []
              case MidBranchLeaf(_, _, _) => true
              case Leaf(_, _) => true
  {
  }

  /** The state holds a contract at some address. */
  ghost predicate HoldsContract(s: State8)
  {
    exists address :: Lookup(s.contract, address).Some?
  }

  lemma HoldsContractIff(s: State8)
    ensures HoldsContract(s) <==> Entries(s.contract) != []
  {
    var es := Entries(s.contract);
    if es != [] {
      LookupIsFind(s.contract, es[0].key);
    }
    if address :| Lookup(s.contract, address).Some? {
      LookupIsFind(s.contract, address);
    }
  }

  /** Everything a ledger state has translated besides trie nodes and amounts: itself, its parameters and,
      if it holds any, contracts. */
  lemma LedgerWork(s: State8, q: Child)
    requires TypedState(s) && q in Work(LedgerPair(s))
    ensures match TlOf(q.1)
            case LedgerTl => q == LedgerPair(s)
            case ContractTl => HoldsContract(s)
            case _ => true
  {
    hide Work, IdOf, Entries, HoldsContract, TypedNode;
    HoldsContractIff(s);
    var p := LedgerPair(s);
    if q != p {
      var c := ThroughChild(p, q);
      if c.1.ParametersObj8? {
        NoChildren(c, q);
      } else if q != c {
        var d := ThroughChild(c, q);
        NodeWork(c.1.kind, c.1.root, q);
      }
    }
  }

  /** The tags a caller has to compare: the ledger and parameter ones always, the contract ones as soon as
      the state holds a contract. */
  ghost predicate TagsAgree(tags: RecastTags, s: State8)
  {
    && RecastsAgree(tags, LedgerTl) && RecastsAgree(tags, ParametersTl)
    && (HoldsContract(s) ==> RecastsAgree(tags, ContractTl))
  }

  lemma AllRecastsAgreeIff(env: Env, s: State8)
    requires TypedState(s)
    ensures AllRecastsAgree(env, LedgerPair(s)) <==> TagsAgree(env.tags, s)
  {
    hide RecastsAgree, Work;
    LedgerMeets(s);
    if AllRecastsAgree(env, LedgerPair(s)) && HoldsContract(s) {
      var q := LedgerMeetsContract(s);
    }
    if TagsAgree(env.tags, s) {
      forall q | q in Work(LedgerPair(s)) ensures RecastsAgree(env.tags, TlOf(q.1)) {
        LedgerWork(s, q);
        OtherRecastsAgree(env.tags, TlOf(q.1));
      }
    }
  }

  lemma OtherRecastsAgree(tags: RecastTags, tl: Translator)
    ensures tl.MptTl? || tl.NodeTl? || tl.IdentityTl? ==> RecastsAgree(tags, tl)
  {
  }

  lemma LedgerMeets(s: State8)
    ensures LedgerPair(s) in Work(LedgerPair(s))
    ensures (IdOf(ParametersTl), ParametersObj8(s.parameters)) in Work(LedgerPair(s))
  {
    var p, c := LedgerPair(s), (IdOf(ParametersTl), ParametersObj8(s.parameters));
    assert c == Children(p.1)[0] && c in Work(c);
  }

  lemma LedgerMeetsContract(s: State8) returns (q: Child)
    requires TypedState(s) && HoldsContract(s)
    ensures q in Work(LedgerPair(s)) && q.1.ContractObj8?
  {
    HoldsContractIff(s);
    q := ContractBelow(s.contract);
    var p := LedgerPair(s);
    var c := Children(p.1)[2];
    assert NodePair(Contract, s.contract) == Children(c.1)[0];
    assert q in Work(c);
    assert c in Children(p.1);
  }

  /** A ledger state can be translated if and only if its tags agree. */
  lemma FinishesIffTagsAgree(env: Env, s: State8)
    requires TypedState(s) && CollisionFree(env, LedgerPair(s))
    ensures (exists ps :: Finishes(env, LedgerPair(s), ps)) <==> TagsAgree(env.tags, s)
  {
    FinishesIffRecastsAgree(env, LedgerPair(s));
    AllRecastsAgreeIff(env, s);
  }

  // ----- Counting -----

  /** How many attempts of a schedule stored a new key. */
  function Productive(env: Env, cache: Cache, ps: seq<Child>): nat
    decreases |ps|
  {
    if ps == [] then 0
    else
      match Attempt(env, cache, ps[0])
      case Err(_) => 0
      case Ok(cache') =>
        (if Ready(env, cache, ps[0]) && !Cached(env, cache, ps[0]) then 1 else 0)
        + Productive(env, cache', ps[1..])
  }

  lemma CachedIsGood(env: Env, root: Child, cache: Cache, p: Child)
    requires Inv(env, root, cache) && p in Work(root) && Cached(env, cache, p)
    ensures Ready(env, cache, p) && RecastsAgree(env.tags, TlOf(p.1))
    ensures cache[CacheKey(env, p)] == Plain(env.target, p.1)
  {
    hide Plain, RecastsAgree;
    assert GoodEntry(env, cache, p);
  }

  lemma RepeatsChangeNothing(env: Env, root: Child, cache: Cache, p: Child)
    requires Inv(env, root, cache) && p in Work(root) && Cached(env, cache, p)
    ensures Attempt(env, cache, p) == Ok(cache)
  {
    hide Attempt, Plain, RecastsAgree, Inv;
    AttemptOutcome(env, root, cache, p);
    CachedIsGood(env, root, cache, p);
    assert cache[CacheKey(env, p) := cache[CacheKey(env, p)]] == cache;
  }

  /** In every run, productive attempts and remaining keys balance: no key is translated twice and
      none is lost, so no run has more productive attempts than there are distinct keys. */
  lemma {:induction false} ProductiveBalances(env: Env, root: Child, cache: Cache, ps: seq<Child>)
    requires Inv(env, root, cache) && ScheduleOf(root, ps) && Run(env, cache, ps).Ok?
    ensures |Remaining(env, root, cache)|
         == Productive(env, cache, ps) + |Remaining(env, root, Run(env, cache, ps).value)|
    decreases |ps|
  {
    hide Inv, Attempt, Remaining, Plain, RecastsAgree, Work;
    if ps != [] {
      var p := ps[0];
      AttemptOutcome(env, root, cache, p);
      AttemptKeepsInv(env, root, cache, p);
      var cache' := Attempt(env, cache, p).value;
      if Ready(env, cache, p) {
        if Cached(env, cache, p) {
          RepeatsChangeNothing(env, root, cache, p);
        } else {
          StoreShrinksRemaining(env, root, cache, p, Plain(env.target, p.1));
        }
      }
      ProductiveBalances(env, root, cache', ps[1..]);
    }
  }

  lemma ProductiveRunShrinks(env: Env, root: Child, cache: Cache, ps: seq<Child>)
    requires Inv(env, root, cache) && ScheduleOf(root, ps) && Run(env, cache, ps).Ok?
    requires Productive(env, cache, ps) >= 1
    ensures |Remaining(env, root, Run(env, cache, ps).value)| < |Remaining(env, root, cache)|
  {
    ProductiveBalances(env, root, cache, ps);
  }
}
