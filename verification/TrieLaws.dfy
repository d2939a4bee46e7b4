/** What a trie translation preserves: lookups, the entry list, the key order, and what
    every recomputed annotation means. */
module TrieLaws {
  import opened Common
  import opened Trie

  // ----- Lookup agrees with the entry list -----

  lemma {:induction false} FindConcat<V>(a: seq<Entry<V>>, b: seq<Entry<V>>, p: Path)
    ensures Find(a + b, p) == if Find(a, p).Some? then Find(a, p) else Find(b, p)
  {
    if a == [] {
      assert a + b == b;
    } else {
      assert (a + b)[1..] == a[1..] + b;
      FindConcat(a[1..], b, p);
    }
  }

  lemma {:induction false} FindUnder<V>(prefix: Path, es: seq<Entry<V>>, p: Path)
    ensures Find(Under(prefix, es), p)
         == if prefix <= p then Find(es, p[|prefix|..]) else None
  {
    if es != [] {
      assert Under(prefix, es)[1..] == Under(prefix, es[1..]);
      assert prefix + es[0].key == p <==> prefix <= p && es[0].key == p[|prefix|..];
      FindUnder(prefix, es[1..], p);
    }
  }

  lemma {:induction false} FindChildren<V, N>(ch: seq<Node<V, N>>, k: nat, p: Path)
    requires k <= |ch|
    ensures Find(ChildEntries(ch, k), p)
         == if p != [] && p[0] < k then Lookup(ch[p[0]], p[1..]) else None
    decreases ch, k
  {
    if k > 0 {
      FindChildren(ch, k - 1, p);
      FindConcat(ChildEntries(ch, k - 1), Under([k - 1], Entries(ch[k - 1])), p);
      FindUnder([k - 1], Entries(ch[k - 1]), p);
      assert [k - 1] <= p <==> p != [] && p[0] == k - 1;
      if p != [] && p[0] == k - 1 {
        LookupIsFind(ch[k - 1], p[1..]);
      }
    }
  }

  /** Reading a key returns the first entry listed under it, and nothing otherwise. */
  lemma {:induction false} LookupIsFind<V, N>(n: Node<V, N>, p: Path)
    ensures Lookup(n, p) == Find(Entries(n), p)
    decreases n, 0
  {
    match n
    case Empty =>
    case Branch(_, ch) => FindChildren(ch, |ch|, p);
    case Extension(_, path, child) =>
      FindUnder(path, Entries(child), p);
      if path <= p { LookupIsFind(child, p[|path|..]); }
    case MidBranchLeaf(_, value, child) =>
      FindConcat([Entry([], value)], Entries(child), p);
      LookupIsFind(child, p);
    case Leaf(_, value) =>
  }

  // ----- The entry list is in key order -----

  lemma {:induction false} LexLePrefix(prefix: Path, p: Path, q: Path)
    requires LexLe(p, q)
    ensures LexLe(prefix + p, prefix + q)
  {
    if prefix == [] {
      assert prefix + p == p && prefix + q == q;
    } else {
      assert (prefix + p)[1..] == prefix[1..] + p && (prefix + q)[1..] == prefix[1..] + q;
      LexLePrefix(prefix[1..], p, q);
    }
  }

  lemma UnderInOrder<V>(prefix: Path, es: seq<Entry<V>>)
    requires InKeyOrder(es)
    ensures InKeyOrder(Under(prefix, es))
  {
    forall i, j | 0 <= i < j < |es|
      ensures LexLe(Under(prefix, es)[i].key, Under(prefix, es)[j].key)
    {
      LexLePrefix(prefix, es[i].key, es[j].key);
    }
  }

  /** All keys start with a nibble below `k`. */
  ghost predicate StartBelow<V>(es: seq<Entry<V>>, k: nat)
  {
    forall i :: 0 <= i < |es| ==> es[i].key != [] && es[i].key[0] < k
  }

  lemma ConcatInOrder<V>(a: seq<Entry<V>>, k: nat, b: seq<Entry<V>>)
    requires InKeyOrder(a) && StartBelow(a, k) && InKeyOrder(b)
    ensures InKeyOrder(a + Under([k], b)) && StartBelow(a + Under([k], b), k + 1)
  {
    var c := Under([k], b);
    UnderInOrder([k], b);
    forall i, j | 0 <= i < |a| && 0 <= j < |c| ensures LexLe(a[i].key, c[j].key) {
      assert a[i].key[0] < c[j].key[0];
    }
  }

  lemma {:induction false} ChildrenInOrder<V, N>(ch: seq<Node<V, N>>, k: nat)
    requires k <= |ch|
    ensures InKeyOrder(ChildEntries(ch, k)) && StartBelow(ChildEntries(ch, k), k)
    decreases ch, k
  {
    if k > 0 {
      ChildrenInOrder(ch, k - 1);
      EntriesInKeyOrder(ch[k - 1]);
      ConcatInOrder(ChildEntries(ch, k - 1), k - 1, Entries(ch[k - 1]));
    }
  }

  /** Entries are listed in lexicographic key order. */
  lemma {:induction false} EntriesInKeyOrder<V, N>(n: Node<V, N>)
    ensures InKeyOrder(Entries(n))
    decreases n, 0
  {
    match n
    case Empty =>
    case Branch(_, ch) => ChildrenInOrder(ch, |ch|);
    case Extension(_, path, child) =>
      EntriesInKeyOrder(child);
      UnderInOrder(path, Entries(child));
    case MidBranchLeaf(_, _, child) => EntriesInKeyOrder(child);
    case Leaf(_, _) =>
  }

  // ----- Each key is listed once -----

  lemma {:induction false} FindNone<V>(es: seq<Entry<V>>, p: Path)
    ensures Find(es, p).None? <==> forall i :: 0 <= i < |es| ==> es[i].key != p
  {
    if es != [] {
      FindNone(es[1..], p);
      assert es == [es[0]] + es[1..];
    }
  }

  lemma {:induction false} FindAt<V>(es: seq<Entry<V>>, i: nat)
    requires Distinct(es) && i < |es|
    ensures Find(es, es[i].key) == Some(es[i].value)
  {
    if i > 0 {
      assert es[0].key != es[i].key && es[1..][i - 1] == es[i];
      FindAt(es[1..], i - 1);
    }
  }

  lemma ShortIsDistinct<V>(es: seq<Entry<V>>)
    requires |es| <= 1
    ensures Distinct(es)
  {
  }

  lemma DistinctUnder<V>(prefix: Path, es: seq<Entry<V>>)
    ensures Distinct(Under(prefix, es)) <==> Distinct(es)
  {
    forall i, j | 0 <= i < j < |es|
      ensures Under(prefix, es)[i].key == Under(prefix, es)[j].key <==> es[i].key == es[j].key
    {
      assert (prefix + es[i].key)[|prefix|..] == es[i].key && (prefix + es[j].key)[|prefix|..] == es[j].key;
    }
  }

  lemma DistinctConcat<V>(a: seq<Entry<V>>, b: seq<Entry<V>>)
    requires forall i, j :: 0 <= i < |a| && 0 <= j < |b| ==> a[i].key != b[j].key
    ensures Distinct(a + b) <==> Distinct(a) && Distinct(b)
  {
    var c := a + b;
    if Distinct(c) {
      forall i, j | 0 <= i < j < |a| ensures a[i].key != a[j].key {
        assert c[i].key != c[j].key;
      }
      forall i, j | 0 <= i < j < |b| ensures b[i].key != b[j].key {
        assert c[|a| + i].key != c[|a| + j].key;
      }
    }
  }

  lemma {:induction false} ChildrenDistinctIff<V, N>(ch: seq<Node<V, N>>, k: nat)
    requires k <= |ch|
    ensures Distinct(ChildEntries(ch, k)) <==> forall i :: 0 <= i < k ==> Unshadowed(ch[i])
    decreases ch, k
  {
    hide Distinct, Unshadowed;
    if k == 0 {
      ShortIsDistinct<V>([]);
    } else {
      var last := Entries(ch[k - 1]);
      ChildrenDistinctIff(ch, k - 1);
      ChildrenInOrder(ch, k - 1);
      DistinctIff(ch[k - 1]);
      DistinctUnder([k - 1], last);
      DistinctConcat(ChildEntries(ch, k - 1), Under([k - 1], last));
    }
  }

  lemma DistinctCons<V>(v: V, es: seq<Entry<V>>)
    ensures Distinct([Entry([], v)] + es) <==> Find(es, []).None? && Distinct(es)
  {
    FindNone(es, []);
    var c := [Entry([], v)] + es;
    if Find(es, []).None? {
      DistinctConcat([Entry([], v)], es);
    } else {
      var i :| 0 <= i < |es| && es[i].key == [];
      assert c[0].key == c[i + 1].key;
    }
  }

  /** No key is listed twice if and only if no value is shadowed. */
  lemma {:induction false} DistinctIff<V, N>(n: Node<V, N>)
    ensures Distinct(Entries(n)) <==> Unshadowed(n)
    decreases n, 0
  {
    hide Distinct;
    match n
    case Empty => ShortIsDistinct<V>([]);
    case Branch(_, ch) => ChildrenDistinctIff(ch, |ch|);
    case Extension(_, path, child) =>
      DistinctUnder(path, Entries(child));
      DistinctIff(child);
    case MidBranchLeaf(_, value, child) =>
      DistinctCons(value, Entries(child));
      LookupIsFind(child, []);
      DistinctIff(child);
    case Leaf(_, value) => ShortIsDistinct([Entry([], value)]);
  }

  // ----- Totals distribute over concatenation -----

  lemma {:induction false} TotalConcat<V, N(!new)>(m: Annotation<V, N>, a: seq<Entry<V>>, b: seq<Entry<V>>)
    requires Lawful(m)
    ensures Total(m, a + b) == m.append(Total(m, a), Total(m, b))
  {
    if b == [] {
      assert a + b == a;
    } else {
      assert (a + b)[..|a + b| - 1] == a + b[..|b| - 1];
      TotalConcat(m, a, b[..|b| - 1]);
    }
  }

  lemma {:induction false} TotalUnder<V, N>(m: Annotation<V, N>, prefix: Path, es: seq<Entry<V>>)
    ensures Total(m, Under(prefix, es)) == Total(m, es)
  {
    if es != [] {
      assert Under(prefix, es)[..|es| - 1] == Under(prefix, es[..|es| - 1]);
      TotalUnder(m, prefix, es[..|es| - 1]);
    }
  }

  /** In a well annotated trie the annotation a parent sees is the total below. */
  lemma AnnOfIsTotal<V, N>(n: Node<V, N>, m: Annotation<V, N>)
    requires WellAnnotated(n, m)
    ensures AnnOf(n, m) == Total(m, Entries(n))
  {
  }

  lemma {:induction false} FoldAnnIsTotal<V, N(!new)>(ch: seq<Node<V, N>>, k: nat, m: Annotation<V, N>)
    requires Lawful(m) && k <= |ch|
    requires forall i :: 0 <= i < |ch| ==> WellAnnotated(ch[i], m)
    ensures FoldAnn(ch, k, m) == Total(m, ChildEntries(ch, k))
  {
    if k > 0 {
      FoldAnnIsTotal(ch, k - 1, m);
      AnnOfIsTotal(ch[k - 1], m);
      TotalUnder(m, [k - 1], Entries(ch[k - 1]));
      TotalConcat(m, ChildEntries(ch, k - 1), Under([k - 1], Entries(ch[k - 1])));
    }
  }

  // ----- Translation -----

  /** Looking up a translated trie gives the translated value of the source lookup: no key
      is gained, lost or moved. */
  lemma {:induction false} LookupTranslated<A, M, B, N>(
    n: Node<A, M>, f: A -> B, m: Annotation<B, N>, p: Path)
    ensures Lookup(Translate(n, f, m), p) == MapOption(Lookup(n, p), f)
    decreases n
  {
    match n
    case Empty =>
    case Branch(_, ch) => if p != [] && p[0] < |ch| { LookupTranslated(ch[p[0]], f, m, p[1..]); }
    case Extension(_, path, child) =>
      if path <= p { LookupTranslated(child, f, m, p[|path|..]); }
    case MidBranchLeaf(_, _, child) => LookupTranslated(child, f, m, p);
    case Leaf(_, _) =>
  }

  lemma MapUnder<A, B>(prefix: Path, es: seq<Entry<A>>, f: A -> B)
    ensures Under(prefix, MapEntries(es, f)) == MapEntries(Under(prefix, es), f)
  {
  }

  lemma MapConcat<A, B>(a: seq<Entry<A>>, b: seq<Entry<A>>, f: A -> B)
    ensures MapEntries(a + b, f) == MapEntries(a, f) + MapEntries(b, f)
  {
  }

  lemma {:induction false} ChildEntriesTranslated<A, M, B, N>(
    ch: seq<Node<A, M>>, kids: seq<Node<B, N>>, k: nat, f: A -> B, m: Annotation<B, N>)
    requires |kids| == |ch| && k <= |ch|
    requires forall i :: 0 <= i < |ch| ==> kids[i] == Translate(ch[i], f, m)
    ensures ChildEntries(kids, k) == MapEntries(ChildEntries(ch, k), f)
    decreases ch, k
  {
    hide Translate, Entries, MapEntries, Under;
    if k == 0 {
      assert MapEntries([], f) == [];
    } else {
      ChildEntriesTranslated(ch, kids, k - 1, f, m);
      EntriesTranslated(ch[k - 1], f, m);
      MapUnder([k - 1], Entries(ch[k - 1]), f);
      MapConcat(ChildEntries(ch, k - 1), Under([k - 1], Entries(ch[k - 1])), f);
    }
  }

  /** The translated trie lists the same keys in the same order, each value through `f`. */
  lemma {:induction false} EntriesTranslated<A, M, B, N>(n: Node<A, M>, f: A -> B, m: Annotation<B, N>)
    ensures Entries(Translate(n, f, m)) == MapEntries(Entries(n), f)
    decreases n, 0
  {
    match n
    case Empty =>
    case Branch(_, ch) =>
      ChildEntriesTranslated(ch, Translate(n, f, m).children, |ch|, f, m);
    case Extension(_, path, child) =>
      EntriesTranslated(child, f, m);
      MapUnder(path, Entries(child), f);
    case MidBranchLeaf(_, _, child) => EntriesTranslated(child, f, m);
    case Leaf(_, _) =>
  }

  /** Every node of a translated trie carries the total, in key order, of the translated
      values below it, whatever the old annotations were. */
  lemma {:induction false} TranslatedIsWellAnnotated<A, M, B, N(!new)>(
    n: Node<A, M>, f: A -> B, m: Annotation<B, N>)
    requires Lawful(m)
    ensures WellAnnotated(Translate(n, f, m), m)
    decreases n
  {
    var t := Translate(n, f, m);
    match n
    case Empty =>
    case Branch(_, ch) =>
      forall i | 0 <= i < |ch| ensures WellAnnotated(t.children[i], m) {
        TranslatedIsWellAnnotated(ch[i], f, m);
      }
      FoldAnnIsTotal(t.children, |t.children|, m);
    case Extension(_, path, child) =>
      TranslatedIsWellAnnotated(child, f, m);
      AnnOfIsTotal(t.child, m);
      TotalUnder(m, path, Entries(t.child));
    case MidBranchLeaf(_, value, child) =>
      TranslatedIsWellAnnotated(child, f, m);
      AnnOfIsTotal(t.child, m);
      TotalOne(m, f(value));
      TotalConcat(m, [Entry([], f(value))], Entries(t.child));
    case Leaf(_, value) => TotalOne(m, f(value));
  }

  lemma {:induction false} TranslateKeepsShape<A, M, B, N>(n: Node<A, M>, f: A -> B, m: Annotation<B, N>)
    ensures SameShape(n, Translate(n, f, m), f)
    decreases n
  {
    match n
    case Empty =>
    case Branch(_, ch) =>
      forall i | 0 <= i < |ch| ensures SameShape(ch[i], Translate(n, f, m).children[i], f) {
        TranslateKeepsShape(ch[i], f, m);
      }
    case Extension(_, _, child) => TranslateKeepsShape(child, f, m);
    case MidBranchLeaf(_, _, child) => TranslateKeepsShape(child, f, m);
    case Leaf(_, _) =>
  }

  /** Shape and annotations leave no choice. */
  lemma {:induction false} ImageIsUnique<A, M, B, N(!new)>(
    n: Node<A, M>, t: Node<B, N>, f: A -> B, m: Annotation<B, N>)
    requires Lawful(m) && SameShape(n, t, f) && WellAnnotated(t, m)
    ensures t == Translate(n, f, m)
    decreases n
  {
    hide Lawful;
    TranslatedIsWellAnnotated(n, f, m);
    match n
    case Empty =>
    case Branch(_, ch) =>
      forall i | 0 <= i < |ch| ensures t.children[i] == Translate(ch[i], f, m) {
        ImageIsUnique(ch[i], t.children[i], f, m);
      }
      assert t.children == Translate(n, f, m).children;
    case Extension(_, _, child) => ImageIsUnique(child, t.child, f, m);
    case MidBranchLeaf(_, _, child) => ImageIsUnique(child, t.child, f, m);
    case Leaf(_, _) =>
  }

  /** The translated trie is the only trie of the same shape, with the translated values, in which every
      node carries the fold of the values below it. */
  lemma TranslateIsTheOnlyImage<A, M, B, N(!new)>(
    n: Node<A, M>, t: Node<B, N>, f: A -> B, m: Annotation<B, N>)
    requires Lawful(m)
    ensures t == Translate(n, f, m) <==> SameShape(n, t, f) && WellAnnotated(t, m)
  {
    hide Translate, SameShape, WellAnnotated, Lawful;
    TranslateKeepsShape(n, f, m);
    TranslatedIsWellAnnotated(n, f, m);
    if SameShape(n, t, f) && WellAnnotated(t, m) {
      ImageIsUnique(n, t, f, m);
    }
  }

  /** The fold at the root of a translated trie without shadowed values is over each key exactly once, in
      strict key order: the entries it totals are the lookups of the trie. */
  lemma RootFoldsEachKeyOnce<A, M, B, N(!new)>(n: Node<A, M>, f: A -> B, m: Annotation<B, N>)
    requires Lawful(m)
    ensures var t := Translate(n, f, m);
            var es := Entries(t);
            && AnnOf(t, m) == Total(m, es)
            && InKeyOrder(es)
            && (Distinct(es) <==> Unshadowed(n))
            && (Unshadowed(n) ==> forall i :: 0 <= i < |es| ==> Lookup(t, es[i].key) == Some(es[i].value))
            && (forall p :: Lookup(t, p).Some? ==> Entry(p, Lookup(t, p).value) in es)
  {
    hide Translate, Distinct, InKeyOrder, Lawful;
    var t := Translate(n, f, m);
    TranslatedIsWellAnnotated(n, f, m);
    AnnOfIsTotal(t, m);
    EntriesInKeyOrder(t);
    DistinctIff(n);
    EntriesTranslated(n, f, m);
    DistinctMapped(Entries(n), f);
    forall i | 0 <= i < |Entries(t)|
      ensures Unshadowed(n) ==> Lookup(t, Entries(t)[i].key) == Some(Entries(t)[i].value)
    {
      LookupIsFind(t, Entries(t)[i].key);
      if Unshadowed(n) { FindAt(Entries(t), i); }
    }
    forall p ensures Lookup(t, p).Some? ==> Entry(p, Lookup(t, p).value) in Entries(t) {
      LookupIsFind(t, p);
      FoundIsListed(Entries(t), p);
    }
  }

  lemma {:induction false} FoundIsListed<V>(es: seq<Entry<V>>, p: Path)
    ensures Find(es, p).Some? ==> Entry(p, Find(es, p).value) in es
  {
    if es != [] { FoundIsListed(es[1..], p); }
  }

  lemma DistinctMapped<A, B>(es: seq<Entry<A>>, f: A -> B)
    ensures Distinct(MapEntries(es, f)) <==> Distinct(es)
  {
    forall i | 0 <= i < |es| ensures MapEntries(es, f)[i].key == es[i].key {}
  }

  lemma TotalOne<V, N(!new)>(m: Annotation<V, N>, v: V)
    requires Lawful(m)
    ensures Total(m, [Entry([], v)]) == m.fromValue(v)
  {
  }

  lemma {:induction false} TranslatedIsWellShaped<A, M, B, N>(n: Node<A, M>, f: A -> B, m: Annotation<B, N>)
    requires WellShaped(n)
    ensures WellShaped(Translate(n, f, m))
    decreases n
  {
    match n
    case Empty =>
    case Branch(_, ch) =>
      forall i | 0 <= i < |ch| ensures WellShaped(Translate(n, f, m).children[i]) {
        TranslatedIsWellShaped(ch[i], f, m);
      }
    case Extension(_, _, child) => TranslatedIsWellShaped(child, f, m);
    case MidBranchLeaf(_, _, child) => TranslatedIsWellShaped(child, f, m);
    case Leaf(_, _) =>
  }
}
