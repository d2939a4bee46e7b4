/** Merkle-Patricia tries as immutable values, and the trie half of the v8 -> v9
    translation written as a plain recursion.

    A stored pointer is modelled by the value it points at.  `V` is the entry type and
    `N` the annotation type cached in every non-empty node. */
module Trie {
  import opened Common

  // A key, already split into nibbles.
  type Path = seq<nat>

  // A Branch has FANOUT children, one per nibble.
  const FANOUT := 16

  datatype Node<V, N> =
    | Empty
    | Branch(ann: N, children: seq<Node<V, N>>)
    | Extension(ann: N, path: Path, child: Node<V, N>)
    | MidBranchLeaf(ann: N, value: V, child: Node<V, N>)
    | Leaf(ann: N, value: V)

  /** How a node annotation is computed from the entries below it. */
  datatype Annotation<!V, !N> = Annotation(empty: N, append: (N, N) -> N, fromValue: V -> N)

  /** The monoid laws of an annotation. */
  ghost predicate Lawful<V, N(!new)>(m: Annotation<V, N>)
  {
    && (forall a :: m.append(m.empty, a) == a)
    && (forall a :: m.append(a, m.empty) == a)
    && (forall a, b, c :: m.append(m.append(a, b), c) == m.append(a, m.append(b, c)))
  }

  /** The shape the array type of the source guarantees. */
  predicate WellShaped<V, N>(n: Node<V, N>)
  {
    match n
    case Empty => true
    case Branch(_, ch) => |ch| == 16 && forall i :: 0 <= i < |ch| ==> WellShaped(ch[i])
    case Extension(_, _, child) => WellShaped(child)
    case MidBranchLeaf(_, _, child) => WellShaped(child)
    case Leaf(_, _) => true
  }

  /** The annotation of a node as its parent sees it. */
  function AnnOf<V, N>(n: Node<V, N>, m: Annotation<V, N>): N
  {
    if n.Empty? then m.empty else n.ann
  }

  /** Left fold of the annotations of the first `k` children. */
  function FoldAnn<V, N>(ch: seq<Node<V, N>>, k: nat, m: Annotation<V, N>): N
    requires k <= |ch|
  {
    if k == 0 then m.empty else m.append(FoldAnn(ch, k - 1, m), AnnOf(ch[k - 1], m))
  }

  /** The whole trie translated by plain recursion: entries through `f`, annotations
      recomputed under `m`, old annotations dropped. */
  function Translate<A, M, B, N>(n: Node<A, M>, f: A -> B, m: Annotation<B, N>): Node<B, N>
    decreases n
  {
    match n
    case Empty => Empty
    case Branch(_, ch) =>
      var kids := seq(|ch|, i requires 0 <= i < |ch| => Translate(ch[i], f, m));
      Branch(FoldAnn(kids, |kids|, m), kids)
    case Extension(_, path, child) =>
      var kid := Translate(child, f, m);
      Extension(AnnOf(kid, m), path, kid)
    case MidBranchLeaf(_, value, child) =>
      var kid := Translate(child, f, m);
      MidBranchLeaf(m.append(m.fromValue(f(value)), AnnOf(kid, m)), f(value), kid)
    case Leaf(_, value) => Leaf(m.fromValue(f(value)), f(value))
  }

  /** Reading one key. */
  function Lookup<V, N>(n: Node<V, N>, p: Path): Option<V>
    decreases n
  {
    match n
    case Empty => None
    case Branch(_, ch) => if p != [] && p[0] < |ch| then Lookup(ch[p[0]], p[1..]) else None
    case Extension(_, path, child) => if path <= p then Lookup(child, p[|path|..]) else None
    case MidBranchLeaf(_, value, child) => if p == [] then Some(value) else Lookup(child, p)
    case Leaf(_, value) => if p == [] then Some(value) else None
  }

  // ----- The independent view of a trie: its entries, listed in key order -----

  datatype Entry<V> = Entry(key: Path, value: V)

  function Under<V>(prefix: Path, es: seq<Entry<V>>): (r: seq<Entry<V>>)
    ensures |r| == |es|
    ensures forall i :: 0 <= i < |es| ==> r[i] == Entry(prefix + es[i].key, es[i].value)
  {
    seq(|es|, i requires 0 <= i < |es| => Entry(prefix + es[i].key, es[i].value))
  }

  function Entries<V, N>(n: Node<V, N>): seq<Entry<V>>
    decreases n, 0
  {
    match n
    case Empty => []
    case Branch(_, ch) => ChildEntries(ch, |ch|)
    case Extension(_, path, child) => Under(path, Entries(child))
    case MidBranchLeaf(_, value, child) => [Entry([], value)] + Entries(child)
    case Leaf(_, value) => [Entry([], value)]
  }

  /** The entries of the first `k` children, each under its own nibble. */
  function ChildEntries<V, N>(ch: seq<Node<V, N>>, k: nat): seq<Entry<V>>
    requires k <= |ch|
    decreases ch, k
  {
    if k == 0 then [] else ChildEntries(ch, k - 1) + Under([k - 1], Entries(ch[k - 1]))
  }

  /** The value of the first entry under a key. */
  function Find<V>(es: seq<Entry<V>>, p: Path): Option<V>
  {
    if es == [] then None else if es[0].key == p then Some(es[0].value) else Find(es[1..], p)
  }

  function MapEntries<A, B>(es: seq<Entry<A>>, f: A -> B): (r: seq<Entry<B>>)
    ensures |r| == |es|
    ensures forall i :: 0 <= i < |es| ==> r[i] == Entry(es[i].key, f(es[i].value))
  {
    seq(|es|, i requires 0 <= i < |es| => Entry(es[i].key, f(es[i].value)))
  }

  /** The annotation of a list of entries: the fold of its values, left to right. */
  function Total<V, N>(m: Annotation<V, N>, es: seq<Entry<V>>): N
  {
    if es == [] then m.empty
    else m.append(Total(m, es[..|es| - 1]), m.fromValue(es[|es| - 1].value))
  }

  /** Every non-empty node carries the total of the entries below it. */
  ghost predicate WellAnnotated<V, N>(n: Node<V, N>, m: Annotation<V, N>)
    decreases n
  {
    && (n.Empty? || n.ann == Total(m, Entries(n)))
    && (match n
        case Empty => true
        case Branch(_, ch) => forall i :: 0 <= i < |ch| ==> WellAnnotated(ch[i], m)
        case Extension(_, _, child) => WellAnnotated(child, m)
        case MidBranchLeaf(_, _, child) => WellAnnotated(child, m)
        case Leaf(_, _) => true)
  }

  /** Node for node the same trie, with every value sent through `f`. */
  ghost predicate SameShape<A, M, B, N>(n: Node<A, M>, t: Node<B, N>, f: A -> B)
    decreases n
  {
    match n
    case Empty => t.Empty?
    case Branch(_, ch) =>
      t.Branch? && |t.children| == |ch| && forall i :: 0 <= i < |ch| ==> SameShape(ch[i], t.children[i], f)
    case Extension(_, path, child) => t.Extension? && t.path == path && SameShape(child, t.child, f)
    case MidBranchLeaf(_, value, child) =>
      t.MidBranchLeaf? && t.value == f(value) && SameShape(child, t.child, f)
    case Leaf(_, value) => t.Leaf? && t.value == f(value)
  }

  /** Lexicographic order on paths. */
  predicate LexLe(p: Path, q: Path)
  {
    p == [] || (q != [] && (p[0] < q[0] || (p[0] == q[0] && LexLe(p[1..], q[1..]))))
  }

  ghost predicate InKeyOrder<V>(es: seq<Entry<V>>)
  {
    forall i, j :: 0 <= i < j < |es| ==> LexLe(es[i].key, es[j].key)
  }

  ghost predicate Distinct<V>(es: seq<Entry<V>>)
  {
    forall i, j :: 0 <= i < j < |es| ==> es[i].key != es[j].key
  }

  /** No value sits behind another one: the child of a MidBranchLeaf never holds the empty key. */
  predicate Unshadowed<V, N>(n: Node<V, N>)
  {
    match n
    case Empty => true
    case Branch(_, ch) => forall i :: 0 <= i < |ch| ==> Unshadowed(ch[i])
    case Extension(_, _, child) => Unshadowed(child)
    case MidBranchLeaf(_, _, child) => Lookup(child, []).None? && Unshadowed(child)
    case Leaf(_, _) => true
  }
}
