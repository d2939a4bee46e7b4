/** Searching and splitting strings at the first occurrence of a separator. */
module Strings {
  import opened Common

  predicate OccursAt(s: string, sep: string, i: int)
  {
    0 <= i && i + |sep| <= |s| && forall k :: 0 <= k < |sep| ==> s[i + k] == sep[k]
  }

  ghost predicate Contains(s: string, sep: string)
  {
    exists i :: OccursAt(s, sep, i)
  }

  /** The position of the first occurrence. */
  function IndexOf(s: string, sep: string): Option<nat>
  {
    if |s| < |sep| then None
    else if s[..|sep|] == sep then Some(0)
    else if s == [] then None
    else match IndexOf(s[1..], sep) case None => None case Some(i) => Some(i + 1)
  }

  lemma {:induction false} IndexOfIsFirst(s: string, sep: string)
    ensures match IndexOf(s, sep)
            case None => !Contains(s, sep)
            case Some(i) => OccursAt(s, sep, i) && forall j :: 0 <= j < i ==> !OccursAt(s, sep, j)
  {
    if |s| >= |sep| {
      assert s[..|sep|] == sep <==> OccursAt(s, sep, 0);
      if s[..|sep|] != sep && s != [] {
        IndexOfIsFirst(s[1..], sep);
        forall j | 1 <= j ensures OccursAt(s, sep, j) <==> OccursAt(s[1..], sep, j - 1) {
        }
      }
    }
  }

  /** `split_once` */
  function SplitOnce(s: string, sep: string): Option<(string, string)>
  {
    match IndexOf(s, sep)
    case None => None
    case Some(i) => if i + |sep| <= |s| then Some((s[..i], s[i + |sep|..])) else None
  }

  /** A separator that cannot overlap itself. */
  predicate Separator(sep: string)
  {
    |sep| == 1 || (|sep| == 2 && sep[0] != sep[1])
  }

  /** Splitting is the inverse of joining: it returns the only decomposition whose first part does
      not contain the separator. */
  lemma SplitOnceIff(s: string, sep: string, a: string, b: string)
    requires Separator(sep)
    ensures SplitOnce(s, sep) == Some((a, b)) <==> s == a + sep + b && !Contains(a, sep)
  {
    IndexOfIsFirst(s, sep);
    if SplitOnce(s, sep) == Some((a, b)) {
      SplitFound(s, sep, a, b);
    }
    if s == a + sep + b && !Contains(a, sep) {
      FirstIsTheJoint(sep, a, b);
    }
  }

  lemma SplitFound(s: string, sep: string, a: string, b: string)
    requires Separator(sep) && SplitOnce(s, sep) == Some((a, b))
    ensures s == a + sep + b && !Contains(a, sep)
  {
    IndexOfIsFirst(s, sep);
    var i := IndexOf(s, sep).value;
    assert s[i..i + |sep|] == sep;
    assert s == s[..i] + s[i..i + |sep|] + s[i + |sep|..];
    forall j ensures OccursAt(a, sep, j) ==> OccursAt(s, sep, j) && j < i {
    }
  }

  lemma NotBeforeTheJoint(sep: string, a: string, b: string, j: nat)
    requires Separator(sep) && !Contains(a, sep) && j < |a|
    ensures !OccursAt(a + sep + b, sep, j)
  {
    var s := a + sep + b;
    if j + |sep| <= |a| {
      assert !OccursAt(a, sep, j);
    } else {
      assert j + 1 == |a| && s[j + 1] == sep[0];
    }
  }

  lemma FirstOccurrence(s: string, sep: string, i: nat)
    requires OccursAt(s, sep, i) && forall j :: 0 <= j < i ==> !OccursAt(s, sep, j)
    ensures IndexOf(s, sep) == Some(i)
  {
    IndexOfIsFirst(s, sep);
  }

  lemma FirstIsTheJoint(sep: string, a: string, b: string)
    requires Separator(sep) && !Contains(a, sep)
    ensures SplitOnce(a + sep + b, sep) == Some((a, b))
  {
    hide IndexOf, Contains;
    var s := a + sep + b;
    assert OccursAt(s, sep, |a|);
    hide OccursAt;
    forall j | 0 <= j < |a| ensures !OccursAt(s, sep, j) {
      NotBeforeTheJoint(sep, a, b, j);
    }
    FirstOccurrence(s, sep, |a|);
    assert s[..|a|] == a && s[|a| + |sep|..] == b;
  }

  /** Splitting fails exactly when the separator is absent. */
  lemma SplitOnceNone(s: string, sep: string)
    ensures SplitOnce(s, sep).None? <==> !Contains(s, sep)
  {
    IndexOfIsFirst(s, sep);
  }

  /** A string whose characters avoid the separator's first character does not contain it. */
  lemma AvoidsSeparator(s: string, sep: string)
    requires |sep| >= 1 && sep[0] !in s
    ensures !Contains(s, sep)
  {
  }

  /** Prefixing characters that avoid the separator's first character changes nothing. */
  lemma PrefixAvoids(p: string, s: string, sep: string)
    requires |sep| >= 1 && sep[0] !in p
    ensures Contains(p + s, sep) <==> Contains(s, sep)
  {
    forall i ensures OccursAt(p + s, sep, i) ==> OccursAt(s, sep, i - |p|) {
      assert 0 <= i < |p| ==> (p + s)[i + 0] in p;
    }
    forall i ensures OccursAt(s, sep, i) ==> OccursAt(p + s, sep, i + |p|) {
    }
  }

  function StripPrefix(s: string, p: string): Option<string>
  {
    if p <= s then Some(s[|p|..]) else None
  }

  function StripLast(s: string, c: char): Option<string>
  {
    if s != [] && s[|s| - 1] == c then Some(s[..|s| - 1]) else None
  }
}
