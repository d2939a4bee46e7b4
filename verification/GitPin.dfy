/** The version printer that a build script runs and the parser that reads its output back. */
module GitPin {
  import opened Common
  import opened Strings

  /** A mutable ref: its kind, `tag` or `branch`, and its name. */
  datatype Ref = Ref(kind: string, name: string)

  datatype Pin = Pin(ref: Option<Ref>, commit: string)

  // ----- The printer -----

  predicate IsRefParam(p: string)
  {
    "tag=" <= p || "branch=" <= p
  }

  /** The first `&`-separated part of a query that names a tag or a branch. */
  function FindRef(query: string): Option<string>
    decreases |query|
  {
    match SplitOnce(query, "&")
    case None => if IsRefParam(query) then Some(query) else None
    case Some((p, rest)) =>
      if IsRefParam(p) then Some(p)
      else if |rest| < |query| then FindRef(rest) else None
  }

  /** `replacen('=', ": ", 1)` */
  function ReplaceFirstEquals(p: string): string
  {
    match SplitOnce(p, "=")
    case None => p
    case Some((a, b)) => a + ": " + b
  }

  function LabelOf(locator: string): string
  {
    match SplitOnce(locator, "?")
    case None => ""
    case Some((_, query)) =>
      match FindRef(query)
      case None => ""
      case Some(p) => ReplaceFirstEquals(p) + ", "
  }

  /** `format_version` */
  function FormatVersion(version: string, source: Option<string>): string
  {
    if source.None? || !("git+" <= source.value) then version
    else
      var git := source.value[4..];
      var (locator, commit) := match SplitOnce(git, "#") case None => (git, "unknown") case Some(p) => p;
      version + " (" + LabelOf(locator) + "rev: " + commit + ")"
  }

  // ----- The parser -----

  predicate IsHex(c: char)
  {
    '0' <= c <= '9' || 'a' <= c <= 'f' || 'A' <= c <= 'F'
  }

  predicate IsCommit(s: string)
  {
    |s| == 40 && forall i :: 0 <= i < |s| ==> IsHex(s[i])
  }

  function ParseRev(ref: Option<Ref>, rev: string): Option<Pin>
  {
    match StripPrefix(rev, "rev: ")
    case None => None
    case Some(commit) => if IsCommit(commit) then Some(Pin(ref, commit)) else None
  }

  function ParseInner(inner: string): Option<Pin>
  {
    match SplitOnce(inner, ", ")
    case None => ParseRev(None, inner)
    case Some((head, rev)) =>
      match SplitOnce(head, ": ")
      case None => None
      case Some((kind, name)) =>
        if (kind != "tag" && kind != "branch") || name == "" then None
        else ParseRev(Some(Ref(kind, name)), rev)
  }

  /** `parse_git_pin` */
  function ParseGitPin(version: string): Option<Pin>
  {
    match SplitOnce(version, " (")
    case None => None
    case Some((_, rest)) =>
      match StripLast(rest, ')')
      case None => None
      case Some(inner) => ParseInner(inner)
  }

  // ----- What a pin looks like in print -----

  function Label(ref: Option<Ref>): string
  {
    match ref case None => "" case Some(r) => r.kind + ": " + r.name + ", "
  }

  function Inner(pin: Pin): string
  {
    Label(pin.ref) + "rev: " + pin.commit
  }

  function Render(version: string, pin: Pin): string
  {
    version + " (" + Inner(pin) + ")"
  }

  ghost predicate ValidRef(r: Ref)
  {
    (r.kind == "tag" || r.kind == "branch") && r.name != "" && !Contains(r.name, ", ")
  }

  const HEX_DIGITS := "0123456789abcdefABCDEF"

  /** Forty hex digits of either case. */
  predicate FullCommit(s: string)
  {
    |s| == 40 && forall i :: 0 <= i < |s| ==> s[i] in HEX_DIGITS
  }

  ghost predicate ValidPin(pin: Pin)
  {
    FullCommit(pin.commit) && (pin.ref.Some? ==> ValidRef(pin.ref.value))
  }

  lemma HexDigits(c: char)
    ensures IsHex(c) <==> c in HEX_DIGITS
  {
    if IsHex(c) {
      var i := if c <= '9' then c as int - '0' as int
               else if c <= 'F' then c as int - 'A' as int + 16
               else c as int - 'a' as int + 10;
      assert HEX_DIGITS[i] == c;
    }
  }

  lemma FullCommitIff(s: string)
    ensures IsCommit(s) <==> FullCommit(s)
  {
    hide IsHex;
    forall i | 0 <= i < |s| ensures IsHex(s[i]) <==> s[i] in HEX_DIGITS {
      HexDigits(s[i]);
    }
  }

  // ----- The parser accepts exactly what such a print looks like -----

  lemma RevHasNoComma(commit: string)
    requires IsCommit(commit)
    ensures !Contains("rev: " + commit, ", ")
  {
    AvoidsSeparator("rev: " + commit, ", ");
  }

  lemma KindHasNoComma(r: Ref)
    requires r.kind == "tag" || r.kind == "branch"
    ensures Contains(r.kind + ": " + r.name, ", ") <==> Contains(r.name, ", ")
    ensures !Contains(r.kind, ": ")
  {
    PrefixAvoids(r.kind + ": ", r.name, ", ");
    AvoidsSeparator(r.kind, ": ");
  }

  lemma ParseRevIff(ref: Option<Ref>, rev: string, pin: Pin)
    ensures ParseRev(ref, rev) == Some(pin)
       <==> pin.ref == ref && IsCommit(pin.commit) && rev == "rev: " + pin.commit
  {
  }

  lemma ParseInnerSound(inner: string, pin: Pin)
    requires ParseInner(inner) == Some(pin)
    ensures ValidPin(pin) && inner == Inner(pin)
  {
    hide IsCommit, FullCommit;
    FullCommitIff(pin.commit);
    match SplitOnce(inner, ", ")
    case None =>
      ParseRevIff(None, inner, pin);
    case Some((head, rev)) =>
      SplitOnceIff(inner, ", ", head, rev);
      var (kind, name) := SplitOnce(head, ": ").value;
      SplitOnceIff(head, ": ", kind, name);
      ParseRevIff(Some(Ref(kind, name)), rev, pin);
      KindHasNoComma(Ref(kind, name));
      assert inner == (kind + ": " + name) + ", " + ("rev: " + pin.commit);
  }

  lemma ParseInnerComplete(pin: Pin)
    requires ValidPin(pin)
    ensures ParseInner(Inner(pin)) == Some(pin)
  {
    hide IsCommit, FullCommit;
    FullCommitIff(pin.commit);
    var rev := "rev: " + pin.commit;
    match pin.ref
    case None =>
      RevHasNoComma(pin.commit);
      assert Inner(pin) == rev;
      SplitOnceNone(rev, ", ");
      ParseRevIff(None, rev, pin);
    case Some(r) =>
      KindHasNoComma(r);
      assert Inner(pin) == (r.kind + ": " + r.name) + ", " + rev;
      SplitOnceIff(Inner(pin), ", ", r.kind + ": " + r.name, rev);
      SplitOnceIff(r.kind + ": " + r.name, ": ", r.kind, r.name);
      ParseRevIff(Some(r), rev, pin);
  }

  /** A string parses to a pin exactly when it is some version, itself without ` (`, followed by the
      print of that pin, and the pin is well formed. */
  lemma ParseIff(s: string, pin: Pin)
    ensures ParseGitPin(s) == Some(pin)
       <==> ValidPin(pin) && exists v :: !Contains(v, " (") && s == Render(v, pin)
  {
    if ParseGitPin(s) == Some(pin) {
      var (v, rest) := SplitOnce(s, " (").value;
      SplitOnceIff(s, " (", v, rest);
      var inner := StripLast(rest, ')').value;
      assert rest == inner + ")";
      ParseInnerSound(inner, pin);
      assert s == Render(v, pin);
    }
    if ValidPin(pin) {
      forall v | !Contains(v, " (") && s == Render(v, pin) ensures ParseGitPin(s) == Some(pin) {
        ParseRendered(v, pin);
      }
    }
  }

  lemma ParseRendered(v: string, pin: Pin)
    requires ValidPin(pin) && !Contains(v, " (")
    ensures ParseGitPin(Render(v, pin)) == Some(pin)
  {
    var rest := Inner(pin) + ")";
    assert Render(v, pin) == v + " (" + rest;
    SplitOnceIff(Render(v, pin), " (", v, rest);
    assert rest[..|rest| - 1] == Inner(pin);
    ParseInnerComplete(pin);
  }

  // ----- The printer prints pins -----

  function Join(params: seq<string>): string
    requires params != []
  {
    if |params| == 1 then params[0] else params[0] + "&" + Join(params[1..])
  }

  /** The source string of a git dependency. */
  function Source(url: string, params: seq<string>, commit: string): string
  {
    "git+" + url + (if params == [] then "" else "?" + Join(params)) + "#" + commit
  }

  function ParamRef(p: string): Ref
    requires IsRefParam(p)
  {
    if "tag=" <= p then Ref("tag", p[4..]) else Ref("branch", p[7..])
  }

  /** The ref a list of query parameters names: its first tag or branch. */
  function RefOf(params: seq<string>): Option<Ref>
  {
    if params == [] then None
    else if "tag=" <= params[0] then Some(Ref("tag", params[0][4..]))
    else if "branch=" <= params[0] then Some(Ref("branch", params[0][7..]))
    else RefOf(params[1..])
  }

  lemma CharAbsent(s: string, c: char)
    ensures Contains(s, [c]) <==> c in s
  {
    if c in s {
      var i :| 0 <= i < |s| && s[i] == c;
      assert OccursAt(s, [c], i);
    } else {
      AvoidsSeparator(s, [c]);
    }
  }

  lemma {:induction false} FindRefInJoin(params: seq<string>)
    requires params != [] && forall i :: 0 <= i < |params| ==> '&' !in params[i]
    ensures FindRef(Join(params)).Some? <==> RefOf(params).Some?
    ensures FindRef(Join(params)).Some? ==>
              IsRefParam(FindRef(Join(params)).value) && ParamRef(FindRef(Join(params)).value) == RefOf(params).value
  {
    CharAbsent(params[0], '&');
    if |params| == 1 {
      SplitOnceNone(params[0], "&");
      assert RefOf(params[1..]) == None;
    } else {
      FindRefInJoin(params[1..]);
      SplitOnceIff(Join(params), "&", params[0], Join(params[1..]));
    }
  }

  lemma PrintedParam(p: string)
    requires IsRefParam(p)
    ensures ReplaceFirstEquals(p) == ParamRef(p).kind + ": " + ParamRef(p).name
  {
    var r := ParamRef(p);
    assert p == r.kind + "=" + r.name by {
      if "tag=" <= p { assert p == "tag" + "=" + p[4..]; } else { assert p == "branch" + "=" + p[7..]; }
    }
    AvoidsSeparator(r.kind, "=");
    SplitOnceIff(p, "=", r.kind, r.name);
  }

  predicate GoodSource(url: string, params: seq<string>)
  {
    && '#' !in url && '?' !in url
    && forall i :: 0 <= i < |params| ==> '&' !in params[i] && '#' !in params[i]
  }

  lemma {:induction false} JoinHasNoHash(params: seq<string>)
    requires params != [] && forall i :: 0 <= i < |params| ==> '#' !in params[i]
    ensures '#' !in Join(params)
  {
    if |params| > 1 { JoinHasNoHash(params[1..]); }
  }

  lemma LocatorLabel(url: string, params: seq<string>)
    requires GoodSource(url, params)
    ensures LabelOf(url + if params == [] then "" else "?" + Join(params)) == Label(RefOf(params))
  {
    CharAbsent(url, '?');
    if params == [] {
      assert url + "" == url;
      SplitOnceNone(url, "?");
    } else {
      assert url + ("?" + Join(params)) == url + "?" + Join(params);
      SplitOnceIff(url + ("?" + Join(params)), "?", url, Join(params));
      FindRefInJoin(params);
      if RefOf(params).Some? { PrintedParam(FindRef(Join(params)).value); }
    }
  }

  /** What is printed for a locator and whatever follows its first `#`. */
  lemma FormatAtHash(version: string, locator: string, commit: string)
    requires '#' !in locator
    ensures FormatVersion(version, Some("git+" + locator + "#" + commit))
         == version + " (" + LabelOf(locator) + "rev: " + commit + ")"
  {
    hide SplitOnce, LabelOf;
    var source := "git+" + locator + "#" + commit;
    assert source[4..] == locator + "#" + commit;
    CharAbsent(locator, '#');
    SplitOnceIff(source[4..], "#", locator, commit);
  }

  lemma RenderRegroups(version: string, pin: Pin)
    ensures Render(version, pin) == version + " (" + Label(pin.ref) + "rev: " + pin.commit + ")"
  {
  }

  /** Printing a git dependency gives the print of its pin. */
  lemma FormatPrintsPin(version: string, url: string, params: seq<string>, commit: string)
    requires GoodSource(url, params)
    ensures FormatVersion(version, Some(Source(url, params, commit))) == Render(version, Pin(RefOf(params), commit))
  {
    hide LabelOf, FormatVersion, Label, Render;
    var locator := url + if params == [] then "" else "?" + Join(params);
    assert Source(url, params, commit) == "git+" + locator + "#" + commit;
    if params != [] { JoinHasNoHash(params); }
    FormatAtHash(version, locator, commit);
    LocatorLabel(url, params);
    RenderRegroups(version, Pin(RefOf(params), commit));
  }

  /** The three forms in full: a tag, a branch, and a commit alone. */
  lemma PrintedForms(version: string, url: string, name: string, commit: string)
    requires '#' !in url && '?' !in url && '&' !in name && '#' !in name
    ensures FormatVersion(version, Some("git+" + url + "?tag=" + name + "#" + commit))
         == version + " (tag: " + name + ", rev: " + commit + ")"
    ensures FormatVersion(version, Some("git+" + url + "?branch=" + name + "#" + commit))
         == version + " (branch: " + name + ", rev: " + commit + ")"
    ensures FormatVersion(version, Some("git+" + url + "#" + commit)) == version + " (rev: " + commit + ")"
  {
    hide FormatVersion;
    PrintedRef(version, url, "tag=", Ref("tag", name), commit);
    PrintedRef(version, url, "branch=", Ref("branch", name), commit);
    FormatPrintsPin(version, url, [], commit);
    assert Source(url, [], commit) == "git+" + url + "#" + commit;
    assert "?" + "tag=" == "?tag=" && "?" + "branch=" == "?branch=";
    assert "git+" + url + "?tag=" == "git+" + url + "?" + "tag=";
    assert "git+" + url + "?branch=" == "git+" + url + "?" + "branch=";
    assert version + " (" + "tag: " == version + " (tag: " && version + " (" + "branch: " == version + " (branch: ";
    assert version + " (rev: " == version + " (" + "rev: ";
  }

  lemma PrintedRef(version: string, url: string, param: string, r: Ref, commit: string)
    requires '#' !in url && '?' !in url && '&' !in r.name && '#' !in r.name
    requires (param == "tag=" && r.kind == "tag") || (param == "branch=" && r.kind == "branch")
    ensures FormatVersion(version, Some("git+" + url + "?" + param + r.name + "#" + commit))
         == version + " (" + (r.kind + ": ") + r.name + ", rev: " + commit + ")"
  {
    NamedParam(param, r);
    hide FormatVersion, Source, Render, RefOf, GoodSource;
    OneParamIsGood(url, param, r.name);
    FormatPrintsPin(version, url, [param + r.name], commit);
    SourceOfOne(url, param, r.name, commit);
    RenderedRef(version, r, commit);
  }

  lemma OneParamIsGood(url: string, param: string, name: string)
    requires '#' !in url && '?' !in url && '&' !in name && '#' !in name && (param == "tag=" || param == "branch=")
    ensures GoodSource(url, [param + name])
  {
  }

  lemma RenderedRef(version: string, r: Ref, commit: string)
    ensures Render(version, Pin(Some(r), commit))
         == version + " (" + (r.kind + ": ") + r.name + ", rev: " + commit + ")"
  {
    hide Render;
    RenderRegroups(version, Pin(Some(r), commit));
    RefRegroups(version + " (", r.kind + ": ", r.name, commit + ")");
  }

  lemma SourceOfOne(url: string, param: string, name: string, commit: string)
    ensures Source(url, [param + name], commit) == "git+" + url + "?" + param + name + "#" + commit
  {
  }

  lemma RefRegroups(front: string, kind: string, name: string, back: string)
    ensures front + (kind + name + ", ") + "rev: " + back == front + kind + name + ", rev: " + back
  {
    assert ", " + "rev: " == ", rev: ";
  }

  lemma NamedParam(param: string, r: Ref)
    requires (param == "tag=" && r.kind == "tag") || (param == "branch=" && r.kind == "branch")
    ensures RefOf([param + r.name]) == Some(r)
  {
    var p := param + r.name;
    assert p[..|param|] == param && p[|param|..] == r.name;
    if param == "branch=" { assert p[0] == 'b'; }
  }

  /** Printer and parser undo each other: for every git dependency locked to a full commit, the pin is
      read back exactly when its ref, if it has one, has a name without `, `. */
  lemma RoundTripIff(version: string, url: string, params: seq<string>, commit: string)
    requires !Contains(version, " (") && GoodSource(url, params) && FullCommit(commit)
    ensures ParseGitPin(FormatVersion(version, Some(Source(url, params, commit)))) == Some(Pin(RefOf(params), commit))
       <==> (RefOf(params).Some? ==> RefOf(params).value.name != "" && !Contains(RefOf(params).value.name, ", "))
  {
    var pin := Pin(RefOf(params), commit);
    FormatPrintsPin(version, url, params, commit);
    RefKinds(params);
    ParseIff(Render(version, pin), pin);
  }

  lemma {:induction false} RefKinds(params: seq<string>)
    ensures RefOf(params).Some? ==> RefOf(params).value.kind == "tag" || RefOf(params).value.kind == "branch"
  {
    if params != [] { RefKinds(params[1..]); }
  }

  /** A registry or path dependency carries no pin. */
  lemma RegistryHasNoPin(version: string, source: Option<string>)
    requires !Contains(version, " (") && (source.Some? ==> !("git+" <= source.value))
    ensures FormatVersion(version, source) == version
    ensures ParseGitPin(version) == None
  {
    SplitOnceNone(version, " (");
  }

  /** The character before the last one of a parsed string is the end of its commit. */
  lemma ParsedEndsInHex(s: string, pin: Pin)
    requires ParseGitPin(s) == Some(pin)
    ensures |s| >= 2 && s[|s| - 2] in HEX_DIGITS
  {
    hide ParseGitPin;
    ParseIff(s, pin);
    var v :| s == Render(v, pin);
    RenderRegroups(v, pin);
    assert s[|s| - 2] == pin.commit[39];
  }

  /** A git source without a locked commit is printed as unknown, which is no pin. */
  lemma UnlockedHasNoPin(version: string, source: string)
    requires "git+" <= source && '#' !in source
    ensures FormatVersion(version, Some(source)) == version + " (" + LabelOf(source[4..]) + "rev: unknown)"
    ensures ParseGitPin(FormatVersion(version, Some(source))) == None
  {
    hide ParseGitPin, LabelOf;
    CharAbsent(source[4..], '#');
    SplitOnceNone(source[4..], "#");
    var s := FormatVersion(version, Some(source));
    assert s[|s| - 2] == 'n';
    assert s == version + " (" + LabelOf(source[4..]) + "rev: unknown)";
    if ParseGitPin(s).Some? {
      ParsedEndsInHex(s, ParseGitPin(s).value);
      assert false;
    }
  }

  // ----- Which ref names survive -----

  function RefSource(url: string, r: Ref, commit: string): string
  {
    "git+" + url + "?" + r.kind + "=" + r.name + "#" + commit
  }

  lemma RenderedVersion(v: string, w: string, p: Pin, q: Pin)
    requires !Contains(v, " (") && !Contains(w, " (") && Render(v, p) == Render(w, q)
    ensures v == w && Inner(p) == Inner(q)
  {
    var s := Render(v, p);
    assert s == v + " (" + (Inner(p) + ")") && s == w + " (" + (Inner(q) + ")");
    SplitOnceIff(s, " (", v, Inner(p) + ")");
    SplitOnceIff(s, " (", w, Inner(q) + ")");
    assert (Inner(p) + ")")[..|Inner(p)|] == Inner(p) && (Inner(q) + ")")[..|Inner(q)|] == Inner(q);
  }

  /** A `#` in the name ends up in the commit, which then is not one. */
  lemma HashBreaksCommit(s: string, junk: string, pin: Pin)
    requires |pin.commit| == 40 && s == junk + "#" + pin.commit + ")"
    ensures ParseGitPin(s) != Some(pin)
  {
    ParseIff(s, pin);
    forall v ensures s != Render(v, pin) {
      var t := Render(v, pin);
      if |t| == |s| {
        assert t == (v + " (" + Label(pin.ref) + "rev:") + " " + pin.commit + ")";
        assert t[|t| - 42] == ' ';
        assert s[|s| - 42] == '#';
      }
    }
  }

  /** The print of a source whose ref name holds a `#`. */
  lemma HashMovesToCommit(version: string, url: string, kind: string, a: string, b: string, commit: string)
    requires '#' !in url && '#' !in a && (kind == "tag" || kind == "branch")
    ensures exists junk :: FormatVersion(version, Some(RefSource(url, Ref(kind, a + "#" + b), commit)))
                        == junk + "#" + commit + ")"
  {
    hide LabelOf, FormatVersion;
    var locator := url + "?" + kind + "=" + a;
    assert RefSource(url, Ref(kind, a + "#" + b), commit) == "git+" + locator + "#" + (b + "#" + commit);
    FormatAtHash(version, locator, b + "#" + commit);
    Regroup(version + " (" + LabelOf(locator) + "rev: ", b, commit);
  }

  lemma Regroup(front: string, b: string, commit: string)
    ensures front + (b + "#" + commit) + ")" == (front + b) + "#" + commit + ")"
  {
  }

  lemma NameWithHash(version: string, url: string, r: Ref, commit: string)
    requires '#' !in url && '#' in r.name && (r.kind == "tag" || r.kind == "branch") && |commit| == 40
    ensures ParseGitPin(FormatVersion(version, Some(RefSource(url, r, commit)))) != Some(Pin(Some(r), commit))
  {
    hide RefSource, FormatVersion, ParseGitPin;
    CharAbsent(r.name, '#');
    SplitOnceNone(r.name, "#");
    var (a, b) := SplitOnce(r.name, "#").value;
    SplitOnceIff(r.name, "#", a, b);
    CharAbsent(a, '#');
    HashMovesToCommit(version, url, r.kind, a, b, commit);
    assert r == Ref(r.kind, a + "#" + b);
    var s := FormatVersion(version, Some(RefSource(url, r, commit)));
    var junk :| s == junk + "#" + commit + ")";
    HashBreaksCommit(s, junk, Pin(Some(r), commit));
  }

  lemma NameWithAmpersand(version: string, url: string, r: Ref, commit: string)
    requires !Contains(version, " (")
    requires '#' !in url && '?' !in url && '&' in r.name && '#' !in r.name && (r.kind == "tag" || r.kind == "branch")
    ensures ParseGitPin(FormatVersion(version, Some(RefSource(url, r, commit)))) != Some(Pin(Some(r), commit))
  {
    CharAbsent(r.name, '&');
    SplitOnceNone(r.name, "&");
    var (a, b) := SplitOnce(r.name, "&").value;
    SplitOnceIff(r.name, "&", a, b);
    CharAbsent(a, '&');
    var short := Ref(r.kind, a);
    AmpersandCuts(version, url, short, b, commit);
    var pin := Pin(Some(r), commit);
    var s := FormatVersion(version, Some(RefSource(url, r, commit)));
    assert RefSource(url, r, commit) == RefSource(url, Ref(r.kind, a + "&" + b), commit);
    assert s == Render(version, Pin(Some(short), commit));
    ParseIff(s, pin);
    forall v | !Contains(v, " (") ensures s != Render(v, pin) {
      if s == Render(v, pin) {
        RenderedVersion(version, v, Pin(Some(short), commit), pin);
        assert false;
      }
    }
  }

  /** An `&` cuts the name short. */
  lemma AmpersandCuts(version: string, url: string, r: Ref, tail: string, commit: string)
    requires '#' !in url && '?' !in url && '&' !in r.name && '#' !in r.name && '#' !in tail
    requires r.kind == "tag" || r.kind == "branch"
    ensures FormatVersion(version, Some(RefSource(url, Ref(r.kind, r.name + "&" + tail), commit)))
         == Render(version, Pin(Some(r), commit))
  {
    var query := r.kind + "=" + r.name + "&" + tail;
    var locator := url + "?" + query;
    hide LabelOf, FormatVersion, Render;
    assert RefSource(url, Ref(r.kind, r.name + "&" + tail), commit) == "git+" + locator + "#" + commit;
    FormatAtHash(version, locator, commit);
    CutLabel(url, r, tail);
    RenderRegroups(version, Pin(Some(r), commit));
  }

  lemma CutLabel(url: string, r: Ref, tail: string)
    requires '?' !in url && '&' !in r.name && (r.kind == "tag" || r.kind == "branch")
    ensures LabelOf(url + "?" + (r.kind + "=" + r.name + "&" + tail)) == Label(Some(r))
  {
    hide SplitOnce, ReplaceFirstEquals, IsRefParam, ParamRef;
    var param := r.kind + "=" + r.name;
    var query := param + "&" + tail;
    CharAbsent(url, '?');
    SplitOnceIff(url + "?" + query, "?", url, query);
    CharAbsent(param, '&');
    SplitOnceIff(query, "&", param, tail);
    ParamOfRef(r);
    PrintedParam(param);
  }

  lemma ParamOfRef(r: Ref)
    requires r.kind == "tag" || r.kind == "branch"
    ensures IsRefParam(r.kind + "=" + r.name) && ParamRef(r.kind + "=" + r.name) == r
  {
    var param := r.kind + "=" + r.name;
    if r.kind == "tag" {
      assert param[..4] == "tag=" && param[4..] == r.name;
    } else {
      assert param[..7] == "branch=" && param[7..] == r.name;
      assert param[0] == 'b';
    }
  }

  /** A tag or branch name survives the round trip exactly when it is not empty and free of `#`, `&`
      and `, `. */
  lemma NameSurvivesIff(version: string, url: string, r: Ref, commit: string)
    requires !Contains(version, " (") && '#' !in url && '?' !in url && FullCommit(commit)
    requires r.kind == "tag" || r.kind == "branch"
    ensures ParseGitPin(FormatVersion(version, Some(RefSource(url, r, commit)))) == Some(Pin(Some(r), commit))
       <==> r.name != "" && '#' !in r.name && '&' !in r.name && !Contains(r.name, ", ")
  {
    if '#' in r.name {
      NameWithHash(version, url, r, commit);
    } else if '&' in r.name {
      NameWithAmpersand(version, url, r, commit);
    } else {
      var param := r.kind + "=" + r.name;
      ParamOfRef(r);
      assert RefSource(url, r, commit) == Source(url, [param], commit);
      RoundTripIff(version, url, [param], commit);
    }
  }
}
