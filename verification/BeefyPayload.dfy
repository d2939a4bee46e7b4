/** The BEEFY payload between two programs: the node packs stakes and authority sets into it, the
    relay unpacks them, rebuilds the Merkle leaves and must arrive at the same root. */
module BeefyPayload {
  import opened Common
  import opened Scale
  import opened BeefyStakes

  // ----- Encodings -----

  function ConcatLeaves(stakes: seq<Stake>): (r: Bytes)
    ensures |r| == 41 * |stakes|
  {
    if stakes == [] then [] else LeafBytes(stakes[0]) + ConcatLeaves(stakes[1..])
  }

  /** A list of stakes: its length, then each key and stake. */
  function EncodeStakes(stakes: seq<Stake>): Bytes
    requires |stakes| < U32_BOUND
  {
    EncodeCompact(|stakes|) + ConcatLeaves(stakes)
  }

  function DecodeStake(b: Bytes): Stake
    requires |b| == 41
  {
    FromLeBound(b[33..]);
    Powers();
    Stake(b[..33], FromLe(b[33..]))
  }

  function DecodeItems(b: Bytes, n: nat): Option<seq<Stake>>
    decreases n
  {
    if n == 0 then Some([])
    else if |b| < 41 then None
    else
      match DecodeItems(b[41..], n - 1)
      case None => None
      case Some(rest) => Some([DecodeStake(b[..41])] + rest)
  }

  /** Decoding ignores bytes after the value, as the codec does. */
  function DecodeStakes(b: Bytes): Option<seq<Stake>>
  {
    match DecodeCompact(b)
    case None => None
    case Some((n, rest)) => DecodeItems(rest, n)
  }

  function EncodeSet(s: AuthoritySet): (r: Bytes)
    ensures |r| == 44
  {
    LeBytes(s.id, 8) + LeBytes(s.len, 4) + s.commitment
  }

  function DecodeSet(b: Bytes): Option<AuthoritySet>
  {
    if |b| < 44 then None
    else
      FromLeBound(b[..8]);
      FromLeBound(b[8..12]);
      Powers();
      Some(AuthoritySet(FromLe(b[..8]), FromLe(b[8..12]), b[12..44]))
  }

  lemma StakeRoundTrip(s: Stake)
    ensures DecodeStake(LeafBytes(s)) == s
  {
    hide LeBytes, FromLe;
    LeU64(s.amount);
    assert LeafBytes(s)[..33] == s.id && LeafBytes(s)[33..] == LeBytes(s.amount, 8);
  }

  lemma {:induction false} ItemsRoundTrip(stakes: seq<Stake>)
    ensures DecodeItems(ConcatLeaves(stakes), |stakes|) == Some(stakes)
  {
    if stakes != [] {
      var b := ConcatLeaves(stakes);
      assert b[..41] == LeafBytes(stakes[0]) && b[41..] == ConcatLeaves(stakes[1..]);
      StakeRoundTrip(stakes[0]);
      ItemsRoundTrip(stakes[1..]);
      assert stakes == [stakes[0]] + stakes[1..];
    }
  }

  /** Every list of stakes is read back. */
  lemma StakesRoundTrip(stakes: seq<Stake>)
    requires |stakes| < U32_BOUND
    ensures DecodeStakes(EncodeStakes(stakes)) == Some(stakes)
  {
    CompactRoundTrip(|stakes|, ConcatLeaves(stakes));
    ItemsRoundTrip(stakes);
  }

  /** Every authority set is read back. */
  lemma SetRoundTrip(s: AuthoritySet)
    ensures DecodeSet(EncodeSet(s)) == Some(s)
  {
    hide LeBytes, FromLe;
    LeU64(s.id);
    LeU32(s.len);
    var b := EncodeSet(s);
    assert b[..8] == LeBytes(s.id, 8) && b[8..12] == LeBytes(s.len, 4) && b[12..44] == s.commitment;
  }

  /** Only bytes that start with the form of a list are read as that list. */
  lemma {:induction false} ItemsDecodeIff(b: Bytes, stakes: seq<Stake>)
    ensures DecodeItems(b, |stakes|) == Some(stakes) <==> ConcatLeaves(stakes) <= b
    decreases |stakes|
  {
    hide LeafBytes, DecodeStake;
    if stakes != [] {
      ItemsDecodeIff(if |b| >= 41 then b[41..] else [], stakes[1..]);
      if |b| >= 41 {
        StakeDecodesIff(b[..41], stakes[0]);
        assert stakes == [stakes[0]] + stakes[1..];
        assert b == b[..41] + b[41..];
        assert ConcatLeaves(stakes) <= b <==> LeafBytes(stakes[0]) == b[..41] && ConcatLeaves(stakes[1..]) <= b[41..] by {
          PrefixOfSum(LeafBytes(stakes[0]), ConcatLeaves(stakes[1..]), b[..41], b[41..]);
        }
      }
    }
  }

  lemma PrefixOfSum(a: Bytes, b: Bytes, c: Bytes, d: Bytes)
    requires |a| == |c|
    ensures a + b <= c + d <==> a == c && b <= d
  {
    if a + b <= c + d {
      assert a == (a + b)[..|a|] == (c + d)[..|a|] == c;
      assert b == (a + b)[|a|..] && d == (c + d)[|a|..];
      assert (c + d)[..|a + b|] == a + b;
      assert d[..|b|] == (c + d)[|a|..][..|b|] == (c + d)[..|a + b|][|a|..] == b;
    }
    if a == c && b <= d {
      assert d == b + d[|b|..];
      assert c + d == (a + b) + d[|b|..];
    }
  }

  lemma StakeDecodesIff(b: Bytes, s: Stake)
    requires |b| == 41
    ensures DecodeStake(b) == s <==> b == LeafBytes(s)
  {
    hide LeBytes, FromLe;
    StakeRoundTrip(s);
    LeInverse(b[33..]);
    assert b == b[..33] + b[33..];
  }

  lemma {:induction false} DecodedCount(b: Bytes, n: nat)
    ensures DecodeItems(b, n).Some? ==> |DecodeItems(b, n).value| == n
    decreases n
  {
    if n > 0 && |b| >= 41 { DecodedCount(b[41..], n - 1); }
  }

  /** Decoding accepts exactly the encodings, and bytes after them. */
  lemma StakesDecodeIff(b: Bytes, stakes: seq<Stake>)
    ensures DecodeStakes(b) == Some(stakes) <==> |stakes| < U32_BOUND && EncodeStakes(stakes) <= b
  {
    hide DecodeCompact, EncodeCompact, DecodeItems, ConcatLeaves;
    if |stakes| < U32_BOUND && EncodeStakes(stakes) <= b {
      var rest := b[|EncodeStakes(stakes)|..];
      assert b == EncodeCompact(|stakes|) + (ConcatLeaves(stakes) + rest);
      CompactDecodesIff(b, |stakes|, ConcatLeaves(stakes) + rest);
      ItemsDecodeIff(ConcatLeaves(stakes) + rest, stakes);
    }
    if DecodeStakes(b) == Some(stakes) {
      var (n, rest) := DecodeCompact(b).value;
      DecodedCount(rest, n);
      CompactDecodesIff(b, n, rest);
      ItemsDecodeIff(rest, stakes);
      assert rest == ConcatLeaves(stakes) + rest[|ConcatLeaves(stakes)|..];
      assert b == EncodeStakes(stakes) + rest[|ConcatLeaves(stakes)|..];
    }
  }

  lemma SetDecodesIff(b: Bytes, s: AuthoritySet)
    ensures DecodeSet(b) == Some(s) <==> EncodeSet(s) <= b
  {
    hide LeBytes, FromLe;
    LeU64(s.id);
    LeU32(s.len);
    if EncodeSet(s) <= b {
      var e := EncodeSet(s);
      assert e[..8] == LeBytes(s.id, 8) && e[8..12] == LeBytes(s.len, 4) && e[12..44] == s.commitment;
      assert b[..8] == e[..8] && b[8..12] == e[8..12] && b[12..44] == e[12..44];
    }
    if DecodeSet(b) == Some(s) {
      LeInverse(b[..8]);
      LeInverse(b[8..12]);
      assert EncodeSet(s) == b[..44];
    }
  }

  /** Where everything is: the id in eight bytes, the length in four, then the commitment; */
  lemma SetLayout(s: AuthoritySet)
    ensures FromLe(EncodeSet(s)[..8]) == s.id && FromLe(EncodeSet(s)[8..12]) == s.len
    ensures EncodeSet(s)[12..] == s.commitment
  {
    hide LeBytes, FromLe;
    LeU64(s.id);
    LeU32(s.len);
    var b := EncodeSet(s);
    assert b[..8] == LeBytes(s.id, 8) && b[8..12] == LeBytes(s.len, 4) && b[12..] == s.commitment;
  }

  /** after the length of the list, 41 bytes per stake: the key, then the amount in eight bytes. */
  lemma StakesLayout(stakes: seq<Stake>, i: nat)
    requires i < |stakes| < U32_BOUND
    ensures var b, at := EncodeStakes(stakes), |EncodeCompact(|stakes|)| + 41 * i;
            && at + 41 <= |b|
            && b[at..at + 33] == stakes[i].id && FromLe(b[at + 33..at + 41]) == stakes[i].amount
  {
    hide EncodeCompact, LeBytes, FromLe, ConcatLeaves;
    var h := EncodeCompact(|stakes|);
    ItemAt(stakes, i);
    LeU64(stakes[i].amount);
    var b, at := EncodeStakes(stakes), |h| + 41 * i;
    assert b[at..at + 41] == ConcatLeaves(stakes)[41 * i..41 * i + 41] == LeafBytes(stakes[i]);
    assert b[at..at + 33] == b[at..at + 41][..33] && b[at + 33..at + 41] == b[at..at + 41][33..];
    assert LeafBytes(stakes[i])[..33] == stakes[i].id && LeafBytes(stakes[i])[33..] == LeBytes(stakes[i].amount, 8);
  }

  lemma {:induction false} ItemAt(stakes: seq<Stake>, i: nat)
    requires i < |stakes|
    ensures ConcatLeaves(stakes)[41 * i..41 * i + 41] == LeafBytes(stakes[i])
  {
    hide LeafBytes;
    var b := ConcatLeaves(stakes);
    assert b[..41] == LeafBytes(stakes[0]) && b[41..] == ConcatLeaves(stakes[1..]);
    if i > 0 {
      ItemAt(stakes[1..], i - 1);
      SliceAfter(b, 41, 41 * (i - 1));
    }
  }

  lemma SliceAfter(b: Bytes, k: nat, at: nat)
    requires k + at + k <= |b|
    ensures b[k..][at..at + k] == b[k + at..k + at + k]
  {
  }

  // ----- The payload -----

  /** A two-letter payload id. */
  type PayloadId = s: string | |s| == 2 witness "mh"

  const MMR_ROOT_ID: PayloadId := "mh"
  const CURRENT_STAKES_ID: PayloadId := "cs"
  const CURRENT_SET_ID: PayloadId := "cb"
  const NEXT_STAKES_ID: PayloadId := "ns"
  const NEXT_SET_ID: PayloadId := "nb"

  type Payload = seq<(PayloadId, Bytes)>

  predicate Before(a: PayloadId, b: PayloadId)
  {
    a[0] < b[0] || (a[0] == b[0] && a[1] < b[1])
  }

  /** `push_raw`: entries are kept sorted by id, later ones after earlier ones of the same id. */
  function PushRaw(p: Payload, id: PayloadId, data: Bytes): Payload
  {
    if p == [] then [(id, data)]
    else if Before(id, p[0].0) then [(id, data)] + p
    else [p[0]] + PushRaw(p[1..], id, data)
  }

  function GetRaw(p: Payload, id: PayloadId): Option<Bytes>
  {
    if p == [] then None else if p[0].0 == id then Some(p[0].1) else GetRaw(p[1..], id)
  }

  /** `get_all_raw` */
  function GetAllRaw(p: Payload, id: PayloadId): seq<Bytes>
  {
    if p == [] then []
    else (if p[0].0 == id then [p[0].1] else []) + GetAllRaw(p[1..], id)
  }

  /** Pushing makes a new id readable and leaves every other id as it was. */
  lemma {:induction false} PushedIsReadable(p: Payload, id: PayloadId, data: Bytes, other: PayloadId)
    requires GetRaw(p, id).None?
    ensures GetRaw(PushRaw(p, id, data), other) == if other == id then Some(data) else GetRaw(p, other)
  {
    if p != [] && !Before(id, p[0].0) {
      assert PushRaw(p, id, data)[1..] == PushRaw(p[1..], id, data);
      PushedIsReadable(p[1..], id, data, other);
    } else if p != [] {
      assert PushRaw(p, id, data)[1..] == p;
    }
  }

  // ----- Packing and unpacking -----

  /** What the runtime API answers at one block; `None` is a failed call. */
  datatype RuntimeApi = RuntimeApi(
    digestRoot: Option<Hash>, mmrRoot: Option<Hash>,
    currentStakes: Option<seq<Stake>>, nextStakes: Option<seq<Stake>>,
    currentSet: seq<Stake> -> Option<AuthoritySet>, nextSet: seq<Stake> -> Option<AuthoritySet>)

  predicate Encodable(api: RuntimeApi)
  {
    && (api.currentStakes.Some? ==> |api.currentStakes.value| < U32_BOUND)
    && (api.nextStakes.Some? ==> |api.nextStakes.value| < U32_BOUND)
  }

  /** `payload` */
  function Provide(api: RuntimeApi): Option<Payload>
    requires Encodable(api)
  {
    var root := MmrRoot(api);
    if root.None? || api.currentStakes.None? then None
    else
      var stakes := api.currentStakes.value;
      var set_ := api.currentSet(stakes);
      if set_.None? then None
      else
        var p := PushRaw(PushRaw([(MMR_ROOT_ID, root.value)],
                                 CURRENT_STAKES_ID, EncodeStakes(stakes)),
                         CURRENT_SET_ID, EncodeSet(set_.value));
        if api.nextStakes.None? then Some(p)
        else
          var nextStakes := api.nextStakes.value;
          var nextSet := api.nextSet(nextStakes);
          if nextSet.None? then None
          else Some(PushRaw(PushRaw(p, NEXT_STAKES_ID, EncodeStakes(nextStakes)),
                            NEXT_SET_ID, EncodeSet(nextSet.value)))
  }

  datatype StakesInfo = StakesInfo(
    currentStakes: seq<Stake>, currentSet: AuthoritySet, nextStakes: seq<Stake>, nextSet: AuthoritySet)

  datatype RelayError =
    | MissingCurrentStakes | MissingCurrentSet | MissingNextStakes | MissingNextSet
    | NoMatchingSignature | InvalidProof

  function GetStakes(p: Payload, id: PayloadId): Option<seq<Stake>>
  {
    match GetRaw(p, id) case None => None case Some(b) => DecodeStakes(b)
  }

  function GetSet(p: Payload, id: PayloadId): Option<AuthoritySet>
  {
    match GetRaw(p, id) case None => None case Some(b) => DecodeSet(b)
  }

  /** `BeefyStakesInfo::try_from` */
  function Unpack(p: Payload): Result<StakesInfo, RelayError>
  {
    var currentStakes := GetStakes(p, CURRENT_STAKES_ID);
    var currentSet := GetSet(p, CURRENT_SET_ID);
    var nextStakes := GetStakes(p, NEXT_STAKES_ID);
    var nextSet := GetSet(p, NEXT_SET_ID);
    if currentStakes.None? then Err(MissingCurrentStakes)
    else if currentSet.None? then Err(MissingCurrentSet)
    else if nextStakes.None? then Err(MissingNextStakes)
    else if nextSet.None? then Err(MissingNextSet)
    else Ok(StakesInfo(currentStakes.value, currentSet.value, nextStakes.value, nextSet.value))
  }

  /** What a payload carries under each of the five ids. */
  predicate Carries(p: Payload, root: Bytes, cs: Option<Bytes>, cb: Option<Bytes>, ns: Option<Bytes>, nb: Option<Bytes>)
  {
    && GetRaw(p, MMR_ROOT_ID) == Some(root)
    && GetRaw(p, CURRENT_STAKES_ID) == cs && GetRaw(p, CURRENT_SET_ID) == cb
    && GetRaw(p, NEXT_STAKES_ID) == ns && GetRaw(p, NEXT_SET_ID) == nb
  }

  lemma IdsDiffer()
    ensures MMR_ROOT_ID != CURRENT_STAKES_ID && MMR_ROOT_ID != CURRENT_SET_ID
    ensures MMR_ROOT_ID != NEXT_STAKES_ID && MMR_ROOT_ID != NEXT_SET_ID
    ensures CURRENT_STAKES_ID != CURRENT_SET_ID && NEXT_STAKES_ID != NEXT_SET_ID
    ensures CURRENT_STAKES_ID != NEXT_STAKES_ID && CURRENT_STAKES_ID != NEXT_SET_ID
    ensures CURRENT_SET_ID != NEXT_STAKES_ID && CURRENT_SET_ID != NEXT_SET_ID
  {
  }

  lemma PushCurrent(root: Bytes, cs: Bytes, cb: Bytes)
    ensures Carries(PushRaw(PushRaw([(MMR_ROOT_ID, root)], CURRENT_STAKES_ID, cs), CURRENT_SET_ID, cb),
                    root, Some(cs), Some(cb), None, None)
  {
    var p0: Payload := [(MMR_ROOT_ID, root)];
    IdsDiffer();
    var p1 := PushRaw(p0, CURRENT_STAKES_ID, cs);
    assert p0[1..] == [];
    assert forall id :: GetRaw(p0, id) == if id == MMR_ROOT_ID then Some(root) else None;
    forall id ensures GetRaw(p1, id) == if id == CURRENT_STAKES_ID then Some(cs) else GetRaw(p0, id) {
      PushedIsReadable(p0, CURRENT_STAKES_ID, cs, id);
    }
    forall id ensures GetRaw(PushRaw(p1, CURRENT_SET_ID, cb), id)
                   == if id == CURRENT_SET_ID then Some(cb) else GetRaw(p1, id) {
      PushedIsReadable(p1, CURRENT_SET_ID, cb, id);
    }
  }

  lemma PushNext(p: Payload, root: Bytes, cs: Bytes, cb: Bytes, ns: Bytes, nb: Bytes)
    requires Carries(p, root, Some(cs), Some(cb), None, None)
    ensures Carries(PushRaw(PushRaw(p, NEXT_STAKES_ID, ns), NEXT_SET_ID, nb),
                    root, Some(cs), Some(cb), Some(ns), Some(nb))
  {
    IdsDiffer();
    var p1 := PushRaw(p, NEXT_STAKES_ID, ns);
    forall id ensures GetRaw(p1, id) == if id == NEXT_STAKES_ID then Some(ns) else GetRaw(p, id) {
      PushedIsReadable(p, NEXT_STAKES_ID, ns, id);
    }
    forall id ensures GetRaw(PushRaw(p1, NEXT_SET_ID, nb), id)
                   == if id == NEXT_SET_ID then Some(nb) else GetRaw(p1, id) {
      PushedIsReadable(p1, NEXT_SET_ID, nb, id);
    }
  }

  /** Whatever the node packs, the relay unpacks unchanged; a payload packed while no next stakes
      were known is refused for exactly that reason. */
  lemma RelayReadsWhatNodePacked(api: RuntimeApi)
    requires Encodable(api) && Provide(api).Some?
    ensures Unpack(Provide(api).value)
         == if api.nextStakes.None? then Err(MissingNextStakes)
            else Ok(StakesInfo(
              api.currentStakes.value, api.currentSet(api.currentStakes.value).value,
              api.nextStakes.value, api.nextSet(api.nextStakes.value).value))
  {
    hide PushRaw, GetRaw, EncodeStakes, DecodeStakes, EncodeSet, DecodeSet;
    var root := MmrRoot(api).value;
    var stakes := api.currentStakes.value;
    var set_ := api.currentSet(stakes).value;
    PushCurrent(root, EncodeStakes(stakes), EncodeSet(set_));
    StakesRoundTrip(stakes);
    SetRoundTrip(set_);
    if api.nextStakes.Some? {
      var nextStakes := api.nextStakes.value;
      var nextSet := api.nextSet(nextStakes).value;
      var p := PushRaw(PushRaw([(MMR_ROOT_ID, root)], CURRENT_STAKES_ID, EncodeStakes(stakes)),
                       CURRENT_SET_ID, EncodeSet(set_));
      PushNext(p, root, EncodeStakes(stakes), EncodeSet(set_), EncodeStakes(nextStakes), EncodeSet(nextSet));
      StakesRoundTrip(nextStakes);
      SetRoundTrip(nextSet);
    }
  }

  /** The block's MMR root, from its digest or else from the runtime. */
  function MmrRoot(api: RuntimeApi): Option<Hash>
  {
    if api.digestRoot.Some? then api.digestRoot else api.mmrRoot
  }

  /** When there is a payload: a root in the digest or from the runtime, the current stakes and their
      authority set, and a set for the next stakes if there are any. */
  predicate CanProvide(api: RuntimeApi)
  {
    && (api.digestRoot.Some? || api.mmrRoot.Some?)
    && api.currentStakes.Some? && api.currentSet(api.currentStakes.value).Some?
    && (api.nextStakes.Some? ==> api.nextSet(api.nextStakes.value).Some?)
  }

  function Item(id: PayloadId, data: Bytes): (PayloadId, Bytes)
  {
    (id, data)
  }

  /** What it then is, entry by entry in the order of the ids. */
  function Expected(api: RuntimeApi): Payload
    requires Encodable(api) && CanProvide(api)
  {
    var stakes := api.currentStakes.value;
    var root := if api.digestRoot.Some? then api.digestRoot.value else api.mmrRoot.value;
    var current := [Item("cb", EncodeSet(api.currentSet(stakes).value)), Item("cs", EncodeStakes(stakes)), Item("mh", root)];
    if api.nextStakes.None? then current
    else
      var next := api.nextStakes.value;
      current + [Item("nb", EncodeSet(api.nextSet(next).value)), Item("ns", EncodeStakes(next))]
  }

  lemma PushThree(root: Bytes, cs: Bytes, cb: Bytes)
    ensures PushRaw(PushRaw([("mh", root)], "cs", cs), "cb", cb) == [("cb", cb), ("cs", cs), ("mh", root)]
  {
    assert PushRaw([("mh", root)], "cs", cs) == [("cs", cs), ("mh", root)];
  }

  /** An id that comes last goes last. */
  lemma {:induction false} PushLast(p: Payload, id: PayloadId, data: Bytes)
    requires forall i :: 0 <= i < |p| ==> !Before(id, p[i].0)
    ensures PushRaw(p, id, data) == p + [(id, data)]
  {
    if p != [] { PushLast(p[1..], id, data); }
  }

  lemma PushTwoMore(p: Payload, ns: Bytes, nb: Bytes)
    requires |p| == 3 && p[0].0 == "cb" && p[1].0 == "cs" && p[2].0 == "mh"
    ensures PushRaw(PushRaw(p, "ns", ns), "nb", nb) == p + [("nb", nb), ("ns", ns)]
  {
    hide PushRaw;
    PushLast(p, "ns", ns);
    PushBeforeLast(p, ("ns", ns), "nb", nb);
  }

  lemma {:induction false} PushBeforeLast(p: Payload, last: (PayloadId, Bytes), id: PayloadId, data: Bytes)
    requires forall i :: 0 <= i < |p| ==> !Before(id, p[i].0)
    requires Before(id, last.0)
    ensures PushRaw(p + [last], id, data) == p + [(id, data), last]
  {
    var q := p + [last];
    if p == [] {
      assert q == [last];
    } else {
      assert q[1..] == p[1..] + [last];
      PushBeforeLast(p[1..], last, id, data);
    }
  }

  /** The node produces a payload exactly when it can, and it is the expected one: the root of the digest
      comes before the one of the runtime, and the entries stand in the order of their ids. */
  lemma ProvidesExpected(api: RuntimeApi)
    requires Encodable(api)
    ensures Provide(api).Some? <==> CanProvide(api)
    ensures CanProvide(api) ==> Provide(api).value == Expected(api)
  {
    hide PushRaw, EncodeStakes, EncodeSet;
    if CanProvide(api) {
      var stakes := api.currentStakes.value;
      var root := if api.digestRoot.Some? then api.digestRoot.value else api.mmrRoot.value;
      var cs, cb := EncodeStakes(stakes), EncodeSet(api.currentSet(stakes).value);
      PushThree(root, cs, cb);
      if api.nextStakes.Some? {
        PushTwoMore([("cb", cb), ("cs", cs), ("mh", root)],
                    EncodeStakes(api.nextStakes.value), EncodeSet(api.nextSet(api.nextStakes.value).value));
      }
    }
  }

  /** The payload carries one root, that of the digest or else that of the runtime. */
  lemma PayloadCarriesMmrRoot(api: RuntimeApi)
    requires Encodable(api) && Provide(api).Some?
    ensures api.digestRoot.Some? || api.mmrRoot.Some?
    ensures GetAllRaw(Provide(api).value, "mh")
         == [if api.digestRoot.Some? then api.digestRoot.value else api.mmrRoot.value]
  {
    hide Provide, EncodeStakes, EncodeSet;
    ProvidesExpected(api);
    var p := Expected(api);
    OneAmongOthers(p, "mh", 2);
  }

  lemma {:induction false} NoneAmong(p: Payload, id: PayloadId)
    requires forall i :: 0 <= i < |p| ==> p[i].0 != id
    ensures GetAllRaw(p, id) == []
  {
    if p != [] { NoneAmong(p[1..], id); }
  }

  lemma {:induction false} OneAmongOthers(p: Payload, id: PayloadId, k: nat)
    requires k < |p| && p[k].0 == id && forall i :: 0 <= i < |p| && i != k ==> p[i].0 != id
    ensures GetAllRaw(p, id) == [p[k].1]
  {
    if k == 0 {
      NoneAmong(p[1..], id);
    } else {
      OneAmongOthers(p[1..], id, k - 1);
    }
  }

  /** Reading all entries of an id finds every one of them, in order. */
  lemma {:induction false} GetAllRawAppends(p: Payload, last: (PayloadId, Bytes), id: PayloadId)
    ensures GetAllRaw([], id) == []
    ensures GetAllRaw(p + [last], id) == GetAllRaw(p, id) + if last.0 == id then [last.1] else []
  {
    if p == [] {
      assert p + [last] == [last];
      assert [last][1..] == [];
    } else {
      assert (p + [last])[1..] == p[1..] + [last];
      GetAllRawAppends(p[1..], last, id);
    }
  }

  /** Reading an id finds its first entry. */
  lemma {:induction false} GetRawIsFirst(p: Payload, id: PayloadId)
    ensures match GetRaw(p, id)
            case None => forall i :: 0 <= i < |p| ==> p[i].0 != id
            case Some(b) => exists i :: 0 <= i < |p| && p[i] == (id, b) && forall j :: 0 <= j < i ==> p[j].0 != id
  {
    if p != [] && p[0].0 != id {
      GetRawIsFirst(p[1..], id);
      if GetRaw(p, id).Some? {
        var i :| 0 <= i < |p[1..]| && p[1..][i] == (id, GetRaw(p, id).value)
          && forall j :: 0 <= j < i ==> p[1..][j].0 != id;
        assert p[i + 1] == (id, GetRaw(p, id).value);
        assert forall j :: 0 < j < i + 1 ==> p[j] == p[1..][j - 1];
      }
    }
  }

  /** The relay reads any payload at all exactly if all four entries are there and well formed; otherwise
      it names the first one, in this order, that is not. */
  lemma UnpackIff(p: Payload, info: StakesInfo)
    ensures var cs, cb, ns, nb := GetRaw(p, "cs"), GetRaw(p, "cb"), GetRaw(p, "ns"), GetRaw(p, "nb");
            var hasCs, hasCb := cs.Some? && DecodeStakes(cs.value).Some?, cb.Some? && DecodeSet(cb.value).Some?;
            var hasNs, hasNb := ns.Some? && DecodeStakes(ns.value).Some?, nb.Some? && DecodeSet(nb.value).Some?;
            && (Unpack(p) == Ok(info) <==>
                  && cs.Some? && DecodeStakes(cs.value) == Some(info.currentStakes)
                  && cb.Some? && DecodeSet(cb.value) == Some(info.currentSet)
                  && ns.Some? && DecodeStakes(ns.value) == Some(info.nextStakes)
                  && nb.Some? && DecodeSet(nb.value) == Some(info.nextSet))
            && (Unpack(p) == Err(MissingCurrentStakes) <==> !hasCs)
            && (Unpack(p) == Err(MissingCurrentSet) <==> hasCs && !hasCb)
            && (Unpack(p) == Err(MissingNextStakes) <==> hasCs && hasCb && !hasNs)
            && (Unpack(p) == Err(MissingNextSet) <==> hasCs && hasCb && hasNs && !hasNb)
  {
    hide GetRaw, DecodeStakes, DecodeSet;
  }

  // ----- The relay's tree -----

  /** `prep_leaf_hash` */
  function LeafHash(m: Merkle, s: Stake): Hash
  {
    var data := s.id;
    m.keccak(data + LeBytes(s.amount, 8))
  }

  /** `prep_merkle_leaves` */
  function LeafHashes(m: Merkle, stakes: seq<Stake>): (r: seq<Hash>)
    ensures |r| == |stakes|
    ensures forall i :: 0 <= i < |stakes| ==> r[i] == LeafHash(m, stakes[i])
  {
    seq(|stakes|, i requires 0 <= i < |stakes| => LeafHash(m, stakes[i]))
  }

  /** The relay's root; an empty tree has none. */
  function RelayRoot(m: Merkle, stakes: seq<Stake>): Option<Hash>
  {
    if stakes == [] then None else Some(m.root(LeafHashes(m, stakes)))
  }

  /** The two programs hash the same leaves in the same order. */
  lemma SameLeafHashes(m: Merkle, stakes: seq<Stake>)
    ensures LeafHashes(m, stakes) == HashAll(m, Leaves(stakes))
  {
  }

  lemma RelayAgreesWithSet(m: Merkle, id: u64, stakes: seq<Stake>)
    requires |stakes| < U32_BOUND
    ensures ComputeSet(m, id, stakes).id == id && ComputeSet(m, id, stakes).len == |stakes|
    ensures RelayRoot(m, stakes) == if stakes == [] then None else Some(ComputeSet(m, id, stakes).commitment)
  {
    SameLeafHashes(m, stakes);
  }

  /** For any hash and any root over hashed leaves: the root the relay computes from the payload is
      the keyset commitment packed beside the stakes, and it has as many leaves as the set says. */
  lemma RelayRootIsCommitment(m: Merkle, api: RuntimeApi, id: u64)
    requires Encodable(api) && Provide(api).Some? && api.nextStakes.Some?
    requires api.currentSet(api.currentStakes.value) == Some(ComputeSet(m, id, api.currentStakes.value))
    ensures Unpack(Provide(api).value).Ok?
    ensures var info := Unpack(Provide(api).value).value;
            && info.currentSet.id == id
            && |info.currentStakes| == info.currentSet.len
            && RelayRoot(m, info.currentStakes)
               == if info.currentStakes == [] then None else Some(info.currentSet.commitment)
  {
    RelayAgreesWithSet(m, id, api.currentStakes.value);
    hide Provide, Unpack, EncodeStakes, EncodeSet, ComputeSet, RelayRoot;
    RelayReadsWhatNodePacked(api);
  }
}
