/** The runtime half of the BEEFY authority sets: stakes, Merkle leaves, keyset commitments, and
    the handover of authority sets over whole runs of the component that stores them. */
module BeefyStakes {
  import opened Common
  import opened Scale

  /** A compressed ECDSA public key. */
  type BeefyId = b: Bytes | |b| == 33 witness Zeros(33)

  type Hash = b: Bytes | |b| == 32 witness Zeros(32)

  datatype Stake = Stake(id: BeefyId, amount: u64)

  datatype CommitteeMember = Permissioned(id: BeefyId) | Registered(id: BeefyId)

  datatype AuthoritySet = AuthoritySet(id: u64, len: u32, commitment: Hash)

  /** The hash and the Merkle tree over hashed leaves that runtime and relay both use. */
  datatype Merkle = Merkle(keccak: Bytes -> Hash, root: seq<Hash> -> Hash)

  const ZERO_ID: BeefyId := Zeros(33)
  const ZERO_HASH: Hash := Zeros(32)

  // ----- Stakes -----

  function Ids(committee: seq<CommitteeMember>): (r: seq<BeefyId>)
    ensures |r| == |committee|
    ensures forall i :: 0 <= i < |committee| ==> r[i] == committee[i].id
  {
    seq(|committee|, i requires 0 <= i < |committee| => committee[i].id)
  }

  lemma FirstSeat(committee: seq<CommitteeMember>, v: BeefyId)
    requires committee != []
    ensures v in Ids(committee) <==> v == committee[0].id || v in Ids(committee[1..])
  {
    assert Ids(committee) == [committee[0].id] + Ids(committee[1..]);
  }

  /** The first seat held by a validator. */
  function Position(committee: seq<CommitteeMember>, v: BeefyId): (r: Option<nat>)
    ensures r.Some? ==> r.value < |committee| && committee[r.value].id == v
    ensures r.Some? ==> forall i :: 0 <= i < r.value ==> committee[i].id != v
    ensures r.None? ==> v !in Ids(committee)
  {
    if committee == [] then None
    else if committee[0].id == v then Some(0)
    else
      FirstSeat(committee, v);
      match Position(committee[1..], v) case None => None case Some(i) => Some(i + 1)
  }

  function UnitStakes(validators: seq<BeefyId>): (r: seq<Stake>)
    ensures |r| == |validators|
    ensures forall i :: 0 <= i < |validators| ==> r[i] == Stake(validators[i], 1)
  {
    seq(|validators|, i requires 0 <= i < |validators| => Stake(validators[i], 1))
  }

  lemma RemoveSeat(committee: seq<CommitteeMember>, pos: nat)
    requires pos < |committee|
    ensures multiset(Ids(committee[..pos] + committee[pos + 1..]))
         == multiset(Ids(committee)) - multiset{committee[pos].id}
  {
    var ids := Ids(committee);
    assert ids == ids[..pos] + [ids[pos]] + ids[pos + 1..];
    assert Ids(committee[..pos] + committee[pos + 1..]) == ids[..pos] + ids[pos + 1..];
  }

  /** Taking one more validator: it fills a free seat if its id has one left, and stays unmatched if
      not. */
  lemma GreedyStep<T>(seats: multiset<T>, seen: multiset<T>, v: T)
    ensures v in seats - seen ==>
              && seats - (seen + multiset{v}) == (seats - seen) - multiset{v}
              && (seen + multiset{v}) - seats == seen - seats
    ensures v !in seats - seen ==>
              && seats - (seen + multiset{v}) == seats - seen
              && (seen + multiset{v}) - seats == (seen - seats) + multiset{v}
  {
  }

  /** The validators left without a seat, and the seats left without a validator. */
  datatype Matching = Matching(unmatched: seq<BeefyId>, vacant: seq<CommitteeMember>)

  function MatchOne(m: Matching, v: BeefyId): Matching
  {
    match Position(m.vacant, v)
    case Some(pos) => Matching(m.unmatched, m.vacant[..pos] + m.vacant[pos + 1..])
    case None => Matching(m.unmatched + [v], m.vacant)
  }

  function MatchAll(validators: seq<BeefyId>, committee: seq<CommitteeMember>): Matching
  {
    if validators == [] then Matching([], committee)
    else MatchOne(MatchAll(validators[..|validators| - 1], committee), validators[|validators| - 1])
  }

  /** Whether a seat is free, in terms of ids. */
  lemma PositionIsMembership(committee: seq<CommitteeMember>, v: BeefyId)
    ensures Position(committee, v).Some? <==> v in multiset(Ids(committee))
  {
  }

  lemma MatchOneCounts(m: Matching, v: BeefyId)
    ensures v in multiset(Ids(m.vacant)) ==>
              && multiset(Ids(MatchOne(m, v).vacant)) == multiset(Ids(m.vacant)) - multiset{v}
              && MatchOne(m, v).unmatched == m.unmatched
    ensures v !in multiset(Ids(m.vacant)) ==>
              && MatchOne(m, v).vacant == m.vacant
              && MatchOne(m, v).unmatched == m.unmatched + [v]
  {
    PositionIsMembership(m.vacant, v);
    if Position(m.vacant, v).Some? {
      RemoveSeat(m.vacant, Position(m.vacant, v).value);
    }
  }

  /** The greedy search pairs validators and seats as far as any pairing could: what is left over on
      each side is exactly the multiset difference. */
  lemma {:induction false} GreedyIsMaximal(validators: seq<BeefyId>, committee: seq<CommitteeMember>)
    ensures var m := MatchAll(validators, committee);
            && multiset(m.unmatched) == multiset(validators) - multiset(Ids(committee))
            && multiset(Ids(m.vacant)) == multiset(Ids(committee)) - multiset(validators)
  {
    if validators != [] {
      var k := |validators| - 1;
      var v := validators[k];
      assert validators == validators[..k] + [v];
      GreedyIsMaximal(validators[..k], committee);
      GreedyStep(multiset(Ids(committee)), multiset(validators[..k]), v);
      MatchOneCounts(MatchAll(validators[..k], committee), v);
    }
  }

  /** The validators, in order, of whom as many came before as there are seats for them. */
  function Unseated(validators: seq<BeefyId>, seats: multiset<BeefyId>): seq<BeefyId>
  {
    if validators == [] then []
    else
      var k := |validators| - 1;
      Unseated(validators[..k], seats)
      + if multiset(validators[..k])[validators[k]] >= seats[validators[k]] then [validators[k]] else []
  }

  /** They are the ones the greedy search leaves over. */
  lemma {:induction false} GreedyLeavesTheLater(validators: seq<BeefyId>, committee: seq<CommitteeMember>)
    ensures MatchAll(validators, committee).unmatched == Unseated(validators, multiset(Ids(committee)))
  {
    hide MatchOne;
    if validators != [] {
      var k := |validators| - 1;
      GreedyLeavesTheLater(validators[..k], committee);
      GreedyIsMaximal(validators[..k], committee);
      MatchOneCounts(MatchAll(validators[..k], committee), validators[k]);
    }
  }

  /** `compute_beefy_stakes`.  `unmatched` lists the validators it warns about and `vacant` the seats
      nobody took.  Whatever the committee, every validator gets stake 1, in order. */
  method ComputeStakes(validators: seq<BeefyId>, committee: seq<CommitteeMember>)
    returns (stakes: seq<Stake>, unmatched: seq<BeefyId>, vacant: seq<CommitteeMember>)
    ensures stakes == UnitStakes(validators)
    ensures |stakes| == |validators| && forall i :: 0 <= i < |stakes| ==> stakes[i] == Stake(validators[i], 1)
    ensures Matching(unmatched, vacant) == MatchAll(validators, committee)
    ensures unmatched == Unseated(validators, multiset(Ids(committee)))
    ensures multiset(Ids(vacant)) == multiset(Ids(committee)) - multiset(validators)
  {
    hide MatchAll;
    stakes, unmatched, vacant := [], [], committee;
    MatchNobody(validators, committee);
    for i := 0 to |validators|
      invariant |stakes| == i && forall j :: 0 <= j < i ==> stakes[j] == Stake(validators[j], 1)
      invariant Matching(unmatched, vacant) == MatchAll(validators[..i], committee)
    {
      var v := validators[i];
      MatchAllStep(validators, committee, i);
      match Position(vacant, v) {
        case Some(pos) =>
          vacant := vacant[..pos] + vacant[pos + 1..];
          stakes := stakes + [Stake(v, 1)];
        case None =>
          unmatched := unmatched + [v];
          stakes := stakes + [Stake(v, 1)];
      }
    }
    assert validators[..|validators|] == validators;
    GreedyLeavesTheLater(validators, committee);
    GreedyIsMaximal(validators, committee);
  }

  lemma MatchNobody(validators: seq<BeefyId>, committee: seq<CommitteeMember>)
    ensures MatchAll(validators[..0], committee) == Matching([], committee)
  {
  }

  lemma MatchAllStep(validators: seq<BeefyId>, committee: seq<CommitteeMember>, i: nat)
    requires i < |validators|
    ensures MatchAll(validators[..i + 1], committee)
         == MatchOne(MatchAll(validators[..i], committee), validators[i])
  {
    assert validators[..i + 1][..i] == validators[..i];
  }

  // ----- Leaves and commitments -----

  /** The Merkle leaf of a validator: its 33 key bytes, then its stake in 8 little-endian bytes. */
  function LeafBytes(s: Stake): (r: Bytes)
    ensures |r| == 41
  {
    s.id + LeBytes(s.amount, 8)
  }

  /** Different stakes have different leaves. */
  lemma LeafIsInjective(a: Stake, b: Stake)
    requires LeafBytes(a) == LeafBytes(b)
    ensures a == b
  {
    hide LeBytes;
    assert a.id == LeafBytes(a)[..33] && b.id == LeafBytes(b)[..33];
    assert LeBytes(a.amount, 8) == LeafBytes(a)[33..] && LeBytes(b.amount, 8) == LeafBytes(b)[33..];
    LeU64(a.amount);
    LeU64(b.amount);
  }

  function Leaves(stakes: seq<Stake>): (r: seq<Bytes>)
    ensures |r| == |stakes|
    ensures forall i :: 0 <= i < |stakes| ==> r[i] == LeafBytes(stakes[i])
  {
    seq(|stakes|, i requires 0 <= i < |stakes| => LeafBytes(stakes[i]))
  }

  function HashAll(m: Merkle, leaves: seq<Bytes>): (r: seq<Hash>)
    ensures |r| == |leaves|
    ensures forall i :: 0 <= i < |leaves| ==> r[i] == m.keccak(leaves[i])
  {
    seq(|leaves|, i requires 0 <= i < |leaves| => m.keccak(leaves[i]))
  }

  /** `compute_authority_set`: the runtime's tree hashes its leaves itself. */
  function ComputeSet(m: Merkle, id: u64, stakes: seq<Stake>): AuthoritySet
  {
    AuthoritySet(id, |stakes| % U32_BOUND, m.root(HashAll(m, Leaves(stakes))))
  }

  /** The authority set of a validator set: its committee plays no part, since all stakes are 1. */
  function SetOf(m: Merkle, v: ValidatorSet): AuthoritySet
  {
    ComputeSet(m, v.id, UnitStakes(v.validators))
  }

  /** What an authority set says of a list of validators: the set's id, how many they are, and the root over
      the hashes of each one's key followed by the number 1 in eight little-endian bytes. */
  predicate Describes(m: Merkle, s: AuthoritySet, id: u64, validators: seq<BeefyId>)
  {
    && s.id == id && s.len == |validators| % 0x1_0000_0000
    && s.commitment == m.root(seq(|validators|, i requires 0 <= i < |validators| =>
                                m.keccak(validators[i] + [1, 0, 0, 0, 0, 0, 0, 0])))
  }

  lemma OneInEightBytes()
    ensures LeBytes(1, 8) == [1, 0, 0, 0, 0, 0, 0, 0]
  {
    assert LeBytes(0, 7) == [0] + LeBytes(0, 6) && LeBytes(0, 6) == [0] + LeBytes(0, 5);
    assert LeBytes(0, 5) == [0] + LeBytes(0, 4) && LeBytes(0, 4) == [0] + LeBytes(0, 3);
    assert LeBytes(0, 3) == [0] + LeBytes(0, 2) && LeBytes(0, 2) == [0] + LeBytes(0, 1);
  }

  lemma UnitSetDescribes(m: Merkle, id: u64, validators: seq<BeefyId>)
    ensures Describes(m, ComputeSet(m, id, UnitStakes(validators)), id, validators)
  {
    hide LeBytes;
    OneInEightBytes();
    assert HashAll(m, Leaves(UnitStakes(validators)))
        == seq(|validators|, i requires 0 <= i < |validators| =>
             m.keccak(validators[i] + [1, 0, 0, 0, 0, 0, 0, 0]));
  }

  /** A collision of the hash or of the tree. */
  datatype Collision = LeafCollision(x: Bytes, y: Bytes) | TreeCollision(xs: seq<Hash>, ys: seq<Hash>)

  predicate IsCollision(m: Merkle, c: Collision)
  {
    match c
    case LeafCollision(x, y) => x != y && m.keccak(x) == m.keccak(y)
    case TreeCollision(xs, ys) => xs != ys && |xs| == |ys| && m.root(xs) == m.root(ys)
  }

  /** A commitment binds the whole list, every key, every stake and their order: two different lists of
      equal length with one commitment exhibit a collision, of the tree between the two lists of leaf
      hashes or of the hash between the leaves at one position. */
  lemma CommitmentBindsStakes(m: Merkle, id: u64, id': u64, a: seq<Stake>, b: seq<Stake>) returns (c: Collision)
    requires |a| == |b| && a != b
    requires ComputeSet(m, id, a).commitment == ComputeSet(m, id', b).commitment
    ensures IsCollision(m, c)
    ensures match c
            case TreeCollision(xs, ys) => xs == HashAll(m, Leaves(a)) && ys == HashAll(m, Leaves(b))
            case LeafCollision(x, y) => exists i :: 0 <= i < |a| && x == LeafBytes(a[i]) && y == LeafBytes(b[i])
  {
    var ha, hb := HashAll(m, Leaves(a)), HashAll(m, Leaves(b));
    if ha != hb {
      return TreeCollision(ha, hb);
    }
    var i :| 0 <= i < |a| && a[i] != b[i];
    if LeafBytes(a[i]) == LeafBytes(b[i]) {
      LeafIsInjective(a[i], b[i]);
      assert false;
    }
    assert ha[i] == hb[i];
    c := LeafCollision(LeafBytes(a[i]), LeafBytes(b[i]));
  }

  // ----- The stored authority sets -----

  /** A validator set cannot be made from an empty list. */
  type Validators = s: seq<BeefyId> | s != [] witness [ZERO_ID]

  datatype ValidatorSet = ValidatorSet(validators: Validators, id: u64)

  /** The two values the component stores. */
  datatype Stored = Stored(current: AuthoritySet, next: AuthoritySet)

  /** One call, with the storage of other pallets it reads. */
  datatype Event =
    | NewSet(current: ValidatorSet, next: ValidatorSet, palletSetId: u64)
    | AskNext(palletNext: seq<BeefyId>, palletSetId: u64)

  /** `next_beefy_stakes`: fills an unset next authority set out of session. */
  function FillNext(m: Merkle, st: Stored, validators: seq<BeefyId>, palletSetId: u64): Stored
  {
    if st.next.commitment == ZERO_HASH
    then st.(next := ComputeSet(m, (palletSetId + 1) % U64_BOUND, UnitStakes(validators)))
    else st
  }

  function Apply(m: Merkle, st: Stored, e: Event): Stored
  {
    match e
    case AskNext(validators, setId) => FillNext(m, st, validators, setId)
    case NewSet(current, next, setId) => Stored(SetOf(m, current), SetOf(m, next))
  }

  function ApplyAll(m: Merkle, st: Stored, es: seq<Event>): Stored
  {
    if es == [] then st else Apply(m, ApplyAll(m, st, es[..|es| - 1]), es[|es| - 1])
  }

  /** The component, with the storage it writes. */
  class Authorities {
    const merkle: Merkle
    var current: AuthoritySet
    var next: AuthoritySet

    constructor (merkle: Merkle, current: AuthoritySet, next: AuthoritySet)
      ensures this.merkle == merkle && View() == Stored(current, next)
    {
      this.merkle := merkle;
      this.current := current;
      this.next := next;
    }

    function View(): Stored
      reads this
    {
      Stored(current, next)
    }

    /** `next_beefy_stakes` */
    method NextStakes(validators: seq<BeefyId>, palletSetId: u64, queued: seq<CommitteeMember>)
      returns (stakes: seq<Stake>)
      modifies this`next
      ensures stakes == UnitStakes(validators)
      ensures View() == FillNext(merkle, old(View()), validators, palletSetId)
      ensures (forall i :: 0 <= i < 32 ==> old(next.commitment)[i] == 0) ==>
                Describes(merkle, next, (palletSetId + 1) % 0x1_0000_0000_0000_0000, validators)
      ensures (exists i :: 0 <= i < 32 && old(next.commitment)[i] != 0) ==> next == old(next)
    {
      UnitSetDescribes(merkle, (palletSetId + 1) % U64_BOUND, validators);
      assert next.commitment == ZERO_HASH <==> forall i :: 0 <= i < 32 ==> next.commitment[i] == 0;
      var unmatched, vacant;
      stakes, unmatched, vacant := ComputeStakes(validators, queued);
      if next.commitment == ZERO_HASH {
        next := ComputeSet(merkle, (palletSetId + 1) % U64_BOUND, stakes);
      }
    }

    /** `on_new_validator_set` */
    method OnNewValidatorSet(set_: ValidatorSet, nextSet: ValidatorSet, palletSetId: u64,
                             committee: seq<CommitteeMember>, queued: seq<CommitteeMember>)
      modifies this`current, this`next
      ensures View() == Apply(merkle, old(View()), NewSet(set_, nextSet, palletSetId))
      ensures Describes(merkle, current, set_.id, set_.validators)
      ensures Describes(merkle, next, nextSet.id, nextSet.validators)
    {
      UnitSetDescribes(merkle, set_.id, set_.validators);
      UnitSetDescribes(merkle, nextSet.id, nextSet.validators);
      var stakes, unmatched, vacant := ComputeStakes(set_.validators, committee);
      var currentSet := ComputeSet(merkle, set_.id, stakes);
      var nextStakes := NextStakes(nextSet.validators, palletSetId, queued);
      next := ComputeSet(merkle, nextSet.id, nextStakes);
      current := currentSet;
    }
  }

  // ----- Handover over whole runs -----

  /** Between two positions of a run no new set is announced. */
  predicate OnlyAsks(es: seq<Event>, lo: nat, hi: nat)
    requires hi <= |es|
  {
    forall k :: lo <= k < hi ==> es[k].AskNext?
  }

  /** From one announcement to the next, the current authority set after the second is the next
      authority set after the first: same id, same length, same commitment. */
  lemma Handover(m: Merkle, st: Stored, es: seq<Event>, i: nat, j: nat)
    requires i < j < |es| && es[i].NewSet? && es[j].NewSet? && es[j].current == es[i].next
    ensures ApplyAll(m, st, es[..j + 1]).current == ApplyAll(m, st, es[..i + 1]).next
  {
  }

  lemma {:induction false} AsksKeepNext(m: Merkle, st: Stored, es: seq<Event>, lo: nat, hi: nat)
    requires lo <= hi <= |es| && OnlyAsks(es, lo, hi)
    requires ApplyAll(m, st, es[..lo]).next.commitment != ZERO_HASH
    ensures ApplyAll(m, st, es[..hi]) == ApplyAll(m, st, es[..lo])
  {
    if lo < hi {
      assert es[..hi][..hi - 1] == es[..hi - 1];
      AsksKeepNext(m, st, es, lo, hi - 1);
    }
  }

  /** The set a request computes. */
  function AskedSet(m: Merkle, ask: Event): AuthoritySet
    requires ask.AskNext?
  {
    ComputeSet(m, (ask.palletSetId + 1) % U64_BOUND, UnitStakes(ask.palletNext))
  }

  predicate AllAskZero(m: Merkle, es: seq<Event>, lo: nat, hi: nat)
    requires hi <= |es| && OnlyAsks(es, lo, hi)
  {
    forall k :: lo <= k < hi ==> AskedSet(m, es[k]).commitment == ZERO_HASH
  }

  /** Requests starting from an all-zero commitment: each one overwrites the set as long as all of them
      compute all-zero commitments; the first other one ends that for good. */
  lemma {:induction false} AsksFromZero(m: Merkle, st: Stored, es: seq<Event>, lo: nat, hi: nat)
    requires lo < hi <= |es| && OnlyAsks(es, lo, hi)
    requires ApplyAll(m, st, es[..lo]).next.commitment == ZERO_HASH
    ensures ApplyAll(m, st, es[..hi]).current == ApplyAll(m, st, es[..lo]).current
    ensures if AllAskZero(m, es, lo, hi)
            then ApplyAll(m, st, es[..hi]).next == AskedSet(m, es[hi - 1])
            else ApplyAll(m, st, es[..hi]).next.commitment != ZERO_HASH
  {
    hide ComputeSet, UnitStakes;
    assert es[..hi][..hi - 1] == es[..hi - 1];
    if lo < hi - 1 {
      AsksFromZero(m, st, es, lo, hi - 1);
      assert AllAskZero(m, es, lo, hi)
        <==> AllAskZero(m, es, lo, hi - 1) && AskedSet(m, es[hi - 1]).commitment == ZERO_HASH;
    }
  }

  /** When requests leave a stored next set alone: its commitment is not all zeros, or nobody asks, or
      every request computes an all-zero commitment and the last one also the same id and length. */
  predicate Undisturbed(m: Merkle, next: AuthoritySet, es: seq<Event>, lo: nat, hi: nat)
    requires lo <= hi <= |es| && OnlyAsks(es, lo, hi)
  {
    || next.commitment != ZERO_HASH
    || lo == hi
    || (&& AllAskZero(m, es, lo, hi)
        && (es[hi - 1].palletSetId + 1) % U64_BOUND == next.id
        && |es[hi - 1].palletNext| % U32_BOUND == next.len)
  }

  lemma AsksKeepNextIff(m: Merkle, st: Stored, es: seq<Event>, lo: nat, hi: nat)
    requires lo <= hi <= |es| && OnlyAsks(es, lo, hi)
    ensures ApplyAll(m, st, es[..hi]).current == ApplyAll(m, st, es[..lo]).current
    ensures ApplyAll(m, st, es[..hi]).next == ApplyAll(m, st, es[..lo]).next
       <==> Undisturbed(m, ApplyAll(m, st, es[..lo]).next, es, lo, hi)
  {
    hide ApplyAll;
    if ApplyAll(m, st, es[..lo]).next.commitment != ZERO_HASH {
      AsksKeepNext(m, st, es, lo, hi);
    } else if lo < hi {
      AsksFromZero(m, st, es, lo, hi);
    }
  }

  /** What was announced as next is still stored as next when it becomes current, if and only if the
      requests in between leave it alone. */
  lemma HandoverAcrossAsks(m: Merkle, st: Stored, es: seq<Event>, i: nat, j: nat)
    requires i < j < |es| && es[i].NewSet? && es[j].NewSet? && es[j].current == es[i].next
    requires OnlyAsks(es, i + 1, j)
    ensures ApplyAll(m, st, es[..j]).next == ApplyAll(m, st, es[..j + 1]).current
       <==> Undisturbed(m, SetOf(m, es[i].next), es, i + 1, j)
  {
    Announced(m, st, es, i);
    Announced(m, st, es, j);
    AsksKeepNextIff(m, st, es, i + 1, j);
  }

  lemma Announced(m: Merkle, st: Stored, es: seq<Event>, i: nat)
    requires i < |es| && es[i].NewSet?
    ensures ApplyAll(m, st, es[..i + 1]) == Stored(SetOf(m, es[i].current), SetOf(m, es[i].next))
  {
    assert es[..i + 1][..i] == es[..i];
  }

  /** Every announcement of a run hands over from the one before it. */
  predicate Chained(es: seq<Event>)
  {
    forall i, j :: 0 <= i < j < |es| && es[i].NewSet? && es[j].NewSet? && OnlyAsks(es, i + 1, j) ==>
      es[j].current == es[i].next
  }

  /** What is stored mirrors the announcements at every point of a chained run: `current` is the set
      announced as next one announcement earlier, and `next` is the set last announced as next, the
      latter if and only if the requests since then leave it alone. */
  lemma ChainedRun(m: Merkle, st: Stored, es: seq<Event>, i: nat, j: nat, k: nat)
    requires Chained(es)
    requires i < j < k <= |es| && es[i].NewSet? && es[j].NewSet?
    requires OnlyAsks(es, i + 1, j) && OnlyAsks(es, j + 1, k)
    ensures ApplyAll(m, st, es[..k]).current == SetOf(m, es[i].next)
    ensures Describes(m, ApplyAll(m, st, es[..k]).current, es[i].next.id, es[i].next.validators)
    ensures ApplyAll(m, st, es[..k]).next == SetOf(m, es[j].next)
       <==> Undisturbed(m, SetOf(m, es[j].next), es, j + 1, k)
  {
    Announced(m, st, es, j);
    AsksKeepNextIff(m, st, es, j + 1, k);
    UnitSetDescribes(m, es[i].next.id, es[i].next.validators);
  }

  // ----- When no commitment is all zeros -----

  /** No set announced as next in a run has an all-zero commitment. */
  predicate ZeroFree(m: Merkle, es: seq<Event>)
  {
    forall i :: 0 <= i < |es| && es[i].NewSet? ==> SetOf(m, es[i].next).commitment != ZERO_HASH
  }

  /** The hash and the tree give no non-empty list of leaves the all-zero root. */
  ghost predicate NoZeroRoot(m: Merkle)
  {
    forall leaves :: leaves != [] ==> m.root(HashAll(m, leaves)) != ZERO_HASH
  }

  /** Validator sets are never empty, so with such a tree every run is free of all-zero commitments. */
  lemma NoZeroRootMeansZeroFree(m: Merkle, es: seq<Event>)
    requires NoZeroRoot(m)
    ensures ZeroFree(m, es)
  {
    forall i | 0 <= i < |es| && es[i].NewSet? ensures SetOf(m, es[i].next).commitment != ZERO_HASH {
      assert |Leaves(UnitStakes(es[i].next.validators))| > 0;
    }
  }

  function Announcements(es: seq<Event>): seq<Event>
  {
    if es == [] then []
    else Announcements(es[..|es| - 1]) + if es[|es| - 1].NewSet? then [es[|es| - 1]] else []
  }

  /** Once a next set is stored, requests are invisible in the storage: any run leaves what its
      announcements alone leave. */
  lemma {:induction false} AsksAreInvisible(m: Merkle, st: Stored, es: seq<Event>)
    requires st.next.commitment != ZERO_HASH && ZeroFree(m, es)
    ensures ApplyAll(m, st, es) == ApplyAll(m, st, Announcements(es))
    ensures ApplyAll(m, st, es).next.commitment != ZERO_HASH
  {
    if es != [] {
      var k := |es| - 1;
      AsksAreInvisible(m, st, es[..k]);
      if es[k].NewSet? {
        assert Announcements(es)[..|Announcements(es)| - 1] == Announcements(es[..k]);
      } else {
        assert Announcements(es) == Announcements(es[..k]);
      }
    }
  }

  /** So the handover holds over every run, without a condition on the requests: what was announced as
      next is what becomes current, and in a chained run what is stored mirrors the last two
      announcements at every point. */
  lemma HandoverAlwaysHolds(m: Merkle, st: Stored, es: seq<Event>)
    requires ZeroFree(m, es)
    ensures forall i: nat, j: nat :: Follows(es, i, j) && es[j].current == es[i].next ==>
              ApplyAll(m, st, es[..j]).next == ApplyAll(m, st, es[..j + 1]).current
    ensures Chained(es) ==>
              forall i: nat, j: nat, k :: Follows(es, i, j) && j < k <= |es| && OnlyAsks(es, j + 1, k) ==>
                ApplyAll(m, st, es[..k]) == Stored(SetOf(m, es[i].next), SetOf(m, es[j].next))
  {
    hide ApplyAll, SetOf;
    forall i: nat, j: nat | Follows(es, i, j) && es[j].current == es[i].next
      ensures ApplyAll(m, st, es[..j]).next == ApplyAll(m, st, es[..j + 1]).current
    {
      HandoverAcrossAsks(m, st, es, i, j);
    }
    if Chained(es) {
      forall i: nat, j: nat, k | Follows(es, i, j) && j < k <= |es| && OnlyAsks(es, j + 1, k)
        ensures ApplyAll(m, st, es[..k]) == Stored(SetOf(m, es[i].next), SetOf(m, es[j].next))
      {
        ChainedRun(m, st, es, i, j, k);
      }
    }
  }

  /** Position `j` holds the first announcement after the one at `i`. */
  predicate Follows(es: seq<Event>, i: nat, j: nat)
  {
    i < j < |es| && es[i].NewSet? && es[j].NewSet? && OnlyAsks(es, i + 1, j)
  }

  // A hypothetical tree: a list of one leaf gets the all-zero root, any other list another one.
  const NONZERO_HASH: Hash := [1] + Zeros(31)
  const HYPOTHETICAL: Merkle :=
    Merkle(_ => NONZERO_HASH, (hs: seq<Hash>) => if |hs| == 1 then ZERO_HASH else NONZERO_HASH)

  /** The condition on commitments is needed: with a hypothetical tree that gives an announced set the
      all-zero root, the first request that finds other validators overwrites the set. */
  lemma HypotheticalZeroRootIsOverwritten(st: Stored, v: ValidatorSet, w: BeefyId, w': BeefyId, id: u64)
    ensures var next := ValidatorSet([w], id);
            var es := [NewSet(v, next, 0), AskNext([w, w'], 0)];
            ApplyAll(HYPOTHETICAL, st, es).next != SetOf(HYPOTHETICAL, next)
  {
    var next := ValidatorSet([w], id);
    var es := [NewSet(v, next, 0), AskNext([w, w'], 0)];
    Announced(HYPOTHETICAL, st, es, 0);
    AsksKeepNextIff(HYPOTHETICAL, st, es, 1, 2);
    assert es[..1] == [es[0]] && es[..2] == es;
    assert ZERO_HASH[0] != NONZERO_HASH[0];
    assert |HashAll(HYPOTHETICAL, Leaves(UnitStakes([w])))| == 1;
    assert |HashAll(HYPOTHETICAL, Leaves(UnitStakes([w, w'])))| == 2;
  }
}
