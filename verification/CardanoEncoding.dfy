/** The relay's proof for Cardano: collecting signers, pairing them with validators, and encoding the
    whole proof, recursive proof tree included, as Plutus data that can be decoded again. */
module CardanoEncoding {
  import opened Common
  import opened Scale
  import opened BeefyStakes
  import opened BeefyPayload

  const TAG := 121

  datatype PlutusData =
    | Constr(tag: nat, fields: seq<PlutusData>)
    | List(items: seq<PlutusData>)
    | Int(value: int)
    | BoundedBytes(bytes: Bytes)

  datatype Vote = Vote(signature: Bytes, index: u64, publicKey: Bytes)

  datatype PayloadItem = PayloadItem(id: Bytes, data: Bytes)

  datatype Commitment = Commitment(payloads: seq<PayloadItem>, blockNumber: u64, setId: u64)

  datatype SignedCommitment = SignedCommitment(commitment: Commitment, votes: seq<Vote>)

  datatype ProofNode = Leaf(hash: Bytes) | Node(nodes: seq<ProofNode>)

  datatype AuthoritiesProof = AuthoritiesProof(root: Bytes, totalLeaves: u32, proof: ProofNode)

  datatype RelayChainProof = RelayChainProof(signed: SignedCommitment, proof: AuthoritiesProof)

  // ----- Signers -----

  type Signature = Bytes

  /** The justification the relay receives. */
  datatype Justification = Justification(
    payload: Payload, blockNumber: u32, setId: u64, signatures: seq<Option<Signature>>)

  /** `collect_signature_indices`, once the signatures are verified */
  function SignerIndices(sigs: seq<Option<Signature>>): seq<nat>
  {
    if sigs == [] then []
    else
      var k := |sigs| - 1;
      SignerIndices(sigs[..k]) + (if sigs[k].Some? then [k] else [])
  }

  /** `signature.pop()` */
  function Pop(sig: Signature): Bytes
  {
    if sig == [] then [] else sig[..|sig| - 1]
  }

  /** The votes among the first `k` pairs of signature and validator. */
  function VotesUpTo(sigs: seq<Option<Signature>>, validators: seq<BeefyId>, k: nat): seq<Vote>
    requires k <= |sigs| && k <= |validators| && k < U64_BOUND
  {
    if k == 0 then []
    else
      VotesUpTo(sigs, validators, k - 1)
      + (if sigs[k - 1].Some? then [Vote(Pop(sigs[k - 1].value), k - 1, validators[k - 1])] else [])
  }

  function Min(a: nat, b: nat): nat { if a <= b then a else b }

  /** The votes of a justification: the shorter of the two lists decides how far the pairing goes. */
  function Votes(sigs: seq<Option<Signature>>, validators: seq<BeefyId>): seq<Vote>
    requires |sigs| < U64_BOUND
  {
    VotesUpTo(sigs, validators, Min(|sigs|, |validators|))
  }

  function VoteIndices(votes: seq<Vote>): (r: seq<nat>)
    ensures |r| == |votes|
    ensures forall i :: 0 <= i < |votes| ==> r[i] == votes[i].index
  {
    seq(|votes|, i requires 0 <= i < |votes| => votes[i].index)
  }

  /** A signature without its last byte; an empty one stays empty. */
  predicate ShortOf(short: Bytes, sig: Signature)
  {
    if sig == [] then short == [] else sig == short + [sig[|sig| - 1]]
  }

  /** Each vote pairs a validator with its own signature, minus the last byte. */
  predicate VoteFor(v: Vote, sigs: seq<Option<Signature>>, validators: seq<BeefyId>)
  {
    && v.index < |sigs| && v.index < |validators|
    && sigs[v.index].Some?
    && ShortOf(v.signature, sigs[v.index].value)
    && v.publicKey == validators[v.index]
  }

  lemma PopDropsTheLast(sig: Signature)
    ensures ShortOf(Pop(sig), sig)
  {
  }

  lemma {:induction false} VotesArePairs(sigs: seq<Option<Signature>>, validators: seq<BeefyId>, k: nat)
    requires k <= |sigs| && k <= |validators| && k < U64_BOUND
    ensures forall i :: 0 <= i < |VotesUpTo(sigs, validators, k)| ==>
              VoteFor(VotesUpTo(sigs, validators, k)[i], sigs, validators)
    ensures VoteIndices(VotesUpTo(sigs, validators, k)) == SignerIndices(sigs[..k])
  {
    if k > 0 {
      if sigs[k - 1].Some? { PopDropsTheLast(sigs[k - 1].value); }
      VotesArePairs(sigs, validators, k - 1);
      assert sigs[..k][..k - 1] == sigs[..k - 1];
    }
  }

  lemma {:induction false} SignersIncrease(sigs: seq<Option<Signature>>)
    ensures forall i, j :: 0 <= i < j < |SignerIndices(sigs)| ==> SignerIndices(sigs)[i] < SignerIndices(sigs)[j]
    ensures forall n :: n in SignerIndices(sigs) <==> 0 <= n < |sigs| && sigs[n].Some?
  {
    if sigs != [] {
      var k := |sigs| - 1;
      SignersIncrease(sigs[..k]);
      var before := SignerIndices(sigs[..k]);
      assert forall i :: 0 <= i < |before| ==> before[i] in before;
      assert forall n :: n in SignerIndices(sigs) <==>
        n in SignerIndices(sigs[..k]) || (n == k && sigs[k].Some?);
    }
  }

  lemma {:induction false} SignersBeyond(sigs: seq<Option<Signature>>, k: nat)
    requires k <= |sigs|
    ensures SignerIndices(sigs) == SignerIndices(sigs[..k])
       <==> forall n :: k <= n < |sigs| ==> sigs[n].None?
    ensures |SignerIndices(sigs)| >= |SignerIndices(sigs[..k])|
    decreases |sigs|
  {
    if k == |sigs| {
      assert sigs[..k] == sigs;
    } else {
      var m := |sigs| - 1;
      assert sigs[..m][..k] == sigs[..k];
      SignersBeyond(sigs[..m], k);
      if forall n :: k <= n < |sigs| ==> sigs[n].None? {
        assert forall n :: k <= n < m ==> sigs[..m][n].None?;
      } else if sigs[m].None? {
        var n :| k <= n < |sigs| && sigs[n].Some?;
        assert sigs[..m][n].Some?;
      }
    }
  }

  /** The votes are the signers: their indices are strictly increasing and are those of the validators who
      signed, each vote carries its own validator's key and its signature without the last byte, and the
      vote indices are the collected signer indices exactly when no signature stands beyond the
      validator list. */
  lemma VotesAreSigners(sigs: seq<Option<Signature>>, validators: seq<BeefyId>)
    requires |sigs| < U64_BOUND
    ensures var votes := Votes(sigs, validators);
            && (forall i :: 0 <= i < |votes| ==> VoteFor(votes[i], sigs, validators))
            && (forall i, j :: 0 <= i < j < |votes| ==> votes[i].index < votes[j].index)
            && (forall n :: n in VoteIndices(votes) <==> 0 <= n < |sigs| && n < |validators| && sigs[n].Some?)
            && (VoteIndices(votes) == SignerIndices(sigs)
                <==> forall n :: |validators| <= n < |sigs| ==> sigs[n].None?)
  {
    var k := Min(|sigs|, |validators|);
    var votes := Votes(sigs, validators);
    VotesArePairs(sigs, validators, k);
    SignersIncrease(sigs[..k]);
    SignersBeyond(sigs, k);
    forall i, j | 0 <= i < j < |votes| ensures votes[i].index < votes[j].index {
      assert VoteIndices(votes)[i] < VoteIndices(votes)[j];
    }
  }

  // ----- Encoding -----

  const I64_BOUND := 0x8000_0000_0000_0000

  /** `as i64` of a 64-bit unsigned integer: the upper half wraps to negative numbers. */
  function AsI64(n: u64): int
  {
    if n < I64_BOUND then n else n - U64_BOUND
  }

  function EncodeVote(v: Vote): PlutusData
  {
    Constr(TAG, [BoundedBytes(v.signature), Int(AsI64(v.index)), BoundedBytes(v.publicKey)])
  }

  function EncodePayload(p: PayloadItem): PlutusData
  {
    Constr(TAG, [BoundedBytes(p.id), BoundedBytes(p.data)])
  }

  function EncodeCommitment(c: Commitment): PlutusData
  {
    Constr(TAG, [List(MapSeq(c.payloads, EncodePayload)), Int(AsI64(c.blockNumber)), Int(AsI64(c.setId))])
  }

  function EncodeSigned(s: SignedCommitment): PlutusData
  {
    Constr(TAG, [EncodeCommitment(s.commitment), List(MapSeq(s.votes, EncodeVote))])
  }

  function EncodeNode(n: ProofNode): PlutusData
  {
    match n
    case Leaf(hash) => BoundedBytes(hash)
    case Node(nodes) => List(seq(|nodes|, i requires 0 <= i < |nodes| => EncodeNode(nodes[i])))
  }

  function EncodeProof(p: AuthoritiesProof): PlutusData
  {
    Constr(TAG, [BoundedBytes(p.root), Int(AsI64(p.totalLeaves)), EncodeNode(p.proof)])
  }

  function EncodeRelayProof(r: RelayChainProof): PlutusData
  {
    Constr(TAG, [EncodeSigned(r.signed), EncodeProof(r.proof)])
  }

  // ----- Decoding -----

  function FromI64(i: int): Option<u64>
  {
    if 0 <= i < I64_BOUND then Some(i)
    else if -I64_BOUND <= i < 0 then Some(i + U64_BOUND)
    else None
  }

  function DecodeInt(d: PlutusData): Option<u64>
  {
    if d.Int? then FromI64(d.value) else None
  }

  function DecodeBytes(d: PlutusData): Option<Bytes>
  {
    if d.BoundedBytes? then Some(d.bytes) else None
  }

  function DecodeAll<T>(ds: seq<PlutusData>, f: PlutusData -> Option<T>): Option<seq<T>>
  {
    if ds == [] then Some([])
    else
      var last := f(ds[|ds| - 1]);
      var rest := DecodeAll(ds[..|ds| - 1], f);
      if last.None? || rest.None? then None else Some(rest.value + [last.value])
  }

  /** A constructor with the known tag and this many fields. */
  predicate IsRecord(d: PlutusData, n: nat)
  {
    d.Constr? && d.tag == TAG && |d.fields| == n
  }

  function DecodeVote(d: PlutusData): Option<Vote>
  {
    if !IsRecord(d, 3) then None
    else
      var signature, index, key := DecodeBytes(d.fields[0]), DecodeInt(d.fields[1]), DecodeBytes(d.fields[2]);
      if signature.None? || index.None? || key.None? then None
      else Some(Vote(signature.value, index.value, key.value))
  }

  function DecodePayload(d: PlutusData): Option<PayloadItem>
  {
    if !IsRecord(d, 2) then None
    else
      var id, data := DecodeBytes(d.fields[0]), DecodeBytes(d.fields[1]);
      if id.None? || data.None? then None else Some(PayloadItem(id.value, data.value))
  }

  function DecodeCommitment(d: PlutusData): Option<Commitment>
  {
    if !IsRecord(d, 3) || !d.fields[0].List? then None
    else
      var payloads := DecodeAll(d.fields[0].items, DecodePayload);
      var block, id := DecodeInt(d.fields[1]), DecodeInt(d.fields[2]);
      if payloads.None? || block.None? || id.None? then None
      else Some(Commitment(payloads.value, block.value, id.value))
  }

  function DecodeSigned(d: PlutusData): Option<SignedCommitment>
  {
    if !IsRecord(d, 2) || !d.fields[1].List? then None
    else
      var commitment := DecodeCommitment(d.fields[0]);
      var votes := DecodeAll(d.fields[1].items, DecodeVote);
      if commitment.None? || votes.None? then None
      else Some(SignedCommitment(commitment.value, votes.value))
  }

  function DecodeNode(d: PlutusData): Option<ProofNode>
    decreases d
  {
    match d
    case BoundedBytes(hash) => Some(Leaf(hash))
    case List(items) =>
      (match DecodeNodes(items) case None => None case Some(nodes) => Some(Node(nodes)))
    case Constr(_, _) => None
    case Int(_) => None
  }

  function DecodeNodes(ds: seq<PlutusData>): Option<seq<ProofNode>>
    decreases ds
  {
    if ds == [] then Some([])
    else
      var last := DecodeNode(ds[|ds| - 1]);
      var rest := DecodeNodes(ds[..|ds| - 1]);
      if last.None? || rest.None? then None else Some(rest.value + [last.value])
  }

  function DecodeProof(d: PlutusData): Option<AuthoritiesProof>
  {
    if !IsRecord(d, 3) then None
    else
      var root, total, proof := DecodeBytes(d.fields[0]), DecodeInt(d.fields[1]), DecodeNode(d.fields[2]);
      if root.None? || total.None? || proof.None? || total.value >= U32_BOUND then None
      else Some(AuthoritiesProof(root.value, total.value, proof.value))
  }

  function DecodeRelayProof(d: PlutusData): Option<RelayChainProof>
  {
    if !IsRecord(d, 2) then None
    else
      var signed, proof := DecodeSigned(d.fields[0]), DecodeProof(d.fields[1]);
      if signed.None? || proof.None? then None else Some(RelayChainProof(signed.value, proof.value))
  }

  // ----- Round trips -----

  /** Wrapping loses nothing, but the number on the wire is the id itself only below 2^63. */
  lemma I64RoundTrip(n: u64)
    ensures FromI64(AsI64(n)) == Some(n)
    ensures AsI64(n) == n <==> n < 0x8000_0000_0000_0000
    ensures -0x8000_0000_0000_0000 <= AsI64(n) < 0x8000_0000_0000_0000
    ensures AsI64(n) == n || AsI64(n) == n - 0x1_0000_0000_0000_0000
  {
  }

  lemma {:induction false} AllRoundTrip<T>(xs: seq<T>, enc: T -> PlutusData, dec: PlutusData -> Option<T>)
    requires forall x :: x in xs ==> dec(enc(x)) == Some(x)
    ensures DecodeAll(MapSeq(xs, enc), dec) == Some(xs)
  {
    if xs != [] {
      var k := |xs| - 1;
      assert MapSeq(xs, enc)[..k] == MapSeq(xs[..k], enc);
      AllRoundTrip(xs[..k], enc, dec);
      assert xs == xs[..k] + [xs[k]];
    }
  }

  lemma {:induction false} NodesRoundTrip(ds: seq<PlutusData>, nodes: seq<ProofNode>)
    requires |ds| == |nodes|
    requires forall i :: 0 <= i < |ds| ==> ds[i] == EncodeNode(nodes[i])
    ensures DecodeNodes(ds) == Some(nodes)
    decreases nodes, |nodes|
  {
    if nodes != [] {
      var k := |nodes| - 1;
      NodesRoundTrip(ds[..k], nodes[..k]);
      NodeRoundTrip(nodes[k]);
      assert nodes == nodes[..k] + [nodes[k]];
    }
  }

  /** Every proof tree is read back, whatever its shape. */
  lemma {:induction false} NodeRoundTrip(n: ProofNode)
    ensures DecodeNode(EncodeNode(n)) == Some(n)
    decreases n
  {
    if n.Node? {
      NodesRoundTrip(EncodeNode(n).items, n.nodes);
    }
  }

  lemma SignedRoundTrip(s: SignedCommitment)
    ensures DecodeSigned(EncodeSigned(s)) == Some(s)
  {
    hide DecodeAll;
    var c := s.commitment;
    I64RoundTrip(c.blockNumber);
    I64RoundTrip(c.setId);
    forall p | p in c.payloads ensures DecodePayload(EncodePayload(p)) == Some(p) {
    }
    AllRoundTrip(c.payloads, EncodePayload, DecodePayload);
    forall v | v in s.votes ensures DecodeVote(EncodeVote(v)) == Some(v) {
      I64RoundTrip(v.index);
    }
    AllRoundTrip(s.votes, EncodeVote, DecodeVote);
  }

  /** The whole proof is read back from its encoding. */
  lemma RelayProofRoundTrip(r: RelayChainProof)
    ensures DecodeRelayProof(EncodeRelayProof(r)) == Some(r)
  {
    hide EncodeSigned, DecodeSigned, EncodeNode, DecodeNode;
    SignedRoundTrip(r.signed);
    NodeRoundTrip(r.proof.proof);
    I64RoundTrip(r.proof.totalLeaves);
  }

  /** A constructor with the known tag, 121, and these fields. */
  predicate Record(d: PlutusData, fields: seq<PlutusData>)
  {
    d == Constr(121, fields)
  }

  /** Where everything is in the encoded proof; the order of the fields is part of the format. */
  lemma RelayProofLayout(r: RelayChainProof) returns (commitment: PlutusData, payloads: seq<PlutusData>, votes: seq<PlutusData>)
    ensures var c, p := r.signed.commitment, r.proof;
            && Record(EncodeRelayProof(r), [
                 Constr(121, [commitment, List(votes)]),
                 Constr(121, [BoundedBytes(p.root), Int(p.totalLeaves), EncodeNode(p.proof)])])
            && Record(commitment, [List(payloads), Int(AsI64(c.blockNumber)), Int(AsI64(c.setId))])
            && |payloads| == |c.payloads|
            && (forall i :: 0 <= i < |payloads| ==>
                  Record(payloads[i], [BoundedBytes(c.payloads[i].id), BoundedBytes(c.payloads[i].data)]))
            && |votes| == |r.signed.votes|
            && (forall i :: 0 <= i < |votes| ==>
                  var v := r.signed.votes[i];
                  Record(votes[i], [BoundedBytes(v.signature), Int(AsI64(v.index)), BoundedBytes(v.publicKey)]))
  {
    commitment := EncodeCommitment(r.signed.commitment);
    payloads := MapSeq(r.signed.commitment.payloads, EncodePayload);
    votes := MapSeq(r.signed.votes, EncodeVote);
  }

  /** A leaf is its hash, a node the list of its children in order. */
  lemma NodeLayout(n: ProofNode)
    ensures match n
            case Leaf(hash) => EncodeNode(n) == BoundedBytes(hash)
            case Node(nodes) =>
              && EncodeNode(n).List? && |EncodeNode(n).items| == |nodes|
              && forall i :: 0 <= i < |nodes| ==> EncodeNode(n).items[i] == EncodeNode(nodes[i])
  {
  }

  // ----- The proof as a whole -----

  /** The unseen tree code: the proof tree for a set of leaf positions. */
  type Prover = (seq<Hash>, seq<nat>) -> ProofNode

  /** `from_signed_commitment_and_validators` */
  function Sign(j: Justification, validators: seq<BeefyId>): SignedCommitment
    requires |j.signatures| < U64_BOUND
  {
    var roots := GetAllRaw(j.payload, MMR_ROOT_ID);
    var items := seq(|roots|, i requires 0 <= i < |roots| => PayloadItem([0x6d, 0x68], roots[i]));
    SignedCommitment(Commitment(items, j.blockNumber, j.setId), Votes(j.signatures, validators))
  }

  /** `RelayChainProof::generate`; `verified` is the verdict of the signature check. */
  function Generate(m: Merkle, prove: Prover, j: Justification, validators: seq<BeefyId>, verified: bool)
    : Result<RelayChainProof, RelayError>
    requires |j.signatures| < U64_BOUND
  {
    if !verified then Err(NoMatchingSignature)
    else
      match Unpack(j.payload)
      case Err(e) => Err(e)
      case Ok(info) =>
        match RelayRoot(m, info.currentStakes)
        case None => Err(InvalidProof)
        case Some(root) =>
          var tree := prove(LeafHashes(m, info.currentStakes), SignerIndices(j.signatures));
          Ok(RelayChainProof(
            Sign(j, validators), AuthoritiesProof(root, |validators| % U32_BOUND, tree)))
  }

  /** When there is a proof and when there is which error, for any justification: signatures that do not
      verify come first, then whatever is missing in the payload, then an empty list of stakes.  A proof
      then holds every root of the payload, the block, the set, the votes and the root over the packed
      stakes. */
  lemma GenerateOutcome(m: Merkle, prove: Prover, j: Justification, validators: seq<BeefyId>, verified: bool)
    requires |j.signatures| < U64_BOUND
    ensures var r := Generate(m, prove, j, validators, verified);
            var roots := GetAllRaw(j.payload, "mh");
            if !verified then r == Err(NoMatchingSignature)
            else if Unpack(j.payload).Err? then r == Err(Unpack(j.payload).error)
            else if Unpack(j.payload).value.currentStakes == [] then r == Err(InvalidProof)
            else
              var stakes := Unpack(j.payload).value.currentStakes;
              && r.Ok?
              && r.value.proof.root == m.root(HashAll(m, Leaves(stakes)))
              && r.value.proof.totalLeaves == |validators| % 0x1_0000_0000
              && r.value.proof.proof == prove(HashAll(m, Leaves(stakes)), SignerIndices(j.signatures))
              && r.value.signed.votes == Votes(j.signatures, validators)
              && r.value.signed.commitment.blockNumber == j.blockNumber
              && r.value.signed.commitment.setId == j.setId
              && |r.value.signed.commitment.payloads| == |roots|
              && forall i :: 0 <= i < |roots| ==>
                   r.value.signed.commitment.payloads[i] == PayloadItem([0x6d, 0x68], roots[i])
  {
    hide Unpack, Votes, SignerIndices, GetAllRaw, LeafHashes, HashAll;
    if verified && Unpack(j.payload).Ok? {
      SameLeafHashes(m, Unpack(j.payload).value.currentStakes);
    }
  }

  /** The leaf at a vote's index is the hash of the vote's own key and a stake of 1. */
  predicate VoteOnLeaf(m: Merkle, v: Vote, validators: seq<BeefyId>)
  {
    && v.index < |validators|
    && LeafHashes(m, UnitStakes(validators))[v.index] == m.keccak(v.publicKey + [1, 0, 0, 0, 0, 0, 0, 0])
  }

  lemma VotesStandOnTheirLeaves(m: Merkle, sigs: seq<Option<Signature>>, validators: seq<BeefyId>, i: nat)
    requires |sigs| < U64_BOUND && i < |Votes(sigs, validators)|
    ensures VoteOnLeaf(m, Votes(sigs, validators)[i], validators)
  {
    hide LeBytes;
    OneInEightBytes();
    VotesAreSigners(sigs, validators);
    assert VoteFor(Votes(sigs, validators)[i], sigs, validators);
  }

  /** End to end: for a payload the node packed from the unit stakes of the signing validators, the
      relay's proof carries the packed keyset commitment as its root, covers all validators, is made
      for the leaves of exactly the voters, and every vote stands on its own leaf. */
  lemma ProofMatchesCommitment(
    m: Merkle, prove: Prover, api: RuntimeApi, id: u64, j: Justification, validators: seq<BeefyId>)
    requires Encodable(api) && Provide(api) == Some(j.payload)
    requires api.currentStakes == Some(UnitStakes(validators)) && validators != []
    requires api.currentSet(UnitStakes(validators)) == Some(ComputeSet(m, id, UnitStakes(validators)))
    requires api.nextStakes.Some? && |j.signatures| == |validators|
    ensures Generate(m, prove, j, validators, true).Ok? && (api.digestRoot.Some? || api.mmrRoot.Some?)
    ensures var r := Generate(m, prove, j, validators, true).value;
            && r.proof.root == ComputeSet(m, id, UnitStakes(validators)).commitment
            && r.proof.totalLeaves == |validators|
            && r.signed.commitment
               == Commitment([PayloadItem([0x6d, 0x68], if api.digestRoot.Some? then api.digestRoot.value
                                                         else api.mmrRoot.value)], j.blockNumber, j.setId)
            && r.proof.proof == prove(LeafHashes(m, UnitStakes(validators)), VoteIndices(r.signed.votes))
            && forall i :: 0 <= i < |r.signed.votes| ==> VoteOnLeaf(m, r.signed.votes[i], validators)
  {
    hide Provide, Unpack, RelayRoot, ComputeSet, Votes, VoteOnLeaf, SignerIndices, GetAllRaw;
    RelayReadsWhatNodePacked(api);
    RelayAgreesWithSet(m, id, UnitStakes(validators));
    PayloadCarriesMmrRoot(api);
    VotesAreSigners(j.signatures, validators);
    forall i | 0 <= i < |Votes(j.signatures, validators)|
      ensures VoteOnLeaf(m, Votes(j.signatures, validators)[i], validators)
    {
      VotesStandOnTheirLeaves(m, j.signatures, validators, i);
    }
  }
}
