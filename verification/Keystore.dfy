/** The keystore wrapper of the AURA-to-BABE migration: BABE requests fall back to AURA keys while no
    BABE key is present. */
module Keystore {
  import opened Common

  type KeyType = string

  const AURA: KeyType := "aura"
  const BABE: KeyType := "babe"

  type PublicKey = Bytes

  /** The wrapped keystore: the raw public keys filed under each key type, and whether listing them
      works at all. Signing and `has_keys` look up one key and need no listing. */
  datatype Store = Store(keys: map<KeyType, seq<PublicKey>>, readable: bool)

  /** An sr25519 public key has 32 bytes. */
  predicate IsSr25519(k: PublicKey)
  {
    |k| == 32
  }

  function Filter(ks: seq<PublicKey>): (r: seq<PublicKey>)
    ensures forall k :: k in r <==> k in ks && IsSr25519(k)
  {
    if ks == [] then []
    else Filter(ks[..|ks| - 1]) + (if IsSr25519(ks[|ks| - 1]) then [ks[|ks| - 1]] else [])
  }

  // ----- The wrapped operations -----

  function Raw(s: Store, t: KeyType): seq<PublicKey>
  {
    if t in s.keys then s.keys[t] else []
  }

  /** A listing that fails reads as an empty one. */
  function InnerPublicKeys(s: Store, t: KeyType): seq<PublicKey>
  {
    if s.readable then Filter(Raw(s, t)) else []
  }

  predicate InnerSigns(s: Store, t: KeyType, k: PublicKey)
  {
    k in Raw(s, t)
  }

  datatype KeystoreError = Unavailable | Refused

  function InnerKeys(s: Store, t: KeyType): Result<seq<PublicKey>, KeystoreError>
  {
    if s.readable then Ok(Raw(s, t)) else Err(Unavailable)
  }

  predicate InnerHas(s: Store, k: PublicKey, t: KeyType)
  {
    k in Raw(s, t)
  }

  /** One insert, and whether the wrapped keystore accepts it. */
  datatype Insertion = Insertion(t: KeyType, k: PublicKey, accepted: bool)

  function InnerInsert(s: Store, e: Insertion): Store
  {
    if e.accepted then s.(keys := s.keys[e.t := Raw(s, e.t) + [e.k]]) else s
  }

  // ----- The wrapper -----

  /** The fallback of listing and signing is in force. */
  predicate Fallback(s: Store)
  {
    InnerPublicKeys(s, BABE) == []
  }

  /** `sr25519_public_keys` */
  function PublicKeys(s: Store, t: KeyType): seq<PublicKey>
  {
    var loaded := InnerPublicKeys(s, t);
    if loaded == [] && t == BABE then InnerPublicKeys(s, AURA) else loaded
  }

  /** Whether `sr25519_sign` and its VRF variants find the key. */
  predicate Signs(s: Store, t: KeyType, k: PublicKey)
  {
    if t == BABE && InnerPublicKeys(s, BABE) == [] then InnerSigns(s, AURA, k) else InnerSigns(s, t, k)
  }

  /** `keys` */
  function Keys(s: Store, t: KeyType): Result<seq<PublicKey>, KeystoreError>
  {
    var keys := InnerKeys(s, t);
    if keys.Ok? && keys.value == [] && t == BABE then InnerKeys(s, AURA) else keys
  }

  /** One entry of `has_keys` */
  predicate HasKey(s: Store, k: PublicKey, t: KeyType)
  {
    InnerHas(s, k, t) || (t == BABE && InnerHas(s, k, AURA))
  }

  /** An accepted sr25519 BABE key that can be listed. */
  predicate EndsFallback(s: Store, e: Insertion)
  {
    e.accepted && s.readable && e.t == BABE && IsSr25519(e.k)
  }

  class MigrationKeystore {
    var store: Store

    constructor (store: Store)
      ensures this.store == store
    {
      this.store := store;
    }

    /** `has_keys`: true exactly when every requested key is there, BABE ones possibly as AURA keys. */
    method HasKeys(requests: seq<(PublicKey, KeyType)>) returns (r: bool)
      ensures r <==> forall i :: 0 <= i < |requests| ==> HasKey(store, requests[i].0, requests[i].1)
    {
      for i := 0 to |requests|
        invariant forall j :: 0 <= j < i ==> HasKey(store, requests[j].0, requests[j].1)
      {
        var (key, t) := requests[i];
        if InnerHas(store, key, t) {
          continue;
        }
        if t == BABE && InnerHas(store, key, AURA) {
          continue;
        }
        return false;
      }
      return true;
    }

    /** `insert` goes to the wrapped keystore and reports what that says.  A refused insert changes
        nothing; an accepted one leaves every other listing as it was, and the BABE listing changes source
        only through a first sr25519 BABE key. */
    method Insert(e: Insertion) returns (r: Result<(), KeystoreError>)
      modifies this
      ensures r == if e.accepted then Ok(()) else Err(Refused)
      ensures store == InnerInsert(old(store), e)
      ensures r.Err? ==> store == old(store)
      ensures forall u :: u != e.t && u != BABE ==> PublicKeys(store, u) == PublicKeys(old(store), u)
      ensures Fallback(store) <==> Fallback(old(store)) && !EndsFallback(old(store), e)
    {
      InsertAndFallback(store, e);
      store := InnerInsert(store, e);
      r := if e.accepted then Ok(()) else Err(Refused);
    }
  }

  // ----- Agreement of the accessors -----

  /** For any contents and any key type, the sr25519 keys that are listed are exactly those that can sign,
      as long as listing works, and each of them passes `has_keys`. */
  lemma ListedIffSigns(s: Store, t: KeyType, k: PublicKey)
    requires IsSr25519(k)
    ensures k in PublicKeys(s, t) <==> s.readable && Signs(s, t, k)
    ensures k in PublicKeys(s, t) ==> HasKey(s, k, t)
  {
  }

  /** Requests for any other key type never fall back. */
  lemma OnlyBabeFallsBack(s: Store, t: KeyType, k: PublicKey)
    requires t != "babe"
    ensures PublicKeys(s, t) == InnerPublicKeys(s, t) && Keys(s, t) == InnerKeys(s, t)
    ensures Signs(s, t, k) == InnerSigns(s, t, k) && HasKey(s, k, t) == InnerHas(s, k, t)
  {
  }

  /** `has_keys` promises a signature except for BABE requests about a key that is filed under only one of
      the two types: as AURA, once some sr25519 BABE key is listed, or as BABE, while listing fails. */
  lemma HasKeyPromisesSigning(s: Store, t: KeyType, k: PublicKey)
    requires IsSr25519(k)
    ensures (HasKey(s, k, t) ==> Signs(s, t, k))
       <==> !(&& t == BABE
              && InnerHas(s, k, AURA) != InnerHas(s, k, BABE)
              && if InnerHas(s, k, AURA) then !Fallback(s) else !s.readable)
  {
  }

  /** A listing that fails is reported as such, whatever the type; no AURA keys are offered instead. */
  lemma FailedListingIsReported(s: Store, t: KeyType)
    ensures Keys(s, t).Err? <==> !s.readable
    ensures !s.readable ==> PublicKeys(s, t) == []
  {
  }

  /** `keys` decides on raw keys and `sr25519_public_keys` on sr25519 keys: they take the BABE listing
      from different types exactly when there are keys filed as BABE and all are of another length. */
  lemma ListingsDisagreeIff(s: Store)
    requires s.readable
    ensures (Raw(s, BABE) == [] <==> Fallback(s))
       <==> !(Raw(s, BABE) != [] && forall k :: k in Raw(s, BABE) ==> !IsSr25519(k))
    ensures Raw(s, BABE) == [] ==> Keys(s, BABE) == Ok(Raw(s, AURA))
    ensures Raw(s, BABE) != [] ==> Keys(s, BABE) == Ok(Raw(s, BABE))
  {
    FallbackIff(s);
    if Raw(s, BABE) != [] { assert Raw(s, BABE)[0] in Raw(s, BABE); }
  }

  lemma FallbackIff(s: Store)
    requires s.readable
    ensures Fallback(s) <==> forall k :: k in Raw(s, BABE) ==> !IsSr25519(k)
  {
    if Fallback(s) {
      forall k | k in Raw(s, BABE) ensures !IsSr25519(k) {
        assert k !in InnerPublicKeys(s, BABE);
      }
    } else {
      assert InnerPublicKeys(s, BABE)[0] in InnerPublicKeys(s, BABE);
    }
  }

  // ----- Over whole runs -----

  lemma InsertAndFallback(s: Store, e: Insertion)
    ensures Fallback(InnerInsert(s, e)) <==> Fallback(s) && !EndsFallback(s, e)
  {
  }

  function InsertAll(s: Store, es: seq<Insertion>): Store
  {
    if es == [] then s else InnerInsert(InsertAll(s, es[..|es| - 1]), es[|es| - 1])
  }

  /** No insert of the run ends the fallback. */
  predicate KeepsFallback(s: Store, es: seq<Insertion>)
  {
    Fallback(s) && forall i :: 0 <= i < |es| ==> !EndsFallback(s, es[i])
  }

  /** The fallback is in force exactly until the first accepted sr25519 BABE key that can be listed. */
  lemma {:induction false} FallbackLasts(s: Store, es: seq<Insertion>)
    ensures InsertAll(s, es).readable == s.readable
    ensures Fallback(InsertAll(s, es)) <==> KeepsFallback(s, es)
  {
    hide Fallback;
    if es != [] {
      var k := |es| - 1;
      FallbackLasts(s, es[..k]);
      InsertAndFallback(InsertAll(s, es[..k]), es[k]);
      assert es == es[..k] + [es[k]];
      assert KeepsFallback(s, es) <==> KeepsFallback(s, es[..k]) && !EndsFallback(s, es[k]);
    }
  }

  /** In any run of inserts BABE listing and signing use the AURA keys exactly until the first
      accepted sr25519 BABE key that can be listed, and the BABE keys ever after. */
  lemma FallbackOverRuns(s: Store, es: seq<Insertion>)
    ensures var s' := InsertAll(s, es);
            var source := if KeepsFallback(s, es) then "aura" else "babe";
            && PublicKeys(s', BABE) == InnerPublicKeys(s', source)
            && forall k :: Signs(s', BABE, k) <==> InnerSigns(s', source, k)
  {
    hide KeepsFallback;
    FallbackLasts(s, es);
  }

  /** A run of inserts leaves the earlier keys in place and adds the accepted ones, no others. */
  lemma {:induction false} InsertsOnlyAdd(s: Store, es: seq<Insertion>, t: KeyType)
    ensures Raw(s, t) <= Raw(InsertAll(s, es), t)
    ensures forall k :: k in Raw(InsertAll(s, es), t) <==> k in Raw(s, t) || Insertion(t, k, true) in es
  {
    if es != [] {
      InsertsOnlyAdd(s, es[..|es| - 1], t);
      assert es == es[..|es| - 1] + [es[|es| - 1]];
    }
  }

  /** `has_keys` keeps falling back key by key: an AURA key passes as a BABE key after any run of inserts.
      It can still sign as one exactly while the fallback lasts or if it is filed as BABE too. */
  lemma HasKeyNeverStopsFallingBack(s: Store, es: seq<Insertion>, k: PublicKey)
    requires k in Raw(s, AURA)
    ensures HasKey(InsertAll(s, es), k, BABE)
    ensures Signs(InsertAll(s, es), BABE, k) <==> KeepsFallback(s, es) || k in Raw(s, BABE) || Insertion(BABE, k, true) in es
  {
    hide KeepsFallback;
    InsertsOnlyAdd(s, es, AURA);
    InsertsOnlyAdd(s, es, BABE);
    FallbackOverRuns(s, es);
  }

  /** `has_keys` accepting a key that cannot sign, at real runs: an AURA key after another key came in as
      BABE, and a BABE key in a keystore whose listing fails. */
  lemma AcceptedButCannotSign()
    ensures var key: PublicKey, other: PublicKey := Zeros(32), [1] + Zeros(31);
            var s := InsertAll(Store(map[], true), [Insertion(AURA, key, true), Insertion(BABE, other, true)]);
            HasKey(s, key, BABE) && !Signs(s, BABE, key)
    ensures var key: PublicKey := Zeros(32);
            var s := InsertAll(Store(map[], false), [Insertion(BABE, key, true)]);
            HasKey(s, key, BABE) && !Signs(s, BABE, key)
  {
    var key: PublicKey, other: PublicKey := Zeros(32), [1] + Zeros(31);
    assert key[0] != other[0];
    var aura, babe := Insertion(AURA, key, true), Insertion(BABE, other, true);
    var s := Store(map[AURA := [key]], true);
    assert [aura][..0] == [] && [aura, babe][..1] == [aura] && [babe][..0] == [];
    assert [] + [key] == [key];
    assert InsertAll(Store(map[], true), [aura]) == s;
    assert InsertAll(s, [babe]) == InsertAll(Store(map[], true), [aura, babe]);
    HasKeyNeverStopsFallingBack(s, [babe], key);
    assert EndsFallback(s, [babe][0]);
    var unreadable := Store(map[], false);
    InsertsOnlyAdd(unreadable, [Insertion(BABE, key, true)], BABE);
    InsertsOnlyAdd(unreadable, [Insertion(BABE, key, true)], AURA);
    FallbackLasts(unreadable, [Insertion(BABE, key, true)]);
  }
}
