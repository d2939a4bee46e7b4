/** When the transformer is idempotent, when it can be undone, and what it leaves behind. */
module JsonLaws {
  import opened Common
  import opened Json

  // ----- Numbers are never touched, and nothing else becomes one -----

  lemma NumbersAreFixed(v: Value)
    ensures Transform(v).Num? <==> v.Num?
    ensures v.Num? ==> Transform(v) == v
    ensures IsU8(Transform(v)) <==> IsU8(v)
  {
  }

  /** An array of numbers comes back unchanged unless it is a byte array. */
  lemma NumberArrays(v: Value)
    requires v.Array? && OnlyNumbers(v.items)
    ensures Transform(v) == v <==> !IsByteArray(v)
    ensures IsByteArray(v) ==> Transform(v).Str?
  {
  }

  /** Only an array transforms to an array, item by item. */
  lemma ArraysComeFromArrays(v: Value)
    requires Transform(v).Array?
    ensures v.Array? && !IsByteArray(v) && |Transform(v).items| == |v.items|
    ensures forall i :: 0 <= i < |v.items| ==> Transform(v).items[i] == Transform(v.items[i])
  {
  }

  /** Whatever transforms to an array of numbers is that array. */
  lemma NumberArraysComeFromThemselves(v: Value)
    requires Transform(v).Array? && OnlyNumbers(Transform(v).items)
    ensures Transform(v) == v
  {
  }

  /** The transformer never makes a verification key out of something else. */
  lemma NoNewVerificationKeys(m: Member)
    requires m.value.Array? ==> !IsVerificationKey(m.key, m.value.items)
    ensures var m' := TransformMember(m);
            m'.value.Array? ==> !IsVerificationKey(m'.key, m'.value.items)
  {
    var m' := TransformMember(m);
    if m'.value.Array? && IsVerificationKey(m'.key, m'.value.items) {
      ArraysComeFromArrays(m.value);
      NumberArraysComeFromThemselves(m.value.items[0]);
      NumberArraysComeFromThemselves(m.value.items[1]);
    }
  }

  // ----- What counts as bytes -----

  /** The JSON form of a byte string. */
  function FromBytes(bytes: Bytes): (v: Value)
    ensures v.Array? && |v.items| == |bytes|
  {
    Array(seq(|bytes|, i requires 0 <= i < |bytes| => Num(PosInt(bytes[i]))))
  }

  /** The values that are encoded are exactly the non-empty byte strings, all 256 bytes included. */
  lemma EncodedIffBytes(v: Value)
    ensures IsByteArray(v) <==> exists bytes: Bytes :: bytes != [] && v == FromBytes(bytes)
  {
    if IsByteArray(v) {
      var bytes: Bytes := seq(|v.items|, i requires 0 <= i < |v.items| => v.items[i].number.n);
      assert v.items == FromBytes(bytes).items;
      assert v == FromBytes(bytes);
    }
  }

  /** Sixteen digits, in order. */
  const DIGITS := "0123456789abcdef"

  /** The text of a byte string: `0x`, then two lower-case digits per byte, high one first. */
  ghost predicate Spells(s: string, bytes: Bytes)
  {
    && |s| == 2 + 2 * |bytes| && s[0] == '0' && s[1] == 'x'
    && forall i :: 0 <= i < |bytes| ==>
         s[2 + 2 * i] == DIGITS[bytes[i] / 16] && s[3 + 2 * i] == DIGITS[bytes[i] % 16]
  }

  lemma DigitsInOrder(d: int)
    requires 0 <= d < 16
    ensures HexDigit(d) == DIGITS[d]
  {
  }

  lemma {:induction false} HexEncodeAt(items: seq<Value>, i: nat)
    requires OnlyU8(items) && i < |items|
    ensures HexEncode(items)[2 * i] == DIGITS[items[i].number.n / 16]
    ensures HexEncode(items)[2 * i + 1] == DIGITS[items[i].number.n % 16]
  {
    hide HexDigit;
    var k := |items| - 1;
    if i < k {
      HexEncodeAt(items[..k], i);
    } else {
      DigitsInOrder(items[k].number.n / 16);
      DigitsInOrder(items[k].number.n % 16);
    }
  }

  lemma HexEncodeSpells(bytes: Bytes)
    ensures OnlyU8(FromBytes(bytes).items)
    ensures Spells("0x" + HexEncode(FromBytes(bytes).items), bytes)
  {
    hide HexEncode;
    var items := FromBytes(bytes).items;
    forall i | 0 <= i < |bytes|
      ensures ("0x" + HexEncode(items))[2 + 2 * i] == DIGITS[bytes[i] / 16]
      ensures ("0x" + HexEncode(items))[3 + 2 * i] == DIGITS[bytes[i] % 16]
    {
      HexEncodeAt(items, i);
    }
  }

  /** A non-empty byte string becomes its hex text. */
  lemma BytesBecomeText(bytes: Bytes)
    requires bytes != []
    ensures Transform(FromBytes(bytes)).Str? && Spells(Transform(FromBytes(bytes)).s, bytes)
  {
    HexEncodeSpells(bytes);
  }

  /** A member is a verification key: the key `vk` and two arrays of numbers. */
  predicate VkPair(m: Member, a: seq<Value>, b: seq<Value>)
  {
    && m == Member("vk", Array([Array(a), Array(b)]))
    && (forall i :: 0 <= i < |a| ==> a[i].Num?) && (forall i :: 0 <= i < |b| ==> b[i].Num?)
  }

  /** Which values keep what: of a verification key the first half is transformed and the second one kept,
      of every other member the value is transformed, arrays that are not byte strings and objects keep
      their length, order and keys, and all other values stay. */
  lemma WhatIsTransformed(v: Value)
    ensures match v
            case Array(items) =>
              (forall bytes: Bytes :: bytes != [] ==> v != FromBytes(bytes)) ==>
                Transform(v).Array? && |Transform(v).items| == |items|
                && forall i :: 0 <= i < |items| ==> Transform(v).items[i] == Transform(items[i])
            case Object(members) =>
              && Transform(v).Object? && |Transform(v).members| == |members|
              && forall i :: 0 <= i < |members| ==> Transform(v).members[i] == TransformMember(members[i])
            case _ => Transform(v) == v
  {
    EncodedIffBytes(v);
  }

  lemma KeysKeepTheirSecondHalf(m: Member, a: seq<Value>, b: seq<Value>)
    ensures VkPair(m, a, b) ==> TransformMember(m) == Member("vk", Array([Transform(Array(a)), Array(b)]))
  {
  }

  lemma OtherMembersAreTransformed(m: Member)
    requires forall a, b :: !VkPair(m, a, b)
    ensures TransformMember(m) == Member(m.key, Transform(m.value))
  {
    if m.value.Array? && |m.value.items| == 2 && m.value.items[0].Array? && m.value.items[1].Array? {
      var a, b := m.value.items[0].items, m.value.items[1].items;
      assert m.value.items == [Array(a), Array(b)];
      assert !VkPair(m, a, b);
    }
  }

  // ----- Idempotence -----

  /** A verification key whose halves are both non-empty byte arrays. */
  predicate DoubleKey(m: Member)
  {
    && m.key == "vk" && m.value.Array? && |m.value.items| == 2
    && IsByteArray(m.value.items[0]) && IsByteArray(m.value.items[1])
  }

  /** No such key anywhere in the value. */
  predicate NoDoubleKey(v: Value)
  {
    match v
    case Array(items) => forall i :: 0 <= i < |items| ==> NoDoubleKey(items[i])
    case Object(members) =>
      forall i :: 0 <= i < |members| ==> !DoubleKey(members[i]) && NoDoubleKey(members[i].value)
    case Null => true
    case Bool(_) => true
    case Num(_) => true
    case Str(_) => true
  }

  lemma NumbersHoldNoKey(v: Value)
    requires v.Array? && OnlyNumbers(v.items)
    ensures NoDoubleKey(v)
  {
  }

  lemma VerificationKeyHoldsNoKey(m: Member)
    requires m.value.Array? && IsVerificationKey(m.key, m.value.items)
    ensures NoDoubleKey(m.value)
  {
  }

  /** A verification key is stable under a second pass exactly when it is not a double key. */
  lemma VerificationKeyTwice(m: Member)
    requires m.value.Array? && IsVerificationKey(m.key, m.value.items)
    ensures TransformMember(TransformMember(m)) == TransformMember(m) <==> !DoubleKey(m)
  {
    var first, second := m.value.items[0], m.value.items[1];
    var m' := TransformMember(m);
    assert m'.value.items == [Transform(first), second];
    NumberArrays(first);
    NumberArrays(second);
    if IsByteArray(first) {
      assert !IsU8(m'.value.items[0]);
      var t := Transform(m'.value);
      assert Transform(Transform(first)) == Transform(first);
      assert t.items[0] == Transform(first) && t.items[1] == Transform(second);
      assert t.items == [Transform(first), Transform(second)];
      assert TransformMember(m') == Member(m.key, t);
    } else {
      assert m.value.items == [first, second];
      assert m' == m;
    }
  }

  lemma {:induction false} MemberTwice(m: Member)
    ensures TransformMember(TransformMember(m)) == TransformMember(m)
       <==> !DoubleKey(m) && NoDoubleKey(m.value)
    decreases m
  {
    if m.value.Array? && IsVerificationKey(m.key, m.value.items) {
      VerificationKeyTwice(m);
      VerificationKeyHoldsNoKey(m);
    } else {
      NoNewVerificationKeys(m);
      IdempotentIff(m.value);
    }
  }

  /** A second pass changes nothing exactly when the value holds no verification key with two
      non-empty byte arrays. */
  lemma {:induction false} IdempotentIff(v: Value)
    ensures Transform(Transform(v)) == Transform(v) <==> NoDoubleKey(v)
    decreases v
  {
    var t := Transform(v);
    match v
    case Array(items) =>
      if IsByteArray(v) {
        NumbersHoldNoKey(v);
      } else {
        forall i | 0 <= i < |items|
          ensures IsU8(t.items[i]) <==> IsU8(items[i])
          ensures Transform(t.items[i]) == t.items[i] <==> NoDoubleKey(items[i])
        {
          NumbersAreFixed(items[i]);
          IdempotentIff(items[i]);
        }
        assert OnlyU8(t.items) <==> OnlyU8(items);
        SeqFixed(t.items, Transform(t).items);
      }
    case Object(members) =>
      forall i | 0 <= i < |members|
        ensures TransformMember(t.members[i]) == t.members[i]
           <==> !DoubleKey(members[i]) && NoDoubleKey(members[i].value)
      {
        MemberTwice(members[i]);
      }
      SeqFixed(t.members, Transform(t).members);
    case Null =>
    case Bool(_) =>
    case Num(_) =>
    case Str(_) =>
  }

  lemma SeqFixed<T>(a: seq<T>, b: seq<T>)
    requires |a| == |b|
    ensures a == b <==> forall i :: 0 <= i < |a| ==> b[i] == a[i]
  {
  }

  lemma {:induction false} OnePassBreaksDoubleKey(m: Member)
    ensures !DoubleKey(TransformMember(m)) && NoDoubleKey(TransformMember(m).value)
    decreases m
  {
    if m.value.Array? && IsVerificationKey(m.key, m.value.items) {
      var first, second := m.value.items[0], m.value.items[1];
      assert TransformMember(m) == Member(m.key, Array([Transform(first), second]));
      NumberArrays(first);
      NumbersHoldNoKey(first);
      NumbersHoldNoKey(second);
    } else {
      NoNewVerificationKeys(m);
      OnePassBreaksDoubleKeys(m.value);
    }
  }

  /** One pass leaves no double key behind. */
  lemma {:induction false} OnePassBreaksDoubleKeys(v: Value)
    ensures NoDoubleKey(Transform(v))
    decreases v
  {
    match v
    case Array(items) =>
      if !IsByteArray(v) {
        forall i | 0 <= i < |items| ensures NoDoubleKey(Transform(v).items[i]) {
          OnePassBreaksDoubleKeys(items[i]);
        }
      }
    case Object(members) =>
      forall i | 0 <= i < |members|
        ensures !DoubleKey(Transform(v).members[i]) && NoDoubleKey(Transform(v).members[i].value)
      {
        assert Transform(v).members[i] == TransformMember(members[i]);
        OnePassBreaksDoubleKey(members[i]);
      }
    case Null =>
    case Bool(_) =>
    case Num(_) =>
    case Str(_) =>
  }

  /** A third pass never changes anything. */
  lemma ThreePassesAreTwo(v: Value)
    ensures Transform(Transform(Transform(v))) == Transform(Transform(v))
  {
    OnePassBreaksDoubleKeys(v);
    IdempotentIff(Transform(v));
  }

  // ----- Completeness -----

  /** No byte array is left, except as the second half of a verification key. */
  predicate BytesOnlyInKeys(v: Value)
  {
    match v
    case Array(items) => !IsByteArray(v) && forall i :: 0 <= i < |items| ==> BytesOnlyInKeys(items[i])
    case Object(members) =>
      forall i :: 0 <= i < |members| ==>
        BytesOnlyInKeys(members[i].value) || KeepsSecondHalf(members[i])
    case Null => true
    case Bool(_) => true
    case Num(_) => true
    case Str(_) => true
  }

  predicate KeepsSecondHalf(m: Member)
  {
    && m.key == "vk" && m.value.Array? && |m.value.items| == 2
    && BytesOnlyInKeys(m.value.items[0]) && IsByteArray(m.value.items[1])
  }

  lemma NumberArrayIsClean(v: Value)
    requires v.Array? && OnlyNumbers(v.items)
    ensures BytesOnlyInKeys(Transform(v)) && (IsByteArray(v) || BytesOnlyInKeys(v))
  {
    NumberArrays(v);
  }

  lemma {:induction false} MemberIsEncoded(m: Member)
    ensures BytesOnlyInKeys(TransformMember(m).value) || KeepsSecondHalf(TransformMember(m))
    decreases m
  {
    if m.value.Array? && IsVerificationKey(m.key, m.value.items) {
      var first, second := m.value.items[0], m.value.items[1];
      var m' := TransformMember(m);
      assert m' == Member(m.key, Array([Transform(first), second]));
      NumberArrayIsClean(first);
      NumberArrayIsClean(second);
      assert m'.value.items[1] == second && !IsU8(second);
    } else {
      EveryByteArrayIsEncoded(m.value);
    }
  }

  /** One pass encodes every byte array outside the second halves of verification keys. */
  lemma {:induction false} EveryByteArrayIsEncoded(v: Value)
    ensures BytesOnlyInKeys(Transform(v))
    decreases v
  {
    var t := Transform(v);
    match v
    case Array(items) =>
      if !IsByteArray(v) {
        forall i | 0 <= i < |items|
          ensures BytesOnlyInKeys(t.items[i])
          ensures IsU8(t.items[i]) <==> IsU8(items[i])
        {
          EveryByteArrayIsEncoded(items[i]);
          NumbersAreFixed(items[i]);
        }
        assert OnlyU8(t.items) <==> OnlyU8(items);
      }
    case Object(members) =>
      forall i | 0 <= i < |members|
        ensures BytesOnlyInKeys(t.members[i].value) || KeepsSecondHalf(t.members[i])
      {
        assert t.members[i] == TransformMember(members[i]);
        MemberIsEncoded(members[i]);
      }
    case Null =>
    case Bool(_) =>
    case Num(_) =>
    case Str(_) =>
  }

  // ----- Undoing -----

  predicate IsHexDigit(c: char)
  {
    '0' <= c <= '9' || 'a' <= c <= 'f'
  }

  /** `0x` and a non-empty even run of lower-case hex digits. */
  predicate IsHexString(s: string)
  {
    && |s| >= 4 && |s| % 2 == 0
    && s[0] == '0' && s[1] == 'x'
    && forall i :: 2 <= i < |s| ==> IsHexDigit(s[i])
  }

  function DigitValue(c: char): (d: int)
    requires IsHexDigit(c)
    ensures 0 <= d < 16
  {
    if c <= '9' then c as int - '0' as int else c as int - 'a' as int + 10
  }

  function HexDecode(s: string): seq<Value>
    requires |s| % 2 == 0 && forall i :: 0 <= i < |s| ==> IsHexDigit(s[i])
  {
    if s == [] then []
    else
      var n := |s|;
      HexDecode(s[..n - 2]) + [Num(PosInt(16 * DigitValue(s[n - 2]) + DigitValue(s[n - 1])))]
  }

  /** Every hex string back to its byte array. */
  function Decode(v: Value): Value
  {
    match v
    case Str(s) => if IsHexString(s) then Array(HexDecode(s[2..])) else v
    case Array(items) => Array(seq(|items|, i requires 0 <= i < |items| => Decode(items[i])))
    case Object(members) =>
      Object(seq(|members|, i requires 0 <= i < |members| =>
        Member(members[i].key, Decode(members[i].value))))
    case Null => v
    case Bool(_) => v
    case Num(_) => v
  }

  /** No string in the value looks like an encoded byte array. */
  predicate NoHexString(v: Value)
  {
    match v
    case Str(s) => !IsHexString(s)
    case Array(items) => forall i :: 0 <= i < |items| ==> NoHexString(items[i])
    case Object(members) => forall i :: 0 <= i < |members| ==> NoHexString(members[i].value)
    case Null => true
    case Bool(_) => true
    case Num(_) => true
  }

  lemma DigitRoundTrip(d: int)
    requires 0 <= d < 16
    ensures IsHexDigit(HexDigit(d)) && DigitValue(HexDigit(d)) == d
  {
  }

  lemma {:induction false} HexRoundTrip(bytes: seq<Value>)
    requires OnlyU8(bytes)
    ensures forall i :: 0 <= i < |HexEncode(bytes)| ==> IsHexDigit(HexEncode(bytes)[i])
    ensures HexDecode(HexEncode(bytes)) == bytes
  {
    hide HexDigit, DigitValue, IsHexDigit;
    if bytes != [] {
      var k := |bytes| - 1;
      var n := bytes[k].number.n;
      HexRoundTrip(bytes[..k]);
      DigitRoundTrip(n / 16);
      DigitRoundTrip(n % 16);
      var s := HexEncode(bytes);
      assert s[..|s| - 2] == HexEncode(bytes[..k]);
      assert bytes == bytes[..k] + [Num(PosInt(n))];
    }
  }

  lemma ByteArrayRoundTrip(v: Value)
    requires IsByteArray(v)
    ensures Decode(Transform(v)) == v
  {
    hide HexDecode, HexEncode, IsHexDigit;
    HexRoundTrip(v.items);
    var s := "0x" + HexEncode(v.items);
    assert s[2..] == HexEncode(v.items);
    assert forall i :: 2 <= i < |s| ==> s[i] == HexEncode(v.items)[i - 2];
  }

  lemma NumberArrayDecodes(v: Value)
    requires v.Array? && OnlyNumbers(v.items)
    ensures Decode(v) == v && NoHexString(v)
  {
  }

  lemma {:induction false} MemberUndone(m: Member)
    ensures Member(m.key, Decode(TransformMember(m).value)) == m <==> NoHexString(m.value)
    decreases m
  {
    if m.value.Array? && IsVerificationKey(m.key, m.value.items) {
      var first, second := m.value.items[0], m.value.items[1];
      NumberArrayDecodes(first);
      NumberArrayDecodes(second);
      UndoneIff(first);
      var d := Decode(TransformMember(m).value);
      assert d.items == m.value.items;
    } else {
      UndoneIff(m.value);
    }
  }

  /** Decoding hex strings back to byte arrays recovers the input exactly when the input held no
      string that already looked like one: nested empty arrays and verification keys included. */
  lemma {:induction false} UndoneIff(v: Value)
    ensures Decode(Transform(v)) == v <==> NoHexString(v)
    decreases v
  {
    var d := Decode(Transform(v));
    match v
    case Array(items) =>
      if IsByteArray(v) {
        ByteArrayRoundTrip(v);
        NumberArrayDecodes(v);
      } else {
        forall i | 0 <= i < |items| ensures d.items[i] == items[i] <==> NoHexString(items[i]) {
          UndoneIff(items[i]);
        }
        SeqFixed(items, d.items);
      }
    case Object(members) =>
      forall i | 0 <= i < |members| ensures d.members[i] == members[i] <==> NoHexString(members[i].value) {
        MemberUndone(members[i]);
      }
      SeqFixed(members, d.members);
    case Null =>
    case Bool(_) =>
    case Num(_) =>
    case Str(_) =>
  }

  /** So two different inputs without such strings never collide; */
  lemma Injective(v: Value, w: Value)
    requires NoHexString(v) && NoHexString(w) && Transform(v) == Transform(w)
    ensures v == w
  {
    UndoneIff(v);
    UndoneIff(w);
  }

  /** while a byte array does collide with the string that spells it. */
  lemma Collision()
    ensures Transform(Array([Num(PosInt(1))])) == Transform(Str("0x01"))
  {
  }

  /** A second pass does change a verification key with two byte halves. */
  lemma SecondPassCounterexample()
    ensures var key := Object([Member("vk", Array([Array([Num(PosInt(1))]), Array([Num(PosInt(2))])]))]);
            Transform(Transform(key)) != Transform(key)
  {
    var first, second := Array([Num(PosInt(1))]), Array([Num(PosInt(2))]);
    var key := Object([Member("vk", Array([first, second]))]);
    assert IsByteArray(first) && IsByteArray(second);
    assert DoubleKey(key.members[0]);
    IdempotentIff(key);
  }
}
