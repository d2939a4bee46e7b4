/** The JSON byte-array transformer: every non-empty array of bytes becomes a hex string, except
    the second half of a verification key. */
module Json {

  /** A JSON number as its parser classifies it. */
  datatype Number = PosInt(n: nat) | NegInt(i: int) | Float(r: real)

  /** Objects list their members in map order; the transformer never reorders them. */
  datatype Value =
    | Null
    | Bool(b: bool)
    | Num(number: Number)
    | Str(s: string)
    | Array(items: seq<Value>)
    | Object(members: seq<Member>)

  datatype Member = Member(key: string, value: Value)

  // ----- Hex -----

  function HexDigit(d: int): char
    requires 0 <= d < 16
  {
    if d < 10 then '0' + d as char else 'a' + (d - 10) as char
  }

  function HexEncode(bytes: seq<Value>): (r: string)
    requires OnlyU8(bytes)
    ensures |r| == 2 * |bytes|
  {
    if bytes == [] then ""
    else HexEncode(bytes[..|bytes| - 1]) + HexByte(bytes[|bytes| - 1].number.n)
  }

  function HexByte(b: int): (r: string)
    requires 0 <= b < 256
    ensures |r| == 2
  {
    [HexDigit(b / 16), HexDigit(b % 16)]
  }

  // ----- The transformer -----

  predicate IsU8(v: Value)
  {
    v.Num? && v.number.PosInt? && v.number.n <= 255
  }

  /** `is_only_u8` */
  predicate OnlyU8(vs: seq<Value>)
  {
    forall i :: 0 <= i < |vs| ==> IsU8(vs[i])
  }

  predicate OnlyNumbers(vs: seq<Value>)
  {
    forall i :: 0 <= i < |vs| ==> vs[i].Num?
  }

  /** `is_verification_key` */
  predicate IsVerificationKey(key: string, items: seq<Value>)
  {
    && key == "vk"
    && |items| == 2 && items[0].Array? && items[1].Array?
    && OnlyNumbers(items[0].items) && OnlyNumbers(items[1].items)
  }

  /** An array the transformer turns into a string. */
  predicate IsByteArray(v: Value)
  {
    v.Array? && v.items != [] && OnlyU8(v.items)
  }

  function Transform(v: Value): Value
  {
    match v
    case Array(items) =>
      if items != [] && OnlyU8(items) then Str("0x" + HexEncode(items))
      else Array(seq(|items|, i requires 0 <= i < |items| => Transform(items[i])))
    case Object(members) =>
      Object(seq(|members|, i requires 0 <= i < |members| => TransformMember(members[i])))
    case Null => v
    case Bool(_) => v
    case Num(_) => v
    case Str(_) => v
  }

  /** One object member.  The source also has a branch for a verification key that does not match
      its own pattern, which recurses on the whole object; it is dead, and the recursion ends only
      because it is. */
  function TransformMember(m: Member): Member
  {
    if m.value.Array? && IsVerificationKey(m.key, m.value.items) then
      var items := m.value.items;
      if |items| == 2 && items[0].Array? && items[1].Array? then
        Member(m.key, Array([Transform(items[0]), items[1]]))
      else assert false; m
    else Member(m.key, Transform(m.value))
  }
}
