/** The part of the SCALE codec the BEEFY payload uses: little-endian integers, compact lengths,
    and vectors of fixed-size items. */
module Scale {
  import opened Common

  // ----- Little-endian integers -----

  function Pow256(k: nat): nat
  {
    if k == 0 then 1 else 256 * Pow256(k - 1)
  }

  function LeBytes(n: nat, k: nat): (r: Bytes)
    ensures |r| == k
    decreases k
  {
    if k == 0 then [] else [n % 256] + LeBytes(n / 256, k - 1)
  }

  function FromLe(b: Bytes): nat
  {
    if b == [] then 0 else b[0] + 256 * FromLe(b[1..])
  }

  /** Every integer that fits in `k` bytes is read back. */
  lemma {:induction false} LeRoundTrip(n: nat, k: nat)
    requires n < Pow256(k)
    ensures FromLe(LeBytes(n, k)) == n
    decreases k
  {
    if k > 0 {
      assert LeBytes(n, k)[1..] == LeBytes(n / 256, k - 1);
      LeRoundTrip(n / 256, k - 1);
    }
  }

  /** Every run of bytes is the form of the integer it is read as. */
  lemma {:induction false} LeInverse(b: Bytes)
    ensures LeBytes(FromLe(b), |b|) == b
  {
    if b != [] {
      LeInverse(b[1..]);
      assert FromLe(b) % 256 == b[0] && FromLe(b) / 256 == FromLe(b[1..]);
    }
  }

  /** The order is little-endian: a byte weighs 256 times what the one before it does. */
  lemma {:induction false} LaterBytesWeighMore(b: Bytes, x: byte)
    ensures FromLe(b + [x]) == FromLe(b) + x * Pow256(|b|)
  {
    if b == [] {
      assert b + [x] == [x];
    } else {
      assert (b + [x])[1..] == b[1..] + [x];
      LaterBytesWeighMore(b[1..], x);
    }
  }

  lemma Powers()
    ensures Pow256(2) == 0x1_0000 && Pow256(4) == U32_BOUND && Pow256(8) == U64_BOUND
  {
  }

  lemma LeU64(n: u64)
    ensures FromLe(LeBytes(n, 8)) == n
  {
    Powers();
    LeRoundTrip(n, 8);
  }

  lemma LeU32(n: u32)
    ensures FromLe(LeBytes(n, 4)) == n
  {
    Powers();
    LeRoundTrip(n, 4);
  }

  // ----- Compact lengths -----

  /** A length in its shortest form: one, two, four or five bytes. */
  function EncodeCompact(n: u32): (r: Bytes)
    ensures |r| > 0
  {
    if n < 0x40 then [4 * n]
    else if n < 0x4000 then LeBytes(4 * n + 1, 2)
    else if n < 0x4000_0000 then LeBytes(4 * n + 2, 4)
    else [3] + LeBytes(n, 4)
  }

  /** Reads a length and the bytes after it; a length not in its shortest form is refused. */
  function DecodeCompact(b: Bytes): (r: Option<(u32, Bytes)>)
    ensures r.Some? ==> |r.value.1| < |b|
  {
    if b == [] then None
    else if b[0] % 4 == 0 then Some((b[0] / 4, b[1..]))
    else if b[0] % 4 == 1 then
      if |b| < 2 then None
      else
        FromLeBound(b[..2]);
        Powers();
        var n := FromLe(b[..2]) / 4;
        if n < 0x40 then None else Some((n, b[2..]))
    else if b[0] % 4 == 2 then
      if |b| < 4 then None
      else
        FromLeBound(b[..4]);
        Powers();
        var n := FromLe(b[..4]) / 4;
        if n < 0x4000 then None else Some((n, b[4..]))
    else if b[0] != 3 || |b| < 5 then None
    else
      FromLeBound(b[1..5]);
      Powers();
      var n := FromLe(b[1..5]);
      if n < 0x4000_0000 then None else Some((n, b[5..]))
  }

  lemma {:induction false} FromLeBound(b: Bytes)
    ensures FromLe(b) < Pow256(|b|)
  {
    if b != [] { FromLeBound(b[1..]); }
  }

  /** A two- or four-byte length read from the front of a longer buffer. */
  lemma LePrefix(n: nat, k: nat, rest: Bytes)
    requires n < Pow256(k) && k >= 1
    ensures (LeBytes(n, k) + rest)[..k] == LeBytes(n, k)
    ensures (LeBytes(n, k) + rest)[k..] == rest
    ensures (LeBytes(n, k) + rest)[0] == n % 256
    ensures FromLe((LeBytes(n, k) + rest)[..k]) == n
  {
  }

  lemma LowBits(n: nat, mode: nat)
    requires mode < 4
    ensures (4 * n + mode) % 256 % 4 == mode && (4 * n + mode) / 4 == n
  {
  }

  lemma TwoByteLength(n: u32, rest: Bytes)
    requires 0x40 <= n < 0x4000
    ensures DecodeCompact(LeBytes(4 * n + 1, 2) + rest) == Some((n, rest))
  {
    hide LeBytes, FromLe, Pow256;
    Powers();
    LePrefix(4 * n + 1, 2, rest);
    LowBits(n, 1);
  }

  lemma FourByteLength(n: u32, rest: Bytes)
    requires 0x4000 <= n < 0x4000_0000
    ensures DecodeCompact(LeBytes(4 * n + 2, 4) + rest) == Some((n, rest))
  {
    hide LeBytes, FromLe, Pow256;
    Powers();
    LePrefix(4 * n + 2, 4, rest);
    LowBits(n, 2);
  }

  lemma FiveByteLength(n: u32, rest: Bytes)
    requires 0x4000_0000 <= n
    ensures DecodeCompact([3] + LeBytes(n, 4) + rest) == Some((n, rest))
  {
    hide LeBytes, FromLe;
    Powers();
    LePrefix(n, 4, rest);
    var b := [3] + LeBytes(n, 4) + rest;
    assert b[1..5] == (LeBytes(n, 4) + rest)[..4];
    assert b[5..] == (LeBytes(n, 4) + rest)[4..];
  }

  /** Every length is read back, with whatever follows it left alone. */
  lemma CompactRoundTrip(n: u32, rest: Bytes)
    ensures DecodeCompact(EncodeCompact(n) + rest) == Some((n, rest))
  {
    hide DecodeCompact, LeBytes, FromLe;
    if n < 0x40 {
      OneByteLength(n, rest);
    } else if n < 0x4000 {
      TwoByteLength(n, rest);
    } else if n < 0x4000_0000 {
      FourByteLength(n, rest);
    } else {
      FiveByteLength(n, rest);
    }
  }

  lemma OneByteLength(n: u32, rest: Bytes)
    requires n < 0x40
    ensures DecodeCompact([4 * n] + rest) == Some((n, rest))
  {
  }

  /** The four forms of a length, as the number their bytes are: two bits for the form, then the length. */
  lemma CompactLayout(n: u32)
    ensures |EncodeCompact(n)| == if n < 64 then 1 else if n < 16_384 then 2 else if n < 1_073_741_824 then 4 else 5
    ensures FromLe(EncodeCompact(n))
         == if n < 64 then 4 * n
            else if n < 16_384 then 4 * n + 1
            else if n < 1_073_741_824 then 4 * n + 2
            else 3 + 256 * n
  {
    hide LeBytes;
    Powers();
    if n < 64 {
      assert EncodeCompact(n)[1..] == [];
    } else if n < 16_384 {
      LeRoundTrip(4 * n + 1, 2);
    } else if n < 1_073_741_824 {
      LeRoundTrip(4 * n + 2, 4);
    } else {
      LeRoundTrip(n, 4);
      assert EncodeCompact(n)[1..] == LeBytes(n, 4);
    }
  }

  lemma CompactOfBytes(b: Bytes, k: nat)
    requires k <= |b|
    ensures b == LeBytes(FromLe(b[..k]), k) + b[k..]
  {
    LeInverse(b[..k]);
  }

  lemma {:induction false} FormBits(b: Bytes)
    requires b != []
    ensures FromLe(b) % 4 == b[0] % 4
  {
  }

  /** Only a length in its shortest form is read, with nothing taken from what follows. */
  lemma CompactDecodesIff(b: Bytes, n: u32, rest: Bytes)
    ensures DecodeCompact(b) == Some((n, rest)) <==> b == EncodeCompact(n) + rest
  {
    if b == EncodeCompact(n) + rest {
      CompactRoundTrip(n, rest);
    }
    if DecodeCompact(b) == Some((n, rest)) {
      CompactIsShortest(b, n, rest);
    }
  }

  lemma CompactIsShortest(b: Bytes, n: u32, rest: Bytes)
    requires DecodeCompact(b) == Some((n, rest))
    ensures b == EncodeCompact(n) + rest
  {
    hide LeBytes, FromLe;
    Powers();
    if b[0] % 4 == 0 {
      assert b == [b[0]] + b[1..];
    } else if b[0] % 4 == 1 {
      CompactOfBytes(b, 2);
      FormBits(b[..2]);
      FromLeBound(b[..2]);
    } else if b[0] % 4 == 2 {
      CompactOfBytes(b, 4);
      FormBits(b[..4]);
      FromLeBound(b[..4]);
    } else {
      CompactOfBytes(b[1..], 4);
      assert b[1..][..4] == b[1..5] && b[1..][4..] == b[5..];
      assert b == [b[0]] + b[1..];
    }
  }
}
