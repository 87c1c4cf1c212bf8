/**
  The primitives of the Protocol Buffers wire format, after the "Encoding" guide: sections
  "Base 128 Varints", "Message Structure" and "Length-Delimited Records".
 */
module Wire {
  type Byte = b: int | 0 <= b < 256
  type Bytes = seq<Byte>

  const TWO31 := 0x8000_0000
  const TWO32 := 0x1_0000_0000
  const TWO63 := 0x8000_0000_0000_0000
  const TWO64 := 0x1_0000_0000_0000_0000

  /** A value read, and the bytes after it. */
  datatype Scan<T> = Fail | Got(value: T, rest: Bytes)

  function EncodeVarint(n: nat): (bs: Bytes)
    ensures |bs| >= 1
  {
    if n < 128 then [n] else [n % 128 + 128] + EncodeVarint(n / 128)
  }

  /** At most `k` groups of seven bits, the lowest first. */
  function ReadGroups(bs: Bytes, k: nat): (s: Scan<nat>)
    ensures s.Got? ==> |s.rest| < |bs|
    decreases k
  {
    if bs == [] || k == 0 then Fail
    else if bs[0] < 128 then Got(bs[0], bs[1..])
    else
      match ReadGroups(bs[1..], k - 1)
      case Fail => Fail
      case Got(v, rest) => Got(bs[0] - 128 + 128 * v, rest)
  }

  /** A varint has at most ten bytes; bits above the sixty-fourth are dropped. */
  function ReadVarint64(bs: Bytes): (s: Scan<nat>)
    ensures s.Got? ==> |s.rest| < |bs| && s.value < TWO64
  {
    match ReadGroups(bs, 10)
    case Fail => Fail
    case Got(v, rest) => Got(v % TWO64, rest)
  }

  /** The same, cut down to 32 bits. */
  function ReadVarint32(bs: Bytes): (s: Scan<nat>)
    ensures s.Got? ==> |s.rest| < |bs| && s.value < TWO32
  {
    match ReadGroups(bs, 10)
    case Fail => Fail
    case Got(v, rest) => Got(v % TWO32, rest)
  }

  function Pow128(k: nat): nat { if k == 0 then 1 else 128 * Pow128(k - 1) }

  lemma {:induction false} GroupsRoundTrip(n: nat, k: nat, rest: Bytes)
    requires k >= 1 && n < Pow128(k)
    ensures ReadGroups(EncodeVarint(n) + rest, k) == Got(n, rest)
  {
    var bs := EncodeVarint(n) + rest;
    if n < 128 {
      assert bs[1..] == rest;
    } else {
      assert bs[1..] == EncodeVarint(n / 128) + rest;
      GroupsRoundTrip(n / 128, k - 1, rest);
    }
  }

  // ---------------------------------------------------------------------------
  // The bytes themselves
  // ---------------------------------------------------------------------------

  /** `n` without its `i` lowest groups of seven bits. */
  function WithoutGroups(n: nat, i: nat): nat { if i == 0 then n else WithoutGroups(n / 128, i - 1) }

  /** Byte `i` of a varint holds the `i`-th group of seven bits, and the bit above says whether more follow. */
  lemma {:induction false} VarintBytes(n: nat, i: nat)
    requires i < |EncodeVarint(n)|
    ensures EncodeVarint(n)[i] % 128 == WithoutGroups(n, i) % 128
    ensures EncodeVarint(n)[i] >= 128 <==> i < |EncodeVarint(n)| - 1
    ensures n < Pow128(|EncodeVarint(n)|) && (|EncodeVarint(n)| > 1 ==> Pow128(|EncodeVarint(n)| - 1) <= n)
  {
    if n >= 128 { VarintBytes(n / 128, if i > 0 then i - 1 else 0); }
  }

  /** The number whose groups of seven bits these bytes hold, the lowest first. */
  function GroupSum(bs: Bytes): nat
  {
    if bs == [] then 0
    else
      var n := |bs| - 1;
      GroupSum(bs[..n]) + bs[n] % 128 * Pow128(n)
  }

  lemma {:induction false} GroupSumFirst(bs: Bytes)
    requires bs != []
    ensures GroupSum(bs) == bs[0] % 128 + 128 * GroupSum(bs[1..])
  {
    var n := |bs| - 1;
    if n > 0 {
      assert bs[..n][1..] == bs[1..][..n - 1] && bs[..n][0] == bs[0] && bs[1..][n - 1] == bs[n];
      GroupSumFirst(bs[..n]);
      TimesPow128(bs[n] % 128, n);
      GroupSumLast(bs);
      GroupSumLast(bs[1..]);
      hide GroupSum, Pow128;
    }
  }

  lemma GroupSumOfNone()
    ensures GroupSum([]) == 0
  {
  }

  lemma GroupSumLast(bs: Bytes)
    requires bs != []
    ensures var n := |bs| - 1; GroupSum(bs) == GroupSum(bs[..n]) + bs[n] % 128 * Pow128(n)
  {
  }

  lemma TimesPow128(x: nat, n: nat)
    requires n > 0
    ensures x * Pow128(n) == 128 * (x * Pow128(n - 1))
  {
  }

  /** Together the groups are the number. */
  lemma {:induction false} VarintSum(n: nat)
    ensures GroupSum(EncodeVarint(n)) == n
  {
    GroupSumFirst(EncodeVarint(n));
    if n >= 128 {
      VarintSum(n / 128);
      assert EncodeVarint(n)[1..] == EncodeVarint(n / 128);
    } else {
      assert EncodeVarint(n)[1..] == [];
    }
  }

  /** Byte `j` is the first without a continuation bit. */
  predicate EndsAt(bs: Bytes, j: nat)
  {
    j < |bs| && bs[j] < 128 && forall i :: 0 <= i < j ==> bs[i] >= 128
  }

  /** A varint ends at its first byte without a continuation bit, and is the number of its groups. */
  lemma {:induction false} GroupsEndAt(bs: Bytes, k: nat, j: nat)
    requires EndsAt(bs, j) && j < k
    ensures ReadGroups(bs, k) == Got(GroupSum(bs[..j + 1]), bs[j + 1..])
  {
    GroupSumFirst(bs[..j + 1]);
    assert bs[..j + 1][1..] == bs[1..][..j];
    hide GroupSum;
    if j > 0 {
      GroupsEndAt(bs[1..], k - 1, j - 1);
      assert bs[1..][j..] == bs[j + 1..];
    } else {
      GroupSumOfNone();
    }
  }

  lemma {:induction false} GroupsNeverEnd(bs: Bytes, k: nat)
    requires forall i :: 0 <= i < |bs| && i < k ==> bs[i] >= 128
    ensures ReadGroups(bs, k) == Fail
    decreases k
  {
    if bs != [] && k > 0 { GroupsNeverEnd(bs[1..], k - 1); }
  }

  /** Any bytes, read as a 64-bit or as a 32-bit varint: what they are, or that they are none. */
  lemma VarintOfBytes(bs: Bytes)
    ensures forall j :: EndsAt(bs, j) && j < 10 ==>
      && ReadVarint64(bs) == Got(GroupSum(bs[..j + 1]) % 0x1_0000_0000_0000_0000, bs[j + 1..])
      && ReadVarint32(bs) == Got(GroupSum(bs[..j + 1]) % 0x1_0000_0000, bs[j + 1..])
    ensures (ReadVarint64(bs).Fail? <==> forall j :: 0 <= j < 10 ==> !EndsAt(bs, j))
      && (ReadVarint32(bs).Fail? <==> ReadVarint64(bs).Fail?)
  {
    forall j | EndsAt(bs, j) && j < 10 ensures ReadGroups(bs, 10) == Got(GroupSum(bs[..j + 1]), bs[j + 1..]) {
      GroupsEndAt(bs, 10, j);
    }
    if forall j :: 0 <= j < 10 ==> !EndsAt(bs, j) {
      forall i | 0 <= i < |bs| && i < 10 ensures bs[i] >= 128 { AllContinue(bs, i); }
      GroupsNeverEnd(bs, 10);
    }
  }

  lemma {:induction false} AllContinue(bs: Bytes, i: nat)
    requires i < |bs| && i < 10 && forall j :: 0 <= j < 10 ==> !EndsAt(bs, j)
    ensures forall k :: 0 <= k <= i ==> bs[k] >= 128
  {
    if i > 0 { AllContinue(bs, i - 1); }
    assert !EndsAt(bs, i);
  }

  lemma SmallRemainder(n: nat, m: nat)
    requires n < m
    ensures n % m == n
  {
  }

  lemma VarintRoundTrip(n: nat, rest: Bytes)
    requires n < TWO64
    ensures ReadVarint64(EncodeVarint(n) + rest) == Got(n, rest)
    ensures ReadVarint32(EncodeVarint(n) + rest) == Got(n % TWO32, rest)
    ensures n < TWO32 ==> ReadVarint32(EncodeVarint(n) + rest) == Got(n, rest)
  {
    assert Pow128(5) == 0x8_0000_0000;
    assert Pow128(10) >= TWO64;
    GroupsRoundTrip(n, 10, rest);
    SmallRemainder(n, TWO64);
    if n < TWO32 { SmallRemainder(n, TWO32); }
  }

  /** `int32` and `int64` are written as 64-bit two's complement. */
  function ToUnsigned(v: int): nat
    requires -TWO63 <= v < TWO63
  {
    if v < 0 then v + TWO64 else v
  }

  function ToInt64(u: nat): (v: int)
    requires u < TWO64
    ensures -TWO63 <= v < TWO63
  {
    if u < TWO63 then u else u - TWO64
  }

  function ToInt32(u: nat): (v: int)
    requires u < TWO32
    ensures -TWO31 <= v < TWO31
  {
    if u < TWO31 then u else u - TWO32
  }

  /** The unsigned number is the signed one modulo 2^64; signed readings are the unsigned ones modulo their width. */
  lemma TwosComplement(v: int, u: nat)
    ensures -TWO63 <= v < TWO63 ==>
      0 <= ToUnsigned(v) < 0x1_0000_0000_0000_0000 && (ToUnsigned(v) - v) % 0x1_0000_0000_0000_0000 == 0
    ensures u < TWO64 ==> (ToInt64(u) - u) % 0x1_0000_0000_0000_0000 == 0
    ensures u < TWO32 ==> (ToInt32(u) - u) % 0x1_0000_0000 == 0 && -0x8000_0000 <= ToInt32(u) < 0x8000_0000
  {
  }

  lemma LowBitsKeepTheSign(v: int)
    requires -TWO31 <= v < TWO31
    ensures ToInt32(ToUnsigned(v) % TWO32) == v
  {
    if v < 0 {
      assert v + TWO64 == (TWO32 - 1) * TWO32 + (v + TWO32);
    }
  }

  lemma SignedRoundTrip(v: int, rest: Bytes)
    requires -TWO63 <= v < TWO63
    ensures var s := ReadVarint64(EncodeVarint(ToUnsigned(v)) + rest); s.Got? && ToInt64(s.value) == v && s.rest == rest
    ensures -TWO31 <= v < TWO31 ==>
      var s := ReadVarint32(EncodeVarint(ToUnsigned(v)) + rest); s.Got? && ToInt32(s.value) == v && s.rest == rest
  {
    VarintRoundTrip(ToUnsigned(v), rest);
    if -TWO31 <= v < TWO31 {
      LowBitsKeepTheSign(v);
    }
  }

  function VarintSize(n: nat): nat { if n < 128 then 1 else 1 + VarintSize(n / 128) }

  lemma {:induction false} VarintLength(n: nat)
    ensures |EncodeVarint(n)| == VarintSize(n)
  {
    if n >= 128 { VarintLength(n / 128); }
  }

  /** `Int32Size` and `Int64Size`. */
  function IntSize(v: int): nat
    requires -TWO63 <= v < TWO63
  {
    if v < 0 then 10 else VarintSize(v)
  }

  lemma {:induction false} VarintSizeWithin(n: nat, k: nat)
    requires k >= 1 && n < Pow128(k)
    ensures VarintSize(n) <= k
  {
    if n >= 128 { VarintSizeWithin(n / 128, k - 1); }
  }

  lemma {:induction false} VarintSizeBeyond(n: nat, k: nat)
    requires Pow128(k) <= n
    ensures k < VarintSize(n)
  {
    if k > 0 { VarintSizeBeyond(n / 128, k - 1); }
  }

  /** Every negative number takes ten bytes. */
  lemma IntLength(v: int)
    requires -TWO63 <= v < TWO63
    ensures |EncodeVarint(ToUnsigned(v))| == IntSize(v)
  {
    VarintLength(ToUnsigned(v));
    if v < 0 {
      assert Pow128(5) == 0x8_0000_0000;
      VarintSizeWithin(ToUnsigned(v), 10);
      VarintSizeBeyond(ToUnsigned(v), 9);
    }
  }

  /** `n` bytes, the lowest first. */
  function EncodeFixed(v: nat, n: nat): (bs: Bytes)
    ensures |bs| == n
  {
    if n == 0 then [] else [v % 256] + EncodeFixed(v / 256, n - 1)
  }

  function ReadFixed(bs: Bytes, n: nat): (s: Scan<nat>)
    ensures s.Got? ==> |s.rest| + n == |bs|
  {
    if n == 0 then Got(0, bs)
    else if bs == [] then Fail
    else
      match ReadFixed(bs[1..], n - 1)
      case Fail => Fail
      case Got(v, rest) => Got(bs[0] + 256 * v, rest)
  }

  function Pow256(k: nat): nat { if k == 0 then 1 else 256 * Pow256(k - 1) }

  lemma {:induction false} FixedRoundTrip(v: nat, n: nat, rest: Bytes)
    requires v < Pow256(n)
    ensures ReadFixed(EncodeFixed(v, n) + rest, n) == Got(v, rest)
  {
    var bs := EncodeFixed(v, n) + rest;
    if n == 0 {
      assert bs == rest;
    } else {
      assert bs[1..] == EncodeFixed(v / 256, n - 1) + rest;
      FixedRoundTrip(v / 256, n - 1, rest);
    }
  }

  /** `v` without its `i` lowest octets. */
  function WithoutOctets(v: nat, i: nat): nat { if i == 0 then v else WithoutOctets(v / 256, i - 1) }

  /** Byte `i` of a fixed-width number is its `i`-th octet from below. */
  lemma {:induction false} FixedBytes(v: nat, n: nat, i: nat)
    requires i < n
    ensures EncodeFixed(v, n)[i] == WithoutOctets(v, i) % 256
  {
    if i > 0 { FixedBytes(v / 256, n - 1, i - 1); }
  }

  /** The number whose octets these bytes are, the lowest first. */
  function OctetSum(bs: Bytes): nat
  {
    if bs == [] then 0
    else
      var n := |bs| - 1;
      OctetSum(bs[..n]) + bs[n] * Pow256(n)
  }

  lemma {:induction false} OctetSumFirst(bs: Bytes)
    requires bs != []
    ensures OctetSum(bs) == bs[0] + 256 * OctetSum(bs[1..])
  {
    var n := |bs| - 1;
    if n > 0 {
      assert bs[..n][1..] == bs[1..][..n - 1] && bs[..n][0] == bs[0] && bs[1..][n - 1] == bs[n];
      OctetSumFirst(bs[..n]);
      TimesPow256(bs[n], n);
      OctetSumLast(bs);
      OctetSumLast(bs[1..]);
      hide OctetSum, Pow256;
    }
  }

  lemma OctetSumLast(bs: Bytes)
    requires bs != []
    ensures var n := |bs| - 1; OctetSum(bs) == OctetSum(bs[..n]) + bs[n] * Pow256(n)
  {
  }

  lemma TimesPow256(x: nat, n: nat)
    requires n > 0
    ensures x * Pow256(n) == 256 * (x * Pow256(n - 1))
  {
  }

  /** Together the octets are the number. */
  lemma {:induction false} FixedSum(v: nat, n: nat)
    requires v < Pow256(n)
    ensures OctetSum(EncodeFixed(v, n)) == v
  {
    if n > 0 {
      OctetSumFirst(EncodeFixed(v, n));
      FixedSum(v / 256, n - 1);
      assert EncodeFixed(v, n)[1..] == EncodeFixed(v / 256, n - 1);
    }
  }

  /** Any bytes, read as a fixed-width number: the first `n` of them, if there are as many. */
  lemma {:induction false} FixedOfBytes(bs: Bytes, n: nat)
    ensures ReadFixed(bs, n) == if n <= |bs| then Got(OctetSum(bs[..n]), bs[n..]) else Fail
  {
    if n > 0 && bs != [] {
      FixedOfBytes(bs[1..], n - 1);
      if n <= |bs| {
        OctetSumFirst(bs[..n]);
        assert bs[..n][1..] == bs[1..][..n - 1];
      }
    }
  }

  /** A length and that many bytes. */
  function EncodeBytes(b: Bytes): (bs: Bytes)
    ensures |bs| >= 1
  {
    EncodeVarint(|b|) + b
  }

  /** `ReadString`: a length is an `int`, and a negative one is refused. */
  function ReadBytes(bs: Bytes): (s: Scan<Bytes>)
    ensures s.Got? ==> |s.rest| < |bs|
  {
    match ReadVarint32(bs)
    case Fail => Fail
    case Got(n, rest) => if n >= TWO31 || n > |rest| then Fail else Got(rest[..n], rest[n..])
  }

  lemma BytesRoundTrip(b: Bytes, rest: Bytes)
    requires |b| < TWO31
    ensures ReadBytes(EncodeBytes(b) + rest) == Got(b, rest)
  {
    assert ReadVarint32(EncodeBytes(b) + rest) == Got(|b|, b + rest) by {
      assert EncodeBytes(b) + rest == EncodeVarint(|b|) + (b + rest);
      VarintRoundTrip(|b|, b + rest);
    }
    assert (b + rest)[..|b|] == b && (b + rest)[|b|..] == rest;
  }
}
