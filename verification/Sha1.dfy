/** SHA-1: the hash of sections 5.1.1 and 6.1.2 of FIPS 180-4, and the object that computes it byte by byte. */
module Sha1 {

  type byte = bv8
  type word = bv32

  // ---------------------------------------------------------------------------------------------
  // The standard

  datatype Hash = Hash(a: word, b: word, c: word, d: word, e: word)

  const INITIAL := Hash(0x67452301, 0xEFCDAB89, 0x98BADCFE, 0x10325476, 0xC3D2E1F0)

  function Rotl1(x: word): word {
    (x << 1) | (x >> 31)
  }

  function Rotl5(x: word): word {
    (x << 5) | (x >> 27)
  }

  function Rotl30(x: word): word {
    (x << 30) | (x >> 2)
  }

  /** Rotating takes the highest bit to the lowest place and every other bit one place up, */
  lemma RotatesOnce(x: word)
    ensures Rotl1(x) >> 1 == x & 0x7FFF_FFFF && Rotl1(x) & 1 == x >> 31
  {
  }

  /** and the other rotations are that one, done five and thirty times. */
  lemma RotatesOften(x: word)
    ensures Rotl5(x) == Rotl1(Rotl1(Rotl1(Rotl1(Rotl1(x)))))
    ensures Rotl30(Rotl1(Rotl1(x))) == x
  {
  }

  function Ch(b: word, c: word, d: word): word {
    (b & c) ^ (!b & d)
  }

  function Parity(b: word, c: word, d: word): word {
    b ^ c ^ d
  }

  function Maj(b: word, c: word, d: word): word {
    (b & c) ^ (b & d) ^ (c & d)
  }

  /** The functions and constants of sections 4.1.1 and 4.2.1. */
  function F(t: nat, b: word, c: word, d: word): word {
    if t < 20 then Ch(b, c, d) else if t < 40 then Parity(b, c, d) else if t < 60 then Maj(b, c, d) else Parity(b, c, d)
  }

  function K(t: nat): word {
    if t < 20 then 0x5A827999 else if t < 40 then 0x6ED9EBA1 else if t < 60 then 0x8F1BBCDC else 0xCA62C1D6
  }

  /** `k` is the integer part of 2^30 times the square root of `n`. */
  predicate RootOf(k: nat, n: nat) {
    k * k <= 0x1000_0000_0000_0000 * n < (k + 1) * (k + 1)
  }

  /** The constants of the rounds are the roots of 2, 3, 5 and 10. */
  lemma RoundConstants(t: nat)
    ensures RootOf(K(t) as nat, if t < 20 then 2 else if t < 40 then 3 else if t < 60 then 5 else 10)
  {
    Roots();
  }

  lemma Roots()
    ensures RootOf(0x5A827999, 2) && RootOf(0x6ED9EBA1, 3) && RootOf(0x8F1BBCDC, 5) && RootOf(0xCA62C1D6, 10)
  {
  }

  /** Byte `i` of the initial hash, each word with its lowest byte first. */
  function InitialByte(i: nat): nat
    requires i < 20
  {
    var h := [INITIAL.a, INITIAL.b, INITIAL.c, INITIAL.d, INITIAL.e][i / 4];
    (if i % 4 == 0 then h % 0x100 else if i % 4 == 1 then h / 0x100 % 0x100
     else if i % 4 == 2 then h / 0x1_0000 % 0x100 else h / 0x100_0000) as nat
  }

  /** The initial hash counts the hexadecimal digits up, down again, and down every other byte. */
  lemma InitialCounts(i: nat)
    requires i < 20
    ensures InitialByte(i) == if i < 8 then 0x01 + 0x22 * i else if i < 16 then 0xFE - 0x22 * (i - 8) else 0xF0 - 0x0F * (i - 16)
  {
  }

  function Xor4(a: word, b: word, c: word, d: word): word {
    a ^ b ^ c ^ d
  }

  /** The message schedule. */
  function W(block: seq<byte>, t: nat): word
    requires |block| == 64
  {
    if t < 16 then WordAt(block, 4 * t)
    else Rotl1(Xor4(W(block, t - 3), W(block, t - 8), W(block, t - 14), W(block, t - 16)))
  }

  function WordAt(block: seq<byte>, i: nat): word
    requires i + 4 <= |block|
  {
    (block[i] as word << 24) | (block[i + 1] as word << 16) | (block[i + 2] as word << 8) | block[i + 3] as word
  }

  /** A word has its highest byte first. */
  lemma WordBytes(block: seq<byte>, i: nat)
    requires i + 4 <= |block|
    ensures var w := WordAt(block, i);
            && w >> 24 == block[i] as word && (w >> 16) & 0xFF == block[i + 1] as word
            && (w >> 8) & 0xFF == block[i + 2] as word && w & 0xFF == block[i + 3] as word
  {
    FourBytes(block[i], block[i + 1], block[i + 2], block[i + 3]);
  }

  lemma FourBytes(a: byte, b: byte, c: byte, d: byte)
    ensures var w := (a as bv32 << 24) | (b as bv32 << 16) | (c as bv32 << 8) | d as bv32;
            && w >> 24 == a as bv32 && (w >> 16) & 0xFF == b as bv32 && (w >> 8) & 0xFF == c as bv32 && w & 0xFF == d as bv32
  {
  }

  /** Addition modulo 2 to the 32. */
  function Sum(a: word, b: word): word {
    a + b
  }

  function Step(v: Hash, f: word, k: word, w: word): Hash {
    Hash(Sum(Sum(Sum(Sum(Rotl5(v.a), f), v.e), k), w), v.a, Rotl30(v.b), v.c, v.d)
  }

  /** The working variables after `t` rounds. */
  function Round(h: Hash, block: seq<byte>, t: nat): Hash
    requires |block| == 64
  {
    if t == 0 then h
    else
      var v := Round(h, block, t - 1);
      Step(v, F(t - 1, v.b, v.c, v.d), K(t - 1), W(block, t - 1))
  }

  function Compress(h: Hash, block: seq<byte>): Hash
    requires |block| == 64
  {
    var v := Round(h, block, 80);
    Hash(Sum(v.a, h.a), Sum(v.b, h.b), Sum(v.c, h.c), Sum(v.d, h.d), Sum(v.e, h.e))
  }

  /** The hash of whole blocks. */
  function Digest(bytes: seq<byte>): Hash
    requires |bytes| % 64 == 0
  {
    if bytes == [] then INITIAL
    else
      var n := |bytes| - 64;
      Compress(Digest(bytes[..n]), bytes[n..])
  }

  function Zeros(n: nat): (r: seq<byte>)
    ensures |r| == n
  {
    seq(n, i => 0)
  }

  /** The digit of `n` to the base 256 at this unit. */
  function ByteAt(n: nat, unit: nat): byte
    requires unit > 0
  {
    (n / unit % 256) as byte
  }

  function Length64(bits: nat): seq<byte> {
    [ByteAt(bits, 0x100_0000_0000_0000), ByteAt(bits, 0x1_0000_0000_0000), ByteAt(bits, 0x100_0000_0000),
     ByteAt(bits, 0x1_0000_0000), ByteAt(bits, 0x100_0000), ByteAt(bits, 0x1_0000), ByteAt(bits, 0x100), ByteAt(bits, 1)]
  }

  function Power256(k: nat): (p: nat)
    ensures p > 0
  {
    if k == 0 then 1 else 256 * Power256(k - 1)
  }

  /** The last eight bytes are the digits of the length to the base 256, the highest first. */
  lemma LengthBytes(bits: nat, k: nat)
    requires k < 8
    ensures Length64(bits)[k] == ByteAt(bits, Power256(7 - k))
  {
    hide ByteAt, Power256;
    Powers(7 - k);
  }

  lemma Powers(k: nat)
    requires k < 8
    ensures Power256(k) == [1, 0x100, 0x1_0000, 0x100_0000, 0x1_0000_0000, 0x100_0000_0000, 0x1_0000_0000_0000, 0x100_0000_0000_0000][k]
  {
    if k > 0 { Powers(k - 1); }
  }

  /** With `k` zero bytes the message, its end mark and its length are whole blocks. */
  predicate Fills(n: nat, k: nat) {
    (n + 1 + k + 8) % 64 == 0
  }

  function PadCount(n: nat): nat {
    (119 - n % 64) % 64
  }

  /** The smallest number of zero bytes. */
  lemma PadCountIs(n: nat)
    ensures Fills(n, PadCount(n)) && PadCount(n) < 64 && forall j: nat :: j < PadCount(n) ==> !Fills(n, j)
  {
    var r, q := n % 64, n / 64;
    forall j: nat | j <= PadCount(n) ensures Fills(n, j) <==> j == PadCount(n) {
      assert n + 1 + j + 8 == 64 * q + (r + j + 9);
      assert (n + 1 + j + 8) % 64 == (r + j + 9) % 64;
    }
  }

  function Padded(m: seq<byte>): (r: seq<byte>)
    ensures |r| % 64 == 0
  {
    PadCountIs(|m|);
    m + [0x80] + Zeros(PadCount(|m|)) + Length64(8 * |m|)
  }

  // ---------------------------------------------------------------------------------------------
  // The object

  /** `LeftRotate`, which joins the two shifted parts with an exclusive or. */
  function LeftRotate(x: word, count: nat): word
    requires count == 1 || count == 5 || count == 30
  {
    if count == 1 then (x << 1) ^ (x >> 31) else if count == 5 then (x << 5) ^ (x >> 27) else (x << 30) ^ (x >> 2)
  }

  lemma RotatesAgree(x: word)
    ensures LeftRotate(x, 1) == Rotl1(x) && LeftRotate(x, 5) == Rotl5(x) && LeftRotate(x, 30) == Rotl30(x)
  {
  }

  /** The same functions with an inclusive or. */
  function Choice(b: word, c: word, d: word): word {
    (b & c) | (!b & d)
  }

  function Majority(b: word, c: word, d: word): word {
    (b & c) | (b & d) | (c & d)
  }

  lemma ChoiceAgrees(b: word, c: word, d: word)
    ensures Choice(b, c, d) == Ch(b, c, d)
  {
    BitChoice(b, c, d);
  }

  lemma BitChoice(b: bv32, c: bv32, d: bv32)
    ensures (b & c) | (!b & d) == (b & c) ^ (!b & d)
  {
  }

  lemma MajorityAgrees(b: word, c: word, d: word)
    ensures Majority(b, c, d) == Maj(b, c, d)
  {
    BitMajority(b, c, d);
  }

  lemma BitMajority(b: bv32, c: bv32, d: bv32)
    ensures (b & c) | (b & d) | (c & d) == (b & c) ^ (b & d) ^ (c & d)
  {
  }

  class SHA1 {
    var digest: Hash
    const block: array<byte>
    var blockByteIndex: nat
    var byteCount: nat
    /** All bytes that have been processed. */
    ghost var message: seq<byte>

    ghost predicate Valid()
      reads this, block
    {
      && block.Length == 64 && blockByteIndex == |message| % 64 && byteCount == |message|
      && digest == Digest(Blocks(message)) && block[..blockByteIndex] == message[|Blocks(message)|..]
    }

    constructor ()
      ensures Valid() && message == [] && fresh(block)
    {
      block := new byte[64];
      digest, blockByteIndex, byteCount, message := INITIAL, 0, 0, [];
    }

    /** `processByte` */
    method ProcessByte(octet: byte)
      requires Valid()
      modifies this, block
      ensures Valid() && message == old(message) + [octet]
    {
      hide Digest, Compress;
      block[blockByteIndex] := octet;
      blockByteIndex := blockByteIndex + 1;
      byteCount := byteCount + 1;
      ghost var m := message;
      message := message + [octet];
      OneByte(m, octet);
      assert block[..blockByteIndex] == old(block[..blockByteIndex]) + [octet];
      if blockByteIndex == 64 {
        blockByteIndex := 0;
        assert block[..] == block[..64];
        ProcessBlock();
        assert block[..0] == [];
      }
    }

    /** `processBytes` */
    method ProcessBytes(data: seq<byte>)
      requires Valid()
      modifies this, block
      ensures Valid() && message == old(message) + data
    {
      hide Digest, Valid;
      var k := 0;
      while k < |data|
        invariant k <= |data| && Valid() && message == old(message) + data[..k]
      {
        ProcessByte(data[k]);
        assert data[..k + 1] == data[..k] + [data[k]];
        k := k + 1;
      }
      assert data[..k] == data;
    }

    /** `processBlock` */
    method ProcessBlock()
      requires block.Length == 64
      modifies this`digest
      ensures digest == Compress(old(digest), block[..])
    {
      hide W, Round, F, K, Sum, Rotl1, Rotl5, Rotl30, LeftRotate;
      var w := Schedule();
      var v := digest;
      ghost var b := block[..];
      assert forall t :: 0 <= t < 80 ==> w[t] == W(b, t);
      RoundZero(digest, b);
      var i := 0;
      while i < 80
        invariant i <= 80 && digest == old(digest) && v == Round(digest, b, i)
        invariant forall t :: 0 <= t < 80 ==> w[t] == W(b, t)
      {
        var f, k := Mix(i, v);
        RotatesAgree(v.a);
        RotatesAgree(v.b);
        RoundMore(digest, b, i);
        var temp := Sum(Sum(Sum(Sum(LeftRotate(v.a, 5), f), v.e), k), w[i]);
        v := Hash(temp, v.a, LeftRotate(v.b, 30), v.c, v.d);
        i := i + 1;
      }
      digest := Hash(Sum(v.a, digest.a), Sum(v.b, digest.b), Sum(v.c, digest.c), Sum(v.d, digest.d), Sum(v.e, digest.e));
    }

    /** The 80 words of the schedule. */
    method Schedule() returns (w: array<word>)
      requires block.Length == 64
      ensures fresh(w) && w.Length == 80 && forall t :: 0 <= t < 80 ==> w[t] == W(block[..], t)
    {
      hide WordAt, Rotl1, Xor4, LeftRotate;
      w := new word[80];
      ghost var b := block[..];
      var i := 0;
      while i < 16
        invariant i <= 16 && forall t :: 0 <= t < i ==> w[t] == W(b, t)
      {
        w[i] := WordAt(block[..], 4 * i);
        i := i + 1;
      }
      while i < 80
        invariant 16 <= i <= 80 && forall t :: 0 <= t < i ==> w[t] == W(b, t)
      {
        var x := Xor4(w[i - 3], w[i - 8], w[i - 14], w[i - 16]);
        RotatesAgree(x);
        w[i] := LeftRotate(x, 1);
        i := i + 1;
      }
    }

    static method Mix(i: nat, v: Hash) returns (f: word, k: word)
      ensures f == F(i, v.b, v.c, v.d) && k == K(i)
    {
      hide Ch, Maj, Parity, Choice, Majority;
      ChoiceAgrees(v.b, v.c, v.d);
      MajorityAgrees(v.b, v.c, v.d);
      if i < 20 {
        f, k := Choice(v.b, v.c, v.d), 0x5A827999;
      } else if i < 40 {
        f, k := Parity(v.b, v.c, v.d), 0x6ED9EBA1;
      } else if i < 60 {
        f, k := Majority(v.b, v.c, v.d), 0x8F1BBCDC;
      } else {
        f, k := Parity(v.b, v.c, v.d), 0xCA62C1D6;
      }
    }

    /** `getDigest`: the hash of everything processed, for messages whose length in bits fits 32 bits, however the
        bytes were cut across calls. */
    method GetDigest() returns (r: Hash)
      requires Valid() && |message| < 0x2000_0000
      modifies this, block
      ensures r == Digest(Padded(old(message)))
    {
      hide Digest, Valid, Padded, Length64;
      Counted();
      var bits := byteCount * 8;
      ghost var m := message;
      ProcessByte(0x80);
      PadZeros(m);
      FourBytes([0, 0, 0, 0]);
      FourBytes(LowBytes(bits));
      PaddedWhole(m, message);
      WholeDigest();
      r := digest;
    }

    method FourBytes(s: seq<byte>)
      requires Valid() && |s| == 4
      modifies this, block
      ensures Valid() && message == old(message) + s
    {
      hide Digest, Valid;
      ProcessByte(s[0]);
      ProcessByte(s[1]);
      ProcessByte(s[2]);
      ProcessByte(s[3]);
      assert s == [s[0], s[1], s[2], s[3]];
    }

    static function LowBytes(bits: nat): (r: seq<byte>)
      ensures |r| == 4
    {
      [ByteAt(bits, 0x100_0000), ByteAt(bits, 0x1_0000), ByteAt(bits, 0x100), ByteAt(bits, 1)]
    }

    /** The four bytes that are always zero are the high half of the length. */
    static lemma PaddedWhole(m: seq<byte>, t: seq<byte>)
      requires |m| < 0x2000_0000
      requires t == m + [0x80] + Zeros(PadCount(|m|)) + [0, 0, 0, 0] + LowBytes(|m| * 8)
      ensures t == Padded(m)
    {
      hide Length64, LowBytes, PadCount;
      HighZero(|m|);
      assert m + [0x80] + Zeros(PadCount(|m|)) + [0, 0, 0, 0] + LowBytes(|m| * 8)
          == m + [0x80] + Zeros(PadCount(|m|)) + ([0, 0, 0, 0] + LowBytes(|m| * 8));
    }

    static lemma HighZero(n: nat)
      requires n < 0x2000_0000
      ensures Length64(8 * n) == [0, 0, 0, 0] + LowBytes(n * 8)
    {
      hide ByteAt;
      Above(8 * n, 0x1_0000_0000);
      Above(8 * n, 0x100_0000_0000);
      Above(8 * n, 0x1_0000_0000_0000);
      Above(8 * n, 0x100_0000_0000_0000);
    }

    static lemma Above(n: nat, unit: nat)
      requires n < unit
      ensures ByteAt(n, unit) == 0
    {
      assert n / unit == 0;
    }

    lemma WholeDigest()
      requires Valid() && |message| % 64 == 0
      ensures digest == Digest(message)
    {
      hide Digest;
      assert Blocks(message) == message;
    }

    /** The zero bytes, in one or two loops. */
    method PadZeros(ghost m: seq<byte>)
      requires Valid() && message == m + [0x80]
      modifies this, block
      ensures Valid() && message == m + [0x80] + Zeros(PadCount(|m|))
    {
      hide Digest, Valid, PadCount;
      ghost var k, r := 0, |m| % 64;
      assert m + [0x80] + Zeros(0) == m + [0x80];
      IndexNow();
      NextIndex(|m|);
      PadCases(|m|);
      if blockByteIndex > 56 {
        while blockByteIndex != 0
          invariant Valid() && message == m + [0x80] + Zeros(k)
          invariant k == (if blockByteIndex == 0 then 64 else blockByteIndex as int) - (r + 1)
          invariant blockByteIndex == 0 || 56 < blockByteIndex < 64
          decreases if blockByteIndex == 0 then 0 else 64 - blockByteIndex
        {
          PutZero(m, k);
          k := k + 1;
        }
      }
      ghost var k0, i0 := k, blockByteIndex;
      while blockByteIndex < 56
        invariant Valid() && message == m + [0x80] + Zeros(k) && i0 <= blockByteIndex <= 56
        invariant k == k0 + blockByteIndex - i0
        decreases 56 - blockByteIndex
      {
        PutZero(m, k);
        k := k + 1;
      }
    }

    static lemma NextIndex(n: nat)
      ensures (n + 1) % 64 == if n % 64 == 63 then 0 else n % 64 + 1
    {
    }

    static lemma PadCases(n: nat)
      ensures PadCount(n) == if n % 64 <= 55 then 55 - n % 64 else 119 - n % 64
    {
    }

    lemma Counted()
      requires Valid()
      ensures byteCount == |message|
    {
    }

    lemma IndexNow()
      requires Valid()
      ensures blockByteIndex == |message| % 64
    {
    }

    method PutZero(ghost m: seq<byte>, ghost k: nat)
      requires Valid() && message == m + [0x80] + Zeros(k)
      modifies this, block
      ensures Valid() && message == m + [0x80] + Zeros(k + 1)
      ensures blockByteIndex == if old(blockByteIndex) == 63 then 0 else old(blockByteIndex) + 1
    {
      hide Digest, Valid;
      IndexNow();
      NextIndex(|message|);
      ProcessByte(0);
      IndexNow();
      assert Zeros(k + 1) == Zeros(k) + [0];
    }
  }

  /** The whole blocks of a message. */
  function Blocks(m: seq<byte>): (r: seq<byte>)
    ensures |r| % 64 == 0 && |r| <= |m| < |r| + 64
  {
    m[..|m| - |m| % 64]
  }

  lemma OneByte(m: seq<byte>, octet: byte)
    ensures var t := m + [octet];
            if |t| % 64 == 0 then
              Blocks(t) == t && Digest(t) == Compress(Digest(Blocks(m)), m[|Blocks(m)|..] + [octet])
            else
              Blocks(t) == Blocks(m) && t[|Blocks(t)|..] == m[|Blocks(m)|..] + [octet]
  {
    hide Compress, Digest, Blocks;
    var t := m + [octet];
    var r := |m| % 64;
    SHA1.NextIndex(|m|);
    BlocksIs(m);
    BlocksIs(t);
    var cut := |m| - r;
    assert t[cut..] == m[cut..] + [octet];
    if r == 63 {
      assert t[..|t|] == t;
      assert t[..cut] == m[..cut];
      LastBlock(t);
    } else {
      assert t[..cut] == m[..cut];
    }
  }

  lemma BlocksIs(m: seq<byte>)
    ensures Blocks(m) == m[..|m| - |m| % 64] && |Blocks(m)| == |m| - |m| % 64
  {
  }

  lemma LastBlock(t: seq<byte>)
    requires t != [] && |t| % 64 == 0
    ensures |t| >= 64 && Digest(t) == Compress(Digest(t[..|t| - 64]), t[|t| - 64..])
  {
    hide Compress;
  }

  lemma RoundZero(h: Hash, block: seq<byte>)
    requires |block| == 64
    ensures Round(h, block, 0) == h
  {
  }

  lemma RoundMore(h: Hash, block: seq<byte>, t: nat)
    requires |block| == 64
    ensures var v := Round(h, block, t);
            Round(h, block, t + 1) == Step(v, F(t, v.b, v.c, v.d), K(t), W(block, t))
  {
    hide W, F, K, Step;
  }
}
