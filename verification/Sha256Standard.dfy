/** SHA-256 as FIPS 180-2 defines it, for whole messages of bytes. */
module Sha256Standard {
  import opened Basics
  import opened Bytes

  type Byte = bv8
  type Word = bv32

  /** Addition modulo 2^32 (section 3.2). */
  function Add(x: Word, y: Word): Word { x + y }

  // ----- section 4.1.2: functions

  function Rotr(x: Word, n: Word): Word
    requires 0 < n < 32
  {
    (x >> n) | (x << (32 - n))
  }

  function Ch(x: Word, y: Word, z: Word): Word { (x & y) ^ (!x & z) }

  function Maj(x: Word, y: Word, z: Word): Word { (x & y) ^ (x & z) ^ (y & z) }

  function BigSigma0(x: Word): Word { Rotr(x, 2) ^ Rotr(x, 13) ^ Rotr(x, 22) }

  function BigSigma1(x: Word): Word { Rotr(x, 6) ^ Rotr(x, 11) ^ Rotr(x, 25) }

  function SmallSigma0(x: Word): Word { Rotr(x, 7) ^ Rotr(x, 18) ^ (x >> 3) }

  function SmallSigma1(x: Word): Word { Rotr(x, 17) ^ Rotr(x, 19) ^ (x >> 10) }

  // ----- section 4.2.2: constants

  const K: seq<Word> :=
    [0x428a2f98, 0x71374491, 0xb5c0fbcf, 0xe9b5dba5, 0x3956c25b, 0x59f111f1, 0x923f82a4, 0xab1c5ed5] +
    [0xd807aa98, 0x12835b01, 0x243185be, 0x550c7dc3, 0x72be5d74, 0x80deb1fe, 0x9bdc06a7, 0xc19bf174] +
    [0xe49b69c1, 0xefbe4786, 0x0fc19dc6, 0x240ca1cc, 0x2de92c6f, 0x4a7484aa, 0x5cb0a9dc, 0x76f988da] +
    [0x983e5152, 0xa831c66d, 0xb00327c8, 0xbf597fc7, 0xc6e00bf3, 0xd5a79147, 0x06ca6351, 0x14292967] +
    [0x27b70a85, 0x2e1b2138, 0x4d2c6dfc, 0x53380d13, 0x650a7354, 0x766a0abb, 0x81c2c92e, 0x92722c85] +
    [0xa2bfe8a1, 0xa81a664b, 0xc24b8b70, 0xc76c51a3, 0xd192e819, 0xd6990624, 0xf40e3585, 0x106aa070] +
    [0x19a4c116, 0x1e376c08, 0x2748774c, 0x34b0bcb5, 0x391c0cb3, 0x4ed8aa4a, 0x5b9cca4f, 0x682e6ff3] +
    [0x748f82ee, 0x78a5636f, 0x84c87814, 0x8cc70208, 0x90befffa, 0xa4506ceb, 0xbef9a3f7, 0xc67178f2]

  /** Section 5.3.2. */
  const INITIAL_HASH: seq<Word> := [
    0x6a09e667, 0xbb67ae85, 0x3c6ef372, 0xa54ff53a, 0x510e527f, 0x9b05688c, 0x1f83d9ab, 0x5be0cd19]

  // ----- section 5.2.1: parsing

  function ToWord(b: seq<Byte>): Word
    requires |b| == 4
  {
    (b[0] as bv32 << 24) | (b[1] as bv32 << 16) | (b[2] as bv32 << 8) | b[3] as bv32
  }

  // ----- section 6.2.2: hash computation

  /** The message schedule. */
  function W(block: seq<Byte>, t: nat): Word
    requires |block| == 64 && t < 64
  {
    if t < 16 then ToWord(block[4 * t..4 * t + 4])
    else
      Sum(SmallSigma1(W(block, t - 2)), W(block, t - 7), SmallSigma0(W(block, t - 15)), W(block, t - 16))
  }

  datatype Registers = Registers(a: Word, b: Word, c: Word, d: Word, e: Word, f: Word, g: Word, h: Word)

  function Round(r: Registers, k: Word, w: Word): Registers {
    var t1 := Add(Add(Add(Add(r.h, BigSigma1(r.e)), Ch(r.e, r.f, r.g)), k), w);
    var t2 := Add(BigSigma0(r.a), Maj(r.a, r.b, r.c));
    Registers(Add(t1, t2), r.a, r.b, r.c, Add(r.d, t1), r.e, r.f, r.g)
  }

  /** The registers after t rounds. */
  function Rounds(r: Registers, block: seq<Byte>, t: nat): Registers
    requires |block| == 64 && t <= 64
  {
    if t == 0 then r else Round(Rounds(r, block, t - 1), K[t - 1], W(block, t - 1))
  }

  function ToRegisters(h: seq<Word>): Registers
    requires |h| == 8
  {
    Registers(h[0], h[1], h[2], h[3], h[4], h[5], h[6], h[7])
  }

  /** One step of the hash: from H(i-1) to H(i). */
  function Compress(h: seq<Word>, block: seq<Byte>): (h': seq<Word>)
    requires |h| == 8 && |block| == 64
    ensures |h'| == 8
  {
    var r := Rounds(ToRegisters(h), block, 64);
    [Add(r.a, h[0]), Add(r.b, h[1]), Add(r.c, h[2]), Add(r.d, h[3]),
     Add(r.e, h[4]), Add(r.f, h[5]), Add(r.g, h[6]), Add(r.h, h[7])]
  }

  /** H(k), after the first k blocks of s. */
  function HashBlocks(h: seq<Word>, s: seq<Byte>, k: nat): (h': seq<Word>)
    requires |h| == 8 && 64 * k <= |s|
    ensures |h'| == 8
  {
    if k == 0 then h else Compress(HashBlocks(h, s, k - 1), s[64 * (k - 1)..64 * k])
  }

  // ----- section 5.1.1: padding

  /** Number of zero bytes between the 0x80 byte and the length. */
  function ZeroCount(n: nat): (k: nat)
    ensures k < 64 && (n + 1 + k) % 64 == 56
  {
    (119 - n % 64) % 64
  }

  /** The number a sequence of bytes denotes, most significant byte first. */
  function Value(b: seq<Byte>): nat {
    if b == [] then 0 else 256 * Value(b[..|b| - 1]) + b[|b| - 1] as nat
  }

  /** Byte i of x, counted from the least significant one. */
  function ByteAt(x: nat, i: nat): Byte {
    if i == 0 then (x % 256) as bv8 else ByteAt(x / 256, i - 1)
  }

  /** The k lowest bytes of x, most significant first. */
  function BigEndian(x: nat, k: nat): (b: seq<Byte>)
    ensures |b| == k
  {
    seq(k, j requires 0 <= j < k => ByteAt(x, k - 1 - j))
  }

  function Zeros(k: nat): (z: seq<Byte>)
    ensures |z| == k
  {
    seq(k, _ => 0)
  }

  function Pad(msg: seq<Byte>): (p: seq<Byte>)
    ensures |p| % 64 == 0
  {
    msg + [0x80] + Zeros(ZeroCount(|msg|)) + BigEndian(8 * |msg|, 8)
  }

  /** H(N), the hash of a message. */
  function Hash(msg: seq<Byte>): (h: seq<Word>)
    ensures |h| == 8
  {
    HashBlocks(INITIAL_HASH, Pad(msg), |Pad(msg)| / 64)
  }

  /** d is the 256-bit digest H0 || ... || H7 of msg. */
  ghost predicate IsDigest(msg: seq<Byte>, d: seq<Byte>) {
    |d| == 32 && forall i :: 0 <= i < 8 ==> ToWord(d[4 * i..4 * i + 4]) == Hash(msg)[i]
  }

  /** ZeroCount is the smallest count that works. */
  lemma ZeroCountLeast(n: nat, k: nat)
    requires (n + 1 + k) % 64 == 56
    ensures ZeroCount(n) <= k
  {
  }

  lemma LowByte(x: nat)
    ensures ByteAt(x, 0) as nat == x % 256
  {
    SmallByte(x % 256);
  }

  lemma BigEndianSplit(x: nat, k: nat)
    requires k > 0
    ensures BigEndian(x, k) == BigEndian(x / 256, k - 1) + [ByteAt(x, 0)]
  {
    var b, front := BigEndian(x, k), BigEndian(x / 256, k - 1);
    forall j | 0 <= j < k - 1
      ensures b[j] == front[j]
    {
      assert ByteAt(x, k - 1 - j) == ByteAt(x / 256, k - 2 - j);
    }
  }

  lemma {:induction false} ValueOfBytes(x: nat, k: nat)
    ensures Value(BigEndian(x, k)) == x % Power256(k)
    decreases k
  {
    if k > 0 {
      hide ByteAt, BigEndian;
      BigEndianSplit(x, k);
      LowByte(x);
      var b := BigEndian(x, k);
      assert b[..k - 1] == BigEndian(x / 256, k - 1);
      ValueOfBytes(x / 256, k - 1);
      ModSplit(x, Power256(k - 1));
    }
  }

  function Power256(k: nat): (p: nat)
    ensures p > 0
  {
    if k == 0 then 1 else 256 * Power256(k - 1)
  }

  lemma ModSplit(x: nat, p: nat)
    requires p > 0
    ensures x % (256 * p) == 256 * (x / 256 % p) + x % 256
  {
    var q, r := x / 256, x % 256;
    var c, d := q / p, q % p;
    assert x == 256 * q + r && q == c * p + d;
    assert x == c * (256 * p) + (256 * d + r);
    assert 0 <= 256 * d + r < 256 * p;
    DivisionUnique(x, 256 * p, c, 256 * d + r);
  }

  lemma DivisionUnique(x: nat, m: nat, q: nat, r: nat)
    requires x == q * m + r && r < m
    ensures x % m == r
  {
    var q', r' := x / m, x % m;
    assert x == q' * m + r';
    if q' < q {
      MulMonotone(q' + 1, q, m);
    } else if q < q' {
      MulMonotone(q + 1, q', m);
    }
  }

  /** For messages shorter than 2^61 bytes the last eight bytes of the padding say how many bits
      the message has. */
  lemma LengthField(msg: seq<Byte>)
    requires |msg| < 0x2000_0000_0000_0000
    ensures Value(Pad(msg)[|Pad(msg)| - 8..]) == 8 * |msg|
  {
    ValueOfBytes(8 * |msg|, 8);
    assert Pad(msg)[|Pad(msg)| - 8..] == BigEndian(8 * |msg|, 8);
    assert Power256(8) == 0x1_0000_0000_0000_0000;
  }
}
