/** The streaming SHA-256 of helpers/sha256.hpp, proved to compute the digest of FIPS 180-2
    for every message below 2^61 bytes, however it is cut into updates. */
module Sha256 {
  import opened Bytes
  import opened Sha256Standard

  const WORD64: nat := 0x1_0000_0000_0000_0000

  /** The context as a value: chaining state, bits hashed so far (modulo 2^64), and the buffer
      with the number of bytes waiting in it. */
  datatype Ctx = Ctx(state: seq<Word>, bitlen: nat, block: seq<Byte>, blockLen: nat)

  ghost predicate Shape(c: Ctx) {
    |c.state| == 8 && |c.block| == 64 && c.blockLen < 64
  }

  // ----- what the code does to the context

  /** Lines 102-111: one more byte. */
  function AbsorbByte(c: Ctx, b: Byte): (c': Ctx)
    requires Shape(c)
    ensures Shape(c')
  {
    var block := c.block[c.blockLen := b];
    if c.blockLen + 1 == 64 then Ctx(Compress(c.state, block), (c.bitlen + 512) % WORD64, block, 0)
    else Ctx(c.state, c.bitlen, block, c.blockLen + 1)
  }

  /** `update`. */
  function Absorb(c: Ctx, data: seq<Byte>): (c': Ctx)
    requires Shape(c)
    ensures Shape(c')
  {
    if data == [] then c else AbsorbByte(Absorb(c, data[..|data| - 1]), data[|data| - 1])
  }

  /** `final`: the 0x80 byte, zeros, and the bit count; in one block when the count still fits
      (lines 125-129), else in two (lines 119-129). */
  function Finish(c: Ctx): (h: seq<Word>)
    requires Shape(c)
    ensures |h| == 8
  {
    var bits := (c.bitlen + 8 * c.blockLen) % WORD64;
    var waiting := c.block[..c.blockLen] + [0x80];
    if c.blockLen + 1 > 56 then
      Compress(Compress(c.state, waiting + Zeros(63 - c.blockLen)), Zeros(56) + BigEndian(bits, 8))
    else
      Compress(c.state, waiting + Zeros(55 - c.blockLen) + BigEndian(bits, 8))
  }

  function Start(block: seq<Byte>): (c: Ctx)
    requires |block| == 64
    ensures Shape(c)
  {
    Ctx(INITIAL_HASH, 0, block, 0)
  }

  // ----- the context stands for the bytes consumed

  /** c is what the bytes `msg` leave behind: q whole blocks hashed, the rest waiting, and the
      count of bits exact modulo 2^64. */
  ghost predicate StandsForBlocks(c: Ctx, msg: seq<Byte>, q: nat) {
    && Shape(c) && |msg| == 64 * q + c.blockLen
    && c.block[..c.blockLen] == msg[64 * q..]
    && c.state == HashBlocks(INITIAL_HASH, msg, q)
    && c.bitlen == 512 * q % WORD64
  }

  ghost predicate StandsFor(c: Ctx, msg: seq<Byte>) {
    StandsForBlocks(c, msg, |msg| / 64)
  }

  lemma WrapAdd(q: nat)
    ensures (512 * q % WORD64 + 512) % WORD64 == 512 * (q + 1) % WORD64
  {
  }

  lemma BlocksUnfold(h: seq<Word>, s: seq<Byte>, k: nat)
    requires |h| == 8 && 64 * k <= |s|
    ensures HashBlocks(h, s, k) == if k == 0 then h else Compress(HashBlocks(h, s, k - 1), s[64 * (k - 1)..64 * k])
  {
    hide Compress;
  }

  lemma SameBlock(s: seq<Byte>, t: seq<Byte>, a: nat, b: nat)
    requires s <= t && a <= b <= |s|
    ensures s[a..b] == t[a..b]
  {
  }

  /** The first k blocks of a message are those of any longer one. */
  lemma {:induction false} HashPrefix(h: seq<Word>, s: seq<Byte>, t: seq<Byte>, k: nat)
    requires |h| == 8 && 64 * k <= |s| && s <= t
    ensures HashBlocks(h, s, k) == HashBlocks(h, t, k)
  {
    hide Compress, HashBlocks;
    BlocksUnfold(h, s, k);
    BlocksUnfold(h, t, k);
    if k > 0 {
      HashPrefix(h, s, t, k - 1);
      SameBlock(s, t, 64 * (k - 1), 64 * k);
    }
  }

  lemma ByteStandsForBlocks(c: Ctx, msg: seq<Byte>, b: Byte, q: nat)
    requires StandsForBlocks(c, msg, q)
    ensures StandsForBlocks(AbsorbByte(c, b), msg + [b], if c.blockLen == 63 then q + 1 else q)
  {
    hide Compress;
    var m := msg + [b];
    var block := c.block[c.blockLen := b];
    HashPrefix(INITIAL_HASH, msg, m, q);
    assert block[..c.blockLen + 1] == m[64 * q..];
    if c.blockLen == 63 {
      assert block == m[64 * q..64 * (q + 1)];
      WrapAdd(q);
    }
  }

  lemma ByteStandsFor(c: Ctx, msg: seq<Byte>, b: Byte)
    requires StandsFor(c, msg)
    ensures StandsFor(AbsorbByte(c, b), msg + [b])
  {
    var q := |msg| / 64;
    ByteStandsForBlocks(c, msg, b, q);
    WaitingBelow(c, msg, q);
    hide StandsForBlocks, AbsorbByte, Shape;
    BlockCount(|msg| + 1, if c.blockLen == 63 then q + 1 else q, if c.blockLen == 63 then 0 else c.blockLen + 1);
  }

  lemma WaitingBelow(c: Ctx, msg: seq<Byte>, q: nat)
    requires StandsForBlocks(c, msg, q)
    ensures |msg| == 64 * q + c.blockLen && c.blockLen < 64
  {
    hide HashBlocks;
  }

  lemma BlockCount(n: nat, q: nat, w: nat)
    requires n == 64 * q + w && w < 64
    ensures n / 64 == q
  {
  }

  lemma AbsorbSnoc(c: Ctx, data: seq<Byte>, b: Byte)
    requires Shape(c)
    ensures Absorb(c, data + [b]) == AbsorbByte(Absorb(c, data), b)
  {
    hide AbsorbByte;
    assert (data + [b])[..|data|] == data;
  }

  lemma AbsorbNone(c: Ctx)
    requires Shape(c)
    ensures Absorb(c, []) == c
  {
  }

  lemma {:induction false} AbsorbStandsFor(c: Ctx, msg: seq<Byte>, data: seq<Byte>)
    requires StandsFor(c, msg)
    ensures StandsFor(Absorb(c, data), msg + data)
  {
    StandingShape(c, msg);
    hide StandsFor, AbsorbByte, Absorb, Shape;
    if data == [] {
      AbsorbNone(c);
      assert msg + data == msg;
    } else {
      var front, b := data[..|data| - 1], data[|data| - 1];
      AbsorbStandsFor(c, msg, front);
      ByteStandsFor(Absorb(c, front), msg + front, b);
      AbsorbSnoc(c, front, b);
      LastByte(msg, data);
    }
  }

  lemma LastByte(msg: seq<Byte>, data: seq<Byte>)
    requires data != []
    ensures data[..|data| - 1] + [data[|data| - 1]] == data
    ensures msg + data[..|data| - 1] + [data[|data| - 1]] == msg + data
  {
  }

  lemma StandingShape(c: Ctx, msg: seq<Byte>)
    requires StandsFor(c, msg)
    ensures Shape(c)
  {
    hide HashBlocks;
  }

  lemma ZerosConcat(a: nat, b: nat)
    ensures Zeros(a) + Zeros(b) == Zeros(a + b)
  {
  }

  lemma NoWrap(x: nat)
    requires x < WORD64
    ensures x % WORD64 == x
  {
  }

  /** The count is exact as long as the message is below 2^61 bytes. */
  lemma ExactBits(c: Ctx, msg: seq<Byte>, q: nat)
    requires StandsForBlocks(c, msg, q) && |msg| < 0x2000_0000_0000_0000
    ensures (c.bitlen + 8 * c.blockLen) % WORD64 == 8 * |msg|
  {
    hide HashBlocks;
    NoWrap(512 * q);
    NoWrap(8 * |msg|);
  }

  /** The padding of a message whose last, incomplete block starts at 64 * q. */
  lemma PaddingShort(msg: seq<Byte>, q: nat, w: nat)
    requires |msg| == 64 * q + w && w <= 55
    ensures Pad(msg) == msg + [0x80] + Zeros(55 - w) + BigEndian(8 * |msg|, 8)
  {
    hide BigEndian;
    assert ZeroCount(|msg|) == 55 - w;
  }

  lemma PaddingLong(msg: seq<Byte>, q: nat, w: nat)
    requires |msg| == 64 * q + w && 56 <= w < 64
    ensures Pad(msg) == msg + [0x80] + Zeros(63 - w) + (Zeros(56) + BigEndian(8 * |msg|, 8))
  {
    hide BigEndian;
    assert ZeroCount(|msg|) == 119 - w;
    ZerosConcat(63 - w, 56);
  }

  lemma FinishShort(c: Ctx, msg: seq<Byte>, q: nat)
    requires StandsForBlocks(c, msg, q) && |msg| < 0x2000_0000_0000_0000 && c.blockLen <= 55
    ensures Finish(c) == Hash(msg)
  {
    hide Compress, BigEndian;
    var p := Pad(msg);
    ExactBits(c, msg, q);
    PaddingShort(msg, q, c.blockLen);
    HashPrefix(INITIAL_HASH, msg, p, q);
    assert |p| == 64 * (q + 1);
    assert p[64 * q..64 * (q + 1)] == msg[64 * q..] + [0x80] + Zeros(55 - c.blockLen) + BigEndian(8 * |msg|, 8);
  }

  lemma FinishLong(c: Ctx, msg: seq<Byte>, q: nat)
    requires StandsForBlocks(c, msg, q) && |msg| < 0x2000_0000_0000_0000 && c.blockLen > 55
    ensures Finish(c) == Hash(msg)
  {
    hide Compress, BigEndian;
    var p := Pad(msg);
    ExactBits(c, msg, q);
    PaddingLong(msg, q, c.blockLen);
    HashPrefix(INITIAL_HASH, msg, p, q);
    assert |p| == 64 * (q + 2);
    assert p[64 * q..64 * (q + 1)] == msg[64 * q..] + [0x80] + Zeros(63 - c.blockLen);
    assert p[64 * (q + 1)..64 * (q + 2)] == Zeros(56) + BigEndian(8 * |msg|, 8);
    assert HashBlocks(INITIAL_HASH, p, q + 2) ==
           Compress(HashBlocks(INITIAL_HASH, p, q + 1), p[64 * (q + 1)..64 * (q + 2)]);
  }

  /** `final` yields H(N) of everything consumed. */
  lemma FinishIsHash(c: Ctx, msg: seq<Byte>)
    requires StandsFor(c, msg) && |msg| < 0x2000_0000_0000_0000
    ensures Finish(c) == Hash(msg)
  {
    if c.blockLen <= 55 {
      FinishShort(c, msg, |msg| / 64);
    } else {
      FinishLong(c, msg, |msg| / 64);
    }
  }

  // ----- cutting a message into updates

  function Join(chunks: seq<seq<Byte>>): seq<Byte> {
    if chunks == [] then [] else Join(chunks[..|chunks| - 1]) + chunks[|chunks| - 1]
  }

  /** One `update` per chunk. */
  function AbsorbAll(c: Ctx, chunks: seq<seq<Byte>>): (c': Ctx)
    requires Shape(c)
    ensures Shape(c')
  {
    if chunks == [] then c else Absorb(AbsorbAll(c, chunks[..|chunks| - 1]), chunks[|chunks| - 1])
  }

  lemma {:induction false} AllStandsFor(block: seq<Byte>, chunks: seq<seq<Byte>>)
    requires |block| == 64
    ensures StandsFor(AbsorbAll(Start(block), chunks), Join(chunks))
  {
    if chunks != [] {
      hide StandsFor, Absorb;
      AllStandsFor(block, chunks[..|chunks| - 1]);
      AbsorbStandsFor(AbsorbAll(Start(block), chunks[..|chunks| - 1]), Join(chunks[..|chunks| - 1]),
                      chunks[|chunks| - 1]);
    }
  }

  /** Streaming equals the standard: whatever the buffer held before `init`, and however the
      message is cut into `update` calls, `final` ends with the hash of FIPS 180-2. */
  lemma StreamingIsStandard(block: seq<Byte>, chunks: seq<seq<Byte>>)
    requires |block| == 64 && |Join(chunks)| < 0x2000_0000_0000_0000
    ensures Finish(AbsorbAll(Start(block), chunks)) == Hash(Join(chunks))
  {
    AllStandsFor(block, chunks);
    FinishIsHash(AbsorbAll(Start(block), chunks), Join(chunks));
  }

  // ----- the code

  lemma AddOrder(x: Word, y: Word)
    ensures Add(x, y) == Add(y, x)
  {
    SumCommutes(x, y);
  }

  lemma ScheduleStep(block: seq<Byte>, i: nat)
    requires |block| == 64 && 16 <= i < 64
    ensures W(block, i) ==
            Sum(W(block, i - 16), SmallSigma0(W(block, i - 15)), W(block, i - 7), SmallSigma1(W(block, i - 2)))
  {
    hide SmallSigma0, SmallSigma1, ToWord, Sum;
    SumReversed(SmallSigma1(W(block, i - 2)), W(block, i - 7), SmallSigma0(W(block, i - 15)), W(block, i - 16));
  }

  lemma ScheduleStart(block: seq<Byte>, i: nat)
    requires |block| == 64 && i < 16
    ensures W(block, i) == ToWord([block[i * 4], block[i * 4 + 1], block[i * 4 + 2], block[i * 4 + 3]])
  {
    hide ToWord;
    assert block[4 * i..4 * i + 4] == [block[i * 4], block[i * 4 + 1], block[i * 4 + 2], block[i * 4 + 3]];
  }

  /** Lines 55-68. */
  method Schedule(block: seq<Byte>) returns (w: array<Word>)
    requires |block| == 64
    ensures fresh(w) && w.Length == 64 && forall i :: 0 <= i < 64 ==> w[i] == W(block, i)
  {
    hide ToWord, W, SmallSigma0, SmallSigma1, Sum;
    w := new Word[64](_ => 0);
    for i := 0 to 16
      invariant forall k :: 0 <= k < i ==> w[k] == W(block, k)
    {
      ScheduleStart(block, i);
      w[i] := ToWord([block[i * 4], block[i * 4 + 1], block[i * 4 + 2], block[i * 4 + 3]]);
    }
    for i := 16 to 64
      invariant forall k :: 0 <= k < i ==> w[k] == W(block, k)
    {
      ScheduleStep(block, i);
      var s0 := SmallSigma0(w[i - 15]);
      var s1 := SmallSigma1(w[i - 2]);
      w[i] := Sum(w[i - 16], s0, w[i - 7], s1);
    }
  }

  /** Lines 70-84: the rolling registers. */
  method RunRounds(state: array<Word>, block: seq<Byte>, w: array<Word>) returns (r: Registers)
    requires state.Length == 8 && |block| == 64 && w.Length == 64
    requires forall i :: 0 <= i < 64 ==> w[i] == W(block, i)
    ensures r == Rounds(ToRegisters(state[..]), block, 64)
  {
    assert |K| == 64;
    hide W, BigSigma0, BigSigma1, Ch, Maj, Add, K;
    var a, b, c, d := state[0], state[1], state[2], state[3];
    var e, f, g, h := state[4], state[5], state[6], state[7];
    ghost var start := ToRegisters(state[..]);
    for i := 0 to 64
      invariant Registers(a, b, c, d, e, f, g, h) == Rounds(start, block, i)
    {
      var t1 := Add(Add(Add(Add(h, BigSigma1(e)), Ch(e, f, g)), K[i]), w[i]);
      var t2 := Add(BigSigma0(a), Maj(a, b, c));
      h := g; g := f; f := e; e := Add(d, t1);
      d := c; c := b; b := a; a := Add(t1, t2);
    }
    r := Registers(a, b, c, d, e, f, g, h);
  }

  /** `transform`. */
  method Transform(state: array<Word>, block: seq<Byte>)
    requires state.Length == 8 && |block| == 64
    modifies state
    ensures state[..] == Compress(old(state[..]), block)
  {
    hide Rounds, W, Add;
    var w := Schedule(block);
    ghost var h := state[..];
    var r := RunRounds(state, block, w);
    AddOrder(h[0], r.a); AddOrder(h[1], r.b); AddOrder(h[2], r.c); AddOrder(h[3], r.d);
    AddOrder(h[4], r.e); AddOrder(h[5], r.f); AddOrder(h[6], r.g); AddOrder(h[7], r.h);
    state[0] := Add(state[0], r.a); state[1] := Add(state[1], r.b);
    state[2] := Add(state[2], r.c); state[3] := Add(state[3], r.d);
    state[4] := Add(state[4], r.e); state[5] := Add(state[5], r.f);
    state[6] := Add(state[6], r.g); state[7] := Add(state[7], r.h);
  }

  lemma WordBytes(x: Word)
    ensures ToWord([((x >> 24) & 0xff) as bv8, ((x >> 16) & 0xff) as bv8, ((x >> 8) & 0xff) as bv8,
                    (x & 0xff) as bv8]) == x
  {
    WordOfBytes(x);
  }

  lemma DigestOf(c: Ctx, msg: seq<Byte>, d: seq<Byte>)
    requires StandsFor(c, msg) && |msg| < 0x2000_0000_0000_0000
    requires |d| == 32 && forall i :: 0 <= i < 8 ==> ToWord(d[4 * i..4 * i + 4]) == Finish(c)[i]
    ensures IsDigest(msg, d)
  {
    FinishIsHash(c, msg);
    hide Finish, Hash, ToWord;
  }

  class Sha256Ctx {
    const state: array<Word>
    var bitlen: nat
    const block: array<Byte>
    var blockLen: nat

    ghost predicate Valid()
      reads this
    {
      state.Length == 8 && block.Length == 64 && blockLen < 64
    }

    ghost function Value(): (c: Ctx)
      requires Valid()
      reads this, state, block
      ensures Shape(c)
    {
      Ctx(state[..], bitlen, block[..], blockLen)
    }

    /** An uninitialised context. */
    constructor ()
      ensures Valid() && fresh(state) && fresh(block)
    {
      state := new Word[8](_ => 0);
      block := new Byte[64](_ => 0);
      bitlen, blockLen := 0, 0;
    }

    /** `init`. */
    method Init()
      requires Valid()
      modifies this, state
      ensures Valid() && Value() == Start(old(block[..]))
    {
      state[0], state[1], state[2], state[3] := 0x6a09e667, 0xbb67ae85, 0x3c6ef372, 0xa54ff53a;
      state[4], state[5], state[6], state[7] := 0x510e527f, 0x9b05688c, 0x1f83d9ab, 0x5be0cd19;
      bitlen, blockLen := 0, 0;
      assert state[..] == INITIAL_HASH;
    }

    /** `update`. */
    method Update(data: seq<Byte>)
      requires Valid()
      modifies this, state, block
      ensures Valid() && Value() == Absorb(old(Value()), data)
    {
      hide Compress;
      ghost var start := Value();
      for i := 0 to |data|
        invariant Valid() && Value() == Absorb(start, data[..i])
      {
        assert data[..i + 1][..i] == data[..i];
        ghost var before := Value();
        block[blockLen] := data[i];
        blockLen := blockLen + 1;
        if blockLen == 64 {
          Transform(state, block[..]);
          bitlen := (bitlen + 512) % WORD64;
          blockLen := 0;
        }
        assert Value() == AbsorbByte(before, data[i]);
      }
      assert data[..|data|] == data;
    }

    /** Zero bytes from blockLen up to `stop`. */
    method FillZeros(stop: nat)
      requires block.Length == 64 && blockLen <= stop <= 64
      modifies this`blockLen, block
      ensures blockLen == stop
      ensures block[..stop] == old(block[..blockLen]) + Zeros(stop - old(blockLen))
    {
      ghost var from := blockLen;
      while blockLen < stop
        invariant from <= blockLen <= stop
        invariant block[..blockLen] == old(block[..blockLen]) + Zeros(blockLen - from)
      {
        block[blockLen] := 0;
        blockLen := blockLen + 1;
      }
    }

    /** Lines 127-128: the bit count, most significant byte first. */
    method WriteLength(totalBits: nat)
      requires block.Length == 64 && blockLen == 56
      modifies this`blockLen, block
      ensures block[..] == old(block[..56]) + BigEndian(totalBits, 8)
    {
      hide BigEndian;
      ghost var head := block[..56];
      for i := 0 to 8
        invariant blockLen == 56 + i
        invariant block[..blockLen] == head + BigEndian(totalBits, 8)[..i]
      {
        block[blockLen] := BigEndian(totalBits, 8)[i];
        blockLen := blockLen + 1;
      }
    }

    /** `final`: the digest, most significant byte of each word first. */
    method Final() returns (digest: seq<Byte>)
      requires Valid()
      modifies this, state, block
      ensures |digest| == 32
      ensures forall i :: 0 <= i < 8 ==> ToWord(digest[4 * i..4 * i + 4]) == Finish(old(Value()))[i]
      ensures forall msg :: StandsFor(old(Value()), msg) && |msg| < 0x2000_0000_0000_0000 ==> IsDigest(msg, digest)
    {
      hide Compress, ToWord, BigEndian, StandsFor, IsDigest;
      ghost var c := Value();
      var totalBits := (bitlen + 8 * blockLen) % WORD64;
      block[blockLen] := 0x80;
      blockLen := blockLen + 1;
      ghost var waiting := c.block[..c.blockLen] + [0x80];
      assert block[..blockLen] == waiting;
      if blockLen > 56 {
        FillZeros(64);
        assert block[..] == waiting + Zeros(63 - c.blockLen);
        Transform(state, block[..]);
        blockLen := 0;
      }
      ghost var h := state[..];
      assert h == if c.blockLen + 1 > 56 then Compress(c.state, waiting + Zeros(63 - c.blockLen)) else c.state;
      FillZeros(56);
      ghost var head := if c.blockLen + 1 > 56 then Zeros(56) else waiting + Zeros(55 - c.blockLen);
      assert block[..56] == head;
      WriteLength(totalBits);
      Transform(state, block[..]);
      blockLen := 0;
      assert state[..] == Compress(h, head + BigEndian(totalBits, 8));
      assert state[..] == Finish(c);
      digest := Serialize();
      forall msg | StandsFor(c, msg) && |msg| < 0x2000_0000_0000_0000
        ensures IsDigest(msg, digest)
      {
        DigestOf(c, msg, digest);
      }
    }

    /** Lines 131-137. */
    method Serialize() returns (out: seq<Byte>)
      requires state.Length == 8
      ensures |out| == 32 && forall i :: 0 <= i < 8 ==> ToWord(out[4 * i..4 * i + 4]) == state[i]
    {
      hide ToWord;
      out := [];
      for i := 0 to 8
        invariant |out| == 4 * i && forall k :: 0 <= k < i ==> ToWord(out[4 * k..4 * k + 4]) == state[k]
      {
        var x := state[i];
        var four := [((x >> 24) & 0xff) as bv8, ((x >> 16) & 0xff) as bv8, ((x >> 8) & 0xff) as bv8, (x & 0xff) as bv8];
        WordBytes(x);
        ghost var was := out;
        out := out + four;
        assert out[4 * i..4 * i + 4] == four;
        assert forall k :: 0 <= k < i ==> out[4 * k..4 * k + 4] == was[4 * k..4 * k + 4];
      }
    }
  }

  // ----- the hexadecimal form (lines 145-164)

  const HEX: string := "0123456789abcdef"

  function HexValue(c: char): int {
    if '0' <= c <= '9' then c as int - '0' as int
    else if 'a' <= c <= 'f' then c as int - 'a' as int + 10
    else -1
  }

  lemma HexDigit(n: bv8)
    requires n < 16
    ensures HexValue(HEX[n as int]) == n as int
  {
  }

  function HexPair(b: Byte): string {
    [HEX[(b >> 4) as int], HEX[(b & 0x0f) as int]]
  }

  /** Two lowercase digits for every byte, high half first. */
  function HexOf(d: seq<Byte>): (s: string)
    ensures |s| == 2 * |d|
  {
    if d == [] then "" else HexOf(d[..|d| - 1]) + HexPair(d[|d| - 1])
  }

  lemma HexPairInjective(x: Byte, y: Byte)
    requires HexPair(x) == HexPair(y)
    ensures x == y
  {
    HexDigit(x >> 4);
    HexDigit(y >> 4);
    HexDigit(x & 0x0f);
    HexDigit(y & 0x0f);
    assert HexPair(x)[0] == HexPair(y)[0] && HexPair(x)[1] == HexPair(y)[1];
    SameNibble(x >> 4, y >> 4);
    SameNibble(x & 0x0f, y & 0x0f);
    NibblesDetermine(x, y);
  }

  lemma SameNibble(x: bv8, y: bv8)
    requires x as int == y as int
    ensures x == y
  {
  }

  /** Read as hexadecimal, each pair of characters is the byte in its place; there are no other characters
      than digits and the letters a to f. */
  ghost predicate Shows(text: string, bytes: seq<Byte>) {
    && |text| == 2 * |bytes|
    && (forall i :: 0 <= i < |bytes| ==> HexValue(text[2 * i]) * 16 + HexValue(text[2 * i + 1]) == bytes[i] as int)
    && (forall i :: 0 <= i < |text| ==> '0' <= text[i] <= '9' || 'a' <= text[i] <= 'f')
  }

  lemma HexCharacter(n: bv8)
    requires n < 16
    ensures '0' <= HEX[n as int] <= '9' || 'a' <= HEX[n as int] <= 'f'
  {
  }

  lemma HexPairShows(b: Byte)
    ensures Shows(HexPair(b), [b])
  {
    HalvesFit(b);
    Halves(b);
    HexDigit(b >> 4);
    HexDigit(b & 0x0f);
    HexCharacter(b >> 4);
    HexCharacter(b & 0x0f);
    hide HexValue;
  }

  lemma ShowsMore(s: string, a: seq<Byte>, t: string, b: Byte)
    requires Shows(s, a) && Shows(t, [b])
    ensures Shows(s + t, a + [b])
  {
    hide HexValue;
    var text, bytes := s + t, a + [b];
    forall i | 0 <= i < |bytes|
      ensures HexValue(text[2 * i]) * 16 + HexValue(text[2 * i + 1]) == bytes[i] as int
    {
      if i == |a| {
        assert text[2 * i] == t[2 * 0] && text[2 * i + 1] == t[2 * 0 + 1] && [b][0] == b;
      } else {
        assert text[2 * i] == s[2 * i] && text[2 * i + 1] == s[2 * i + 1];
      }
    }
  }

  lemma {:induction false} HexOfShows(d: seq<Byte>)
    ensures Shows(HexOf(d), d)
  {
    hide HexPair, Shows;
    if d == [] {
      NothingShows();
    } else {
      var front, last := d[..|d| - 1], d[|d| - 1];
      HexOfShows(front);
      HexPairShows(last);
      ShowsMore(HexOf(front), front, HexPair(last), last);
      assert front + [last] == d;
    }
  }

  lemma NothingShows()
    ensures Shows("", [])
  {
  }

  /** Different digests have different hexadecimal forms. */
  lemma {:induction false} HexInjective(a: seq<Byte>, b: seq<Byte>)
    requires HexOf(a) == HexOf(b)
    ensures a == b
  {
    if a != [] && b != [] {
      hide HexPair;
      var fa, fb := a[..|a| - 1], b[..|b| - 1];
      assert HexOf(a)[..2 * |fa|] == HexOf(fa) && HexOf(b)[..2 * |fb|] == HexOf(fb);
      assert HexOf(a)[2 * |fa|..] == HexPair(a[|a| - 1]) && HexOf(b)[2 * |fb|..] == HexPair(b[|b| - 1]);
      HexInjective(fa, fb);
      HexPairInjective(a[|a| - 1], b[|b| - 1]);
    }
  }

  lemma HexOfNone()
    ensures HexOf([]) == ""
  {
  }

  lemma HexOfSnoc(d: seq<Byte>, b: Byte)
    ensures HexOf(d + [b]) == HexOf(d) + [HEX[(b >> 4) as int]] + [HEX[(b & 0x0f) as int]]
  {
    assert (d + [b])[..|d|] == d;
  }

  /** Lines 156-163. */
  method ToHex(digest: seq<Byte>) returns (out: string)
    ensures out == HexOf(digest) && Shows(out, digest)
  {
    HexOfShows(digest);
    hide Shows, HexOf;
    out := "";
    HexOfNone();
    for i := 0 to |digest|
      invariant out == HexOf(digest[..i])
    {
      HexOfSnoc(digest[..i], digest[i]);
      assert digest[..i] + [digest[i]] == digest[..i + 1];
      out := out + [HEX[(digest[i] >> 4) as int]];
      out := out + [HEX[(digest[i] & 0x0f) as int]];
    }
    assert digest[..|digest|] == digest;
  }

  /** `sha256_hex`: the hexadecimal digest of FIPS 180-2. */
  method Sha256Hex(data: seq<Byte>) returns (out: string, ghost digest: seq<Byte>)
    ensures |out| == 64 && out == HexOf(digest) && Shows(out, digest)
    ensures |data| < 0x2000_0000_0000_0000 ==> IsDigest(data, digest)
  {
    hide IsDigest, StandsFor, Finish, Absorb, HexOf, Shows;
    var ctx := new Sha256Ctx();
    AbsorbStart(ctx.block[..], data);
    ctx.Init();
    ctx.Update(data);
    var d := ctx.Final();
    digest := d;
    out := ToHex(d);
  }

  lemma AbsorbStart(block: seq<Byte>, data: seq<Byte>)
    requires |block| == 64
    ensures StandsFor(Absorb(Start(block), data), data)
  {
    StartStandsForNothing(block);
    hide StandsFor, Absorb, Start;
    AbsorbStandsFor(Start(block), [], data);
    assert [] + data == data;
  }

  lemma StartStandsForNothing(block: seq<Byte>)
    requires |block| == 64
    ensures StandsFor(Start(block), [])
  {
  }
}
