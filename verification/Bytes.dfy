/** Facts about machine words and bytes that need nothing else. */
module Bytes {

  /** A number below 256 survives the way through a byte: half a byte at a time. */
  lemma SmallByte(r: int)
    requires 0 <= r < 256
    ensures r as bv8 as int == r
  {
    var h, l := r / 16, r % 16;
    SmallNibble(h);
    SmallNibble(l);
    var b := h as bv8 * 16 + l as bv8;
    Nibbles(h as bv8, l as bv8);
    assert b as int == r;
    ByteAndBack(b);
  }

  lemma SmallNibble(r: int)
    requires 0 <= r < 16
    ensures r as bv8 as int == r && r as bv8 < 16
  {
  }

  lemma Nibbles(h: bv8, l: bv8)
    requires h < 16 && l < 16
    ensures (h * 16 + l) as int == 16 * (h as int) + l as int
  {
  }

  /** A byte is its high half and its low half. */
  lemma Halves(b: bv8)
    ensures ((b >> 4) as int) * 16 + (b & 0x0f) as int == b as int
  {
    HalvesFit(b);
    Nibbles(b >> 4, b & 0x0f);
  }

  lemma HalvesFit(b: bv8)
    ensures b >> 4 < 16 && b & 0x0f < 16 && (b >> 4) * 16 + (b & 0x0f) == b
  {
  }

  lemma ByteAndBack(b: bv8)
    ensures b as int as bv8 == b
  {
  }

  /** Addition of four words modulo 2^32. */
  function Sum(x: bv32, y: bv32, z: bv32, v: bv32): bv32 { x + y + z + v }

  lemma SumReversed(x: bv32, y: bv32, z: bv32, v: bv32)
    ensures Sum(x, y, z, v) == Sum(v, z, y, x)
  {
  }

  lemma SumCommutes(x: bv32, y: bv32)
    ensures x + y == y + x
  {
  }

  /** The four bytes of a word, put together again. */
  lemma WordOfBytes(x: bv32)
    ensures ((((x >> 24) & 0xff) as bv8 as bv32) << 24) | ((((x >> 16) & 0xff) as bv8 as bv32) << 16)
          | ((((x >> 8) & 0xff) as bv8 as bv32) << 8) | ((x & 0xff) as bv8 as bv32) == x
  {
  }

  lemma BytesDetermine(a: bv8, b: bv8, c: bv8, d: bv8, a': bv8, b': bv8, c': bv8, d': bv8)
    requires (a as bv32 << 24) | (b as bv32 << 16) | (c as bv32 << 8) | d as bv32
          == (a' as bv32 << 24) | (b' as bv32 << 16) | (c' as bv32 << 8) | d' as bv32
    ensures a == a' && b == b' && c == c' && d == d'
  {
  }

  lemma NibblesDetermine(x: bv8, y: bv8)
    requires x >> 4 == y >> 4 && x & 0x0f == y & 0x0f
    ensures x == y
  {
  }
}
