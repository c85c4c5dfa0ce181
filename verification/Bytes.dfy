/** Byte strings, big-endian fields and the outcome types shared by every layer. */
module Bytes {
  type byte = bv8
  type Bytes = seq<byte>

  datatype Maybe<+T> = None | Some(value: T)
  datatype Result<+T, +E> = Ok(value: T) | Err(error: E)

  // 16-, 32- and 64-bit fields in network order.

  function U16(x: bv16): (r: Bytes)
    ensures |r| == 2 && ReadU16(r) == x
  {
    [(x >> 8) as bv8, (x & 0xFF) as bv8]
  }

  function ReadU16(s: Bytes): bv16
    requires |s| == 2
  {
    (s[0] as bv16 << 8) | s[1] as bv16
  }

  function U32(x: bv32): (r: Bytes)
    ensures |r| == 4 && ReadU32(r) == x
  {
    [(x >> 24) as bv8, ((x >> 16) & 0xFF) as bv8, ((x >> 8) & 0xFF) as bv8, (x & 0xFF) as bv8]
  }

  function ReadU32(s: Bytes): bv32
    requires |s| == 4
  {
    (s[0] as bv32 << 24) | (s[1] as bv32 << 16) | (s[2] as bv32 << 8) | s[3] as bv32
  }

  function U64(x: bv64): (r: Bytes)
    ensures |r| == 8
  {
    U32((x >> 32) as bv32) + U32((x & 0xFFFFFFFF) as bv32)
  }

  function ReadU64(s: Bytes): bv64
    requires |s| == 8
  {
    (ReadU32(s[..4]) as bv64 << 32) | ReadU32(s[4..]) as bv64
  }

  lemma U64RoundTrip(x: bv64)
    ensures ReadU64(U64(x)) == x
  {
    assert U64(x)[..4] == U32((x >> 32) as bv32);
    assert U64(x)[4..] == U32((x & 0xFFFFFFFF) as bv32);
  }

  // Lengths are unbounded here, so their fields go through one nibble at a time.

  function Nibbles(high: bv4, low: bv4): byte {
    (high as bv8 << 4) | low as bv8
  }

  function High(b: byte): bv4 {
    (b >> 4) as bv4
  }

  function Low(b: byte): bv4 {
    (b & 0xF) as bv4
  }

  lemma NibblesApart(high: bv4, low: bv4)
    ensures High(Nibbles(high, low)) == high && Low(Nibbles(high, low)) == low
  {
  }

  /** The low byte of a length. */
  function LowByte(n: nat): byte {
    Nibbles((n % 256 / 16) as bv4, (n % 256 % 16) as bv4)
  }

  function Value(b: byte): (n: nat)
    ensures n < 256
  {
    High(b) as nat * 16 + Low(b) as nat
  }

  lemma NibbleValue(m: nat)
    requires m < 16
    ensures (m as bv4) as nat == m
  {
  }

  lemma LowByteValue(n: nat)
    ensures Value(LowByte(n)) == n % 256
  {
    hide High, Low, Nibbles;
    var h, l := n % 256 / 16, n % 256 % 16;
    NibblesApart(h as bv4, l as bv4);
    NibbleValue(h);
    NibbleValue(l);
  }

  lemma NibblesTogether(b: byte)
    ensures Nibbles(High(b), Low(b)) == b
  {
  }

  lemma NibbleBack(x: bv4)
    ensures x as nat < 16 && (x as nat) as bv4 == x
  {
  }

  function NibbleNumber(x: bv4): (n: nat)
    ensures n < 16
  {
    x as nat
  }

  lemma LowByteOfNibbles(h: nat, l: nat)
    requires h < 16 && l < 16
    ensures LowByte(h * 16 + l) == Nibbles(h as bv4, l as bv4)
  {
    hide Nibbles;
    NibbleParts(h, l);
  }

  lemma NibbleParts(h: nat, l: nat)
    requires h < 16 && l < 16
    ensures (h * 16 + l) % 256 / 16 == h && (h * 16 + l) % 256 % 16 == l
  {
    assert (h * 16 + l) % 256 == h * 16 + l;
  }

  lemma ValueLowByte(b: byte)
    ensures LowByte(Value(b)) == b
  {
    var h, l := NibbleNumber(High(b)), NibbleNumber(Low(b));
    assert Value(b) == h * 16 + l;
    NibbleBack(High(b));
    NibbleBack(Low(b));
    NibblesTogether(b);
    hide High, Low, Nibbles, LowByte, Value;
    LowByteOfNibbles(h, l);
  }

  /** A length truncated to 16 bits. */
  function Length16(n: nat): (r: Bytes)
    ensures |r| == 2
  {
    [LowByte(n / 256), LowByte(n)]
  }

  function ReadLength16(s: Bytes): nat
    requires |s| == 2
  {
    Value(s[0]) * 256 + Value(s[1])
  }

  lemma Length16RoundTrip(n: nat)
    ensures ReadLength16(Length16(n)) == n % 0x10000
  {
    hide LowByte, Value;
    LowByteValue(n / 256);
    LowByteValue(n);
    ByteParts(n);
  }

  lemma ReadLengthBack(s: Bytes)
    requires |s| == 2
    ensures ReadLength16(s) < 0x10000 && Length16(ReadLength16(s)) == s
  {
    hide LowByte, Value;
    ValueLowByte(s[0]);
    ValueLowByte(s[1]);
    var n := Value(s[0]) * 256 + Value(s[1]);
    assert n / 256 == Value(s[0]);
    LowByteCongruent(n, Value(s[1]));
  }

  /** Truncation to 16 bits forgets every multiple of 0x10000. */
  lemma Length16Congruent(m: nat, n: nat)
    requires m % 0x10000 == n % 0x10000
    ensures Length16(m) == Length16(n)
  {
    hide LowByte;
    ByteParts(m);
    ByteParts(n);
    LowByteCongruent(m, n);
    LowByteCongruent(m / 256, n / 256);
  }

  lemma ByteParts(n: nat)
    ensures n / 256 % 256 == n % 0x10000 / 256
    ensures n % 256 == n % 0x10000 % 256
  {
    var q, r := n / 0x10000, n % 0x10000;
    assert n == 256 * (256 * q + r / 256) + r % 256;
    assert n / 256 == 256 * q + r / 256;
  }

  lemma LowByteCongruent(m: nat, n: nat)
    requires m % 256 == n % 256
    ensures LowByte(m) == LowByte(n)
  {
  }

  // Byte-wise exclusive or.

  function Xor8(a: byte, b: byte): byte {
    a ^ b
  }

  function XorBytes(a: Bytes, mask: Bytes): (r: Bytes)
    requires |mask| >= |a|
    ensures |r| == |a|
    ensures forall i :: 0 <= i < |a| ==> r[i] == Xor8(a[i], mask[i])
  {
    seq(|a|, i requires 0 <= i < |a| => Xor8(a[i], mask[i]))
  }

  lemma XorTwice(a: Bytes, mask: Bytes)
    requires |mask| >= |a|
    ensures XorBytes(XorBytes(a, mask), mask) == a
  {
    forall i | 0 <= i < |a| ensures XorBytes(XorBytes(a, mask), mask)[i] == a[i] {
      assert Xor8(Xor8(a[i], mask[i]), mask[i]) == a[i];
    }
  }

  /** A part of a part, read straight from the whole. */
  lemma Part(s: Bytes, off: nat, f: Bytes, a: nat, b: nat)
    requires off + |f| <= |s| && s[off..off + |f|] == f
    requires a <= b <= |f|
    ensures s[off + a..off + b] == f[a..b]
  {
    forall k | 0 <= k < b - a ensures s[off + a..off + b][k] == f[a..b][k] {
      assert f[a + k] == s[off..off + |f|][a + k] == s[off + (a + k)];
    }
  }

  // Chunk lists, as handed to hashes and checksums.

  function Concat(chunks: seq<Bytes>): Bytes {
    if chunks == [] then [] else chunks[0] + Concat(chunks[1..])
  }

  lemma {:induction false} ConcatAppend(a: seq<Bytes>, b: seq<Bytes>)
    ensures Concat(a + b) == Concat(a) + Concat(b)
  {
    if a == [] {
      assert a + b == b;
    } else {
      assert (a + b)[1..] == a[1..] + b;
      ConcatAppend(a[1..], b);
    }
  }
}
