/** SHA-1 as FIPS 180-4 defines it (sections 4.1.1, 4.2.1, 5.1.1, 5.2.1, 5.3.1, 6.1.2). */
module Sha1Spec {
  type Octet = bv8

  datatype State = State(a: bv32, b: bv32, c: bv32, d: bv32, e: bv32)

  /** ROTL by the amounts that occur. */
  function Rol1(x: bv32): bv32 { (x << 1) | (x >> 31) }
  function Rol5(x: bv32): bv32 { (x << 5) | (x >> 27) }
  function Rol30(x: bv32): bv32 { (x << 30) | (x >> 2) }

  function Ch(x: bv32, y: bv32, z: bv32): bv32 { (x & y) ^ (!x & z) }
  function Parity(x: bv32, y: bv32, z: bv32): bv32 { x ^ y ^ z }
  function Maj(x: bv32, y: bv32, z: bv32): bv32 { (x & y) ^ (x & z) ^ (y & z) }

  function F(t: nat, x: bv32, y: bv32, z: bv32): bv32 {
    if t < 20 then Ch(x, y, z)
    else if t < 40 then Parity(x, y, z)
    else if t < 60 then Maj(x, y, z)
    else Parity(x, y, z)
  }

  function K(t: nat): bv32 {
    if t < 20 then 0x5A827999
    else if t < 40 then 0x6ED9EBA1
    else if t < 60 then 0x8F1BBCDC
    else 0xCA62C1D6
  }

  /** A big-endian word. */
  function BigEndian(b0: Octet, b1: Octet, b2: Octet, b3: Octet): bv32 {
    ((b0 as bv32) << 24) | ((b1 as bv32) << 16) | ((b2 as bv32) << 8) | (b3 as bv32)
  }

  /** The 16 words of a 64-byte block. */
  function Words(block: seq<Octet>): (w: seq<bv32>)
    requires |block| == 64
    ensures |w| == 16
  {
    seq(16, i requires 0 <= i < 16 => BigEndian(block[4 * i], block[4 * i + 1], block[4 * i + 2], block[4 * i + 3]))
  }

  /** The first n words of the message schedule. */
  function Schedule(block: seq<Octet>, n: nat): (w: seq<bv32>)
    requires |block| == 64 && n >= 16
    ensures |w| == n
  {
    if n == 16 then Words(block)
    else
      var w := Schedule(block, n - 1);
      w + [Rol1(w[n - 4] ^ w[n - 9] ^ w[n - 15] ^ w[n - 17])]
  }

  function Sum(rotated: bv32, f: bv32, e: bv32, k: bv32, w: bv32): bv32 { rotated + f + e + k + w }

  function Round(s: State, t: nat, w: bv32): State {
    State(Sum(Rol5(s.a), F(t, s.b, s.c, s.d), s.e, K(t), w), s.a, Rol30(s.b), s.c, s.d)
  }

  const ROUNDS: nat := 80

  /** The first t rounds. */
  function Rounds(s: State, w: seq<bv32>, t: nat): State
    requires t <= |w|
  {
    if t == 0 then s else Round(Rounds(s, w, t - 1), t - 1, w[t - 1])
  }

  function Plus(s: State, r: State): State {
    State(s.a + r.a, s.b + r.b, s.c + r.c, s.d + r.d, s.e + r.e)
  }

  function Compress(s: State, block: seq<Octet>): State
    requires |block| == 64
  {
    Plus(s, Rounds(s, Schedule(block, ROUNDS), ROUNDS))
  }

  const INITIAL := State(0x67452301, 0xEFCDAB89, 0x98BADCFE, 0x10325476, 0xC3D2E1F0)

  /** The iteration over blocks, for any compression function. */
  function Iterate(f: (State, seq<Octet>) -> State, m: seq<Octet>, n: nat): State
    requires 64 * n <= |m|
  {
    if n == 0 then INITIAL else f(Iterate(f, m, n - 1), m[64 * (n - 1)..64 * n])
  }

  function CompressBlock(s: State, block: seq<Octet>): State {
    if |block| == 64 then Compress(s, block) else s
  }

  /** The 64-bit big-endian length field. */
  function LengthField(bits: nat): (f: seq<Octet>)
    ensures |f| == 8
  {
    [(bits / 0x100_0000_0000_0000 % 256) as Octet, (bits / 0x1_0000_0000_0000 % 256) as Octet,
     (bits / 0x100_0000_0000 % 256) as Octet, (bits / 0x1_0000_0000 % 256) as Octet,
     (bits / 0x100_0000 % 256) as Octet, (bits / 0x1_0000 % 256) as Octet,
     (bits / 0x100 % 256) as Octet, (bits % 256) as Octet]
  }

  /** The least number of zero bytes that leaves eight bytes in the last block. */
  function PadZeros(len: nat): (k: nat)
    ensures k < 64 && (len + 1 + k) % 64 == 56
  {
    (119 - len % 64) % 64
  }

  lemma PadLength(len: nat)
    ensures (len + 1 + PadZeros(len) + 8) % 64 == 0
  {
    var n := len + 1 + PadZeros(len);
    assert n % 64 == 56;
  }

  /** The message, a one bit and k zero bytes. */
  function Padded(m: seq<Octet>, k: nat): (p: seq<Octet>)
    ensures |p| == |m| + 1 + k
  {
    m + [0x80] + seq(k, _ => 0 as Octet)
  }

  function Pad(m: seq<Octet>): (p: seq<Octet>)
    ensures |p| == |m| + 1 + PadZeros(|m|) + 8 && |p| % 64 == 0
  {
    PadLength(|m|);
    Padded(m, PadZeros(|m|)) + LengthField(8 * |m|)
  }

  /** Byte i of a big-endian word. */
  function ByteOf(w: bv32, i: nat): Octet
    requires i < 4
  {
    ((if i == 0 then w >> 24 else if i == 1 then w >> 16 else if i == 2 then w >> 8 else w) & 255) as Octet
  }

  function WordOf(s: State, i: nat): bv32
    requires i < 5
  {
    if i == 0 then s.a else if i == 1 then s.b else if i == 2 then s.c else if i == 3 then s.d else s.e
  }

  function DigestOf(s: State): (d: seq<Octet>)
    ensures |d| == 20
  {
    seq(20, i requires 0 <= i < 20 => ByteOf(WordOf(s, i / 4), i % 4))
  }

  function DigestWith(f: (State, seq<Octet>) -> State, m: seq<Octet>): (d: seq<Octet>)
    ensures |d| == 20
  {
    DigestOf(Iterate(f, Pad(m), |Pad(m)| / 64))
  }

  function Sha1(m: seq<Octet>): (d: seq<Octet>)
    ensures |d| == 20
  {
    DigestWith(CompressBlock, m)
  }
}
