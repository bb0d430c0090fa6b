/** SHA1Init, SHA1Update, SHA1Final and SHA1: the streaming context. */
module Sha1Stream {
  import opened Arith
  import opened Sha1Spec
  import opened Sha1Transform

  /** A sum of two uint32_t. */
  function Add32(a: nat, b: nat): nat { (a + b) % 0x1_0000_0000 }

  // ---- the two-word bit counter ----

  /** Adding len << 3 and len >> 29 to the two count words keeps 8 times the length modulo 2^64. */
  lemma CountUp(n: nat, len: nat, c0: nat, c1: nat)
    requires c0 == 8 * n % 0x1_0000_0000 && c1 == 8 * n / 0x1_0000_0000 % 0x1_0000_0000
    requires len < 0x1_0000_0000
    ensures var d0 := (c0 + 8 * len % 0x1_0000_0000) % 0x1_0000_0000;
      var d1 := if d0 < c0 then (c1 + 1) % 0x1_0000_0000 else c1;
      && d0 == 8 * (n + len) % 0x1_0000_0000
      && (d1 + len / 0x2000_0000) % 0x1_0000_0000 == 8 * (n + len) / 0x1_0000_0000 % 0x1_0000_0000
  {
    var q, r, x := 8 * n / 0x1_0000_0000, len / 0x2000_0000, 8 * (len % 0x2000_0000);
    DivMod(8 * len, 0x1_0000_0000, r, x);
    if c0 + x < 0x1_0000_0000 {
      DivMod(c0 + x, 0x1_0000_0000, 0, c0 + x);
      DivMod(8 * (n + len), 0x1_0000_0000, q + r, c0 + x);
      AddMod(q, r);
    } else {
      DivMod(c0 + x, 0x1_0000_0000, 1, c0 + x - 0x1_0000_0000);
      DivMod(8 * (n + len), 0x1_0000_0000, q + 1 + r, c0 + x - 0x1_0000_0000);
      AddMod(q, 1);
      AddMod(q + 1, r);
    }
  }

  lemma AddMod(a: nat, b: nat)
    ensures (a % 0x1_0000_0000 + b) % 0x1_0000_0000 == (a + b) % 0x1_0000_0000
  {
    var q := a / 0x1_0000_0000;
    var s := a % 0x1_0000_0000 + b;
    DivMod(a + b, 0x1_0000_0000, q + s / 0x1_0000_0000, s % 0x1_0000_0000);
  }

  /** finalcount: the two words, most significant byte first. */
  function FinalCount(c0: nat, c1: nat): (f: seq<Octet>)
    ensures |f| == 8
  {
    [(c1 / 0x100_0000 % 256) as Octet, (c1 / 0x1_0000 % 256) as Octet,
     (c1 / 0x100 % 256) as Octet, (c1 % 256) as Octet,
     (c0 / 0x100_0000 % 256) as Octet, (c0 / 0x1_0000 % 256) as Octet,
     (c0 / 0x100 % 256) as Octet, (c0 % 256) as Octet]
  }

  lemma FinalCountIsLength(bits: nat)
    ensures FinalCount(bits % 0x1_0000_0000, bits / 0x1_0000_0000 % 0x1_0000_0000) == LengthField(bits)
  {
    WordBytes(bits);
    WordBytes(bits / 0x1_0000_0000);
    var h, l := bits / 0x1_0000_0000, bits % 0x1_0000_0000;
    DivMod(bits, 0x100_0000_0000_0000, h / 0x100_0000, h % 0x100_0000 * 0x1_0000_0000 + l);
    DivMod(bits, 0x1_0000_0000_0000, h / 0x1_0000, h % 0x1_0000 * 0x1_0000_0000 + l);
    DivMod(bits, 0x100_0000_0000, h / 0x100, h % 0x100 * 0x1_0000_0000 + l);
  }

  lemma WordBytes(x: nat)
    ensures var w := x % 0x1_0000_0000;
      && w / 0x100_0000 % 256 == x / 0x100_0000 % 256 && w / 0x1_0000 % 256 == x / 0x1_0000 % 256
      && w / 0x100 % 256 == x / 0x100 % 256 && w % 256 == x % 256
  {
    WordByte3(x);
    WordByte2(x);
    WordByte1(x);
    WordByte0(x);
  }

  lemma WordByte0(x: nat)
    ensures x % 0x1_0000_0000 % 256 == x % 256
  {
    var q, w := x / 0x1_0000_0000, x % 0x1_0000_0000;
    DivMod(x, 256, q * 0x100_0000 + w / 256, w % 256);
  }

  lemma WordByte3(x: nat)
    ensures x % 0x1_0000_0000 / 0x100_0000 % 256 == x / 0x100_0000 % 256
  {
    var q, w := x / 0x1_0000_0000, x % 0x1_0000_0000;
    var a := w / 0x100_0000;
    DivMod(x, 0x100_0000, q * 256 + a, w % 0x100_0000);
    DivMod(q * 256 + a, 256, q + a / 256, a % 256);
  }

  lemma WordByte2(x: nat)
    ensures x % 0x1_0000_0000 / 0x1_0000 % 256 == x / 0x1_0000 % 256
  {
    var q, w := x / 0x1_0000_0000, x % 0x1_0000_0000;
    var a := w / 0x1_0000;
    DivMod(x, 0x1_0000, q * 0x1_0000 + a, w % 0x1_0000);
    DivMod(q * 0x1_0000 + a, 256, q * 256 + a / 256, a % 256);
  }

  lemma WordByte1(x: nat)
    ensures x % 0x1_0000_0000 / 0x100 % 256 == x / 0x100 % 256
  {
    var q, w := x / 0x1_0000_0000, x % 0x1_0000_0000;
    var a := w / 0x100;
    DivMod(x, 0x100, q * 0x100_0000 + a, w % 0x100);
    DivMod(q * 0x100_0000 + a, 256, q * 0x1_0000 + a / 256, a % 256);
  }

  // ---- the context ----

  type Compression = (State, seq<Octet>) -> State

  /** f is the compression function; the streaming proofs below use nothing else about it. */
  ghost predicate Computes(f: Compression) {
    forall s: State, b: seq<Octet> {:trigger Compress(s, b)} | |b| == 64 :: f(s, b) == Compress(s, b)
  }

  lemma {:induction false} HashPrefix(f: Compression, m: seq<Octet>, m': seq<Octet>, n: nat)
    requires m <= m' && 64 * n <= |m|
    ensures Iterate(f, m, n) == Iterate(f, m', n)
  {
    if n > 0 {
      HashPrefix(f, m, m', n - 1);
      assert m[64 * (n - 1)..64 * n] == m'[64 * (n - 1)..64 * n];
    }
  }

  class Context {
    const state: array<bv32>
    var count0: nat
    var count1: nat
    const buffer: array<Octet>
    ghost const f: Compression

    ghost predicate Shape() {
      state.Length == 5 && buffer.Length == 64 && state as object != buffer && Computes(f)
    }

    /** The context after the bytes of m: whole blocks hashed, the tail buffered, the bits counted. */
    ghost predicate Holds(m: seq<Octet>)
      reads this, state, buffer
    {
      && Shape()
      && count0 == 8 * |m| % 0x1_0000_0000 && count1 == 8 * |m| / 0x1_0000_0000 % 0x1_0000_0000
      && StateOf(state[..]) == Iterate(f, m, |m| / 64)
      && buffer[..|m| % 64] == m[|m| - |m| % 64..]
    }

    /** SHA1Init. */
    constructor (ghost f: Compression)
      requires Computes(f)
      ensures this.f == f && Holds([]) && fresh(state) && fresh(buffer)
    {
      this.f := f;
      state := new bv32[5];
      buffer := new Octet[64];
      count0, count1 := 0, 0;
      new;
      state[0], state[1], state[2], state[3], state[4] := 0x67452301, 0xEFCDAB89, 0x98BADCFE, 0x10325476, 0xC3D2E1F0;
    }

    /** memcpy into the buffer at offset j. */
    method CopyIn(j: nat, src: seq<Octet>)
      requires Shape() && j + |src| <= 64
      modifies buffer
      ensures buffer[..j] == old(buffer[..j]) && buffer[j..j + |src|] == src
    {
      forall k | 0 <= k < |src| {
        buffer[j + k] := src[k];
      }
    }

    method AddToCount(len: nat, ghost n: nat)
      requires len < 0x1_0000_0000
      requires count0 == 8 * n % 0x1_0000_0000 && count1 == 8 * n / 0x1_0000_0000 % 0x1_0000_0000
      modifies this
      ensures count0 == 8 * (n + len) % 0x1_0000_0000
      ensures count1 == 8 * (n + len) / 0x1_0000_0000 % 0x1_0000_0000
    {
      CountUp(n, len, count0, count1);
      var j := count0;
      count0 := (count0 + 8 * len % 0x1_0000_0000) % 0x1_0000_0000;
      if count0 < j {
        count1 := (count1 + 1) % 0x1_0000_0000;
      }
      count1 := (count1 + len / 0x2000_0000) % 0x1_0000_0000;
    }

    /** The whole blocks of `all` from byte `from` on, of which `data` is the end. */
    method HashBlocks(data: seq<Octet>, start: nat, ghost all: seq<Octet>, ghost offset: nat) returns (i: nat)
      requires offset % 64 + |data| < 0x1_0000_0000
      requires Shape() && start <= |data| && offset + |data| == |all| && all[offset..] == data
      requires (offset + start) % 64 == 0 && StateOf(state[..]) == Iterate(f, all, (offset + start) / 64)
      modifies state
      ensures start <= i <= |data| < i + 64 && (offset + i) % 64 == 0
      ensures StateOf(state[..]) == Iterate(f, all, (offset + i) / 64)
    {
      i := start;
      NoWrap(offset, i, |data|);
      while Add32(i, 63) < |data|
        invariant start <= i <= |data| && (offset + i) % 64 == 0
        invariant StateOf(state[..]) == Iterate(f, all, (offset + i) / 64)
        invariant Add32(i, 63) == i + 63
        decreases |data| - i
      {
        BlockOf(all, data, offset, i);
        Transform(state, data[i..i + 64]);
        i := i + 64;
        NoWrap(offset, i, |data|);
      }
    }

    /** Complete the buffered block and hash it. */
    method FillBlock(j: nat, data: seq<Octet>, ghost m: seq<Octet>)
      requires Shape() && j == |m| % 64 && j + |data| > 63
      requires buffer[..j] == m[|m| - j..] && StateOf(state[..]) == Iterate(f, m, |m| / 64)
      modifies state, buffer
      ensures StateOf(state[..]) == Iterate(f, m + data, (|m| - j + 64) / 64)
    {
      ghost var all, at := m + data, |m| - j;
      CopyIn(j, data[..64 - j]);
      OneBlock(buffer[..], m, data, j);
      HashPrefix(f, m, all, |m| / 64);
      Transform(state, buffer[..]);
      NextBlock(f, all, at);
    }

    /** The branch taken when at least one block completes: j becomes 0, i bytes are consumed. */
    method WholeBlocks(j: nat, data: seq<Octet>, ghost m: seq<Octet>) returns (i: nat)
      requires Shape() && j == |m| % 64 && 63 < j + |data| < 0x1_0000_0000
      requires buffer[..j] == m[|m| - j..] && StateOf(state[..]) == Iterate(f, m, |m| / 64)
      modifies state, buffer
      ensures i <= |data| && |m + data| % 64 == |data| - i
      ensures StateOf(state[..]) == Iterate(f, m + data, |m + data| / 64)
    {
      FillBlock(j, data, m);
      i := HashBlocks(data, 64 - j, m + data, |m|);
      TailAfter(|m|, |data|, i);
    }

    /** SHA1Update. The sums j + len and i + 63 are 32-bit. The first one must not wrap: then, and only
        then, the last memcpy stays inside the buffer (LastCopyFitsIff). */
    method Update(data: seq<Octet>, ghost m: seq<Octet>)
      requires Holds(m) && |m| % 64 + |data| < 0x1_0000_0000
      modifies this, state, buffer
      ensures Holds(m + data)
    {
      Tail(|m|);
      var j := count0 / 8 % 64;
      AddToCount(|data|, |m|);
      assert |m| + |data| == |m + data|;
      Absorb(j, data, m);
    }

    /** The blocks and the buffer, with j bytes buffered. */
    method Absorb(j: nat, data: seq<Octet>, ghost m: seq<Octet>)
      requires Shape() && j == |m| % 64 && j + |data| < 0x1_0000_0000
      requires buffer[..j] == m[|m| - j..] && StateOf(state[..]) == Iterate(f, m, |m| / 64)
      modifies state, buffer
      ensures StateOf(state[..]) == Iterate(f, m + data, |m + data| / 64)
      ensures buffer[..|m + data| % 64] == (m + data)[|m + data| - |m + data| % 64..]
    {
      var at, i := j, 0;
      if Add32(j, |data|) > 63 {
        i := WholeBlocks(j, data, m);
        at := 0;
      } else {
        TailShort(|m|, |data|);
        HashPrefix(f, m, m + data, |m| / 64);
      }
      CopyTail(at, i, data, m);
    }

    /** The final memcpy: what is left of data joins the buffered tail. */
    method CopyTail(j: nat, i: nat, data: seq<Octet>, ghost m: seq<Octet>)
      requires Shape() && i <= |data| && j + (|data| - i) == |m + data| % 64
      requires j == 0 || (i == 0 && j <= |m| && j < 64 && buffer[..j] == m[|m| - j..])
      modifies buffer
      ensures buffer[..|m + data| % 64] == (m + data)[|m + data| - |m + data| % 64..]
      ensures state[..] == old(state[..])
    {
      ghost var s := state[..];
      CopyIn(j, data[i..]);
      assert state[..] == s;
      TailBytes(m, data, j, i, buffer[..]);
    }

    method AppendZero(ghost m: seq<Octet>, ghost k: nat)
      requires Holds(Padded(m, k))
      modifies this, state, buffer
      ensures Holds(Padded(m, k + 1))
    {
      Update([0], Padded(m, k));
      assert Padded(m, k) + [0] == Padded(m, k + 1);
    }

    /** The loop test, read from the bit counter. */
    method More(ghost m: seq<Octet>, ghost k: nat) returns (more: bool)
      requires Holds(Padded(m, k))
      ensures more == ((|m| + 1 + k) % 64 != 56)
    {
      Tail(|m| + 1 + k);
      more := count0 / 8 % 64 != 56;
    }

    /** One round of the padding loop, up to the next test; z is how many rounds it takes. */
    method OneZero(ghost m: seq<Octet>, ghost k: nat, ghost z: nat) returns (more: bool)
      requires Holds(Padded(m, k)) && k < z < 64 && (|m| + 1 + z) % 64 == 56
      modifies this, state, buffer
      ensures Holds(Padded(m, k + 1)) && more == (k + 1 < z)
    {
      AppendZero(m, k);
      more := More(m, k + 1);
      ShortIff(|m| + 1, k + 1, z);
    }

    /** The padding loop: single zero bytes until byte 56 of a block. */
    method PadLoop(ghost m: seq<Octet>, ghost z: nat)
      requires Holds(Padded(m, 0)) && z < 64 && (|m| + 1 + z) % 64 == 56
      modifies this, state, buffer
      ensures Holds(Padded(m, z))
    {
      ghost var k := 0;
      var more := More(m, k);
      ShortIff(|m| + 1, k, z);
      while more
        invariant k <= z && Holds(Padded(m, k)) && more == (k < z)
        decreases z - k
      {
        more := OneZero(m, k, z);
        k := k + 1;
      }
    }

    method AppendPadding(ghost m: seq<Octet>)
      requires Holds(m)
      modifies this, state, buffer
      ensures Holds(Padded(m, PadZeros(|m|)))
    {
      Update([0x80], m);
      assert m + [0x80] == Padded(m, 0);
      PadLoop(m, PadZeros(|m|));
    }

    /** SHA1Final. */
    method Final(ghost m: seq<Octet>) returns (digest: seq<Octet>)
      requires Holds(m)
      modifies this, state, buffer
      ensures digest == DigestWith(f, m)
    {
      var finalcount := FinalCount(count0, count1);
      FinalCountIsLength(8 * |m|);
      AppendPadding(m);
      Update(finalcount, Padded(m, PadZeros(|m|)));
      assert Holds(Pad(m));
      digest := ReadDigest();
      Wipe();
    }

    /** The state words, most significant byte first. */
    method ReadDigest() returns (digest: seq<Octet>)
      requires Shape()
      ensures digest == DigestOf(StateOf(state[..]))
    {
      digest := [];
      for i := 0 to 20
        invariant |digest| == i
        invariant forall k | 0 <= k < i :: digest[k] == ByteOf(WordOf(StateOf(state[..]), k / 4), k % 4)
      {
        digest := digest + [ByteOf(state[i / 4], i % 4)];
      }
    }

    method Wipe()
      requires Shape()
      modifies this, state, buffer
      ensures count0 == 0 && count1 == 0
      ensures forall i | 0 <= i < 5 :: state[i] == 0
      ensures forall i | 0 <= i < 64 :: buffer[i] == 0
    {
      count0, count1 := 0, 0;
      forall i | 0 <= i < 5 { state[i] := 0; }
      forall i | 0 <= i < 64 { buffer[i] := 0; }
    }
  }


  /** The bytes of data from i on are the next block of the whole. */
  lemma BlockOf(all: seq<Octet>, data: seq<Octet>, offset: nat, i: nat)
    requires offset + |data| == |all| && all[offset..] == data && i + 64 <= |data| && (offset + i) % 64 == 0
    ensures var n := (offset + i) / 64;
      64 * (n + 1) <= |all| && data[i..i + 64] == all[64 * n..64 * (n + 1)] && (offset + (i + 64)) / 64 == n + 1
  {
    assert data[i..i + 64] == all[offset + i..offset + i + 64];
  }

  /** The test fails exactly when the z-th zero byte is there. */
  lemma ShortIff(n: nat, k: nat, z: nat)
    requires k <= z < 64 && (n + z) % 64 == 56
    ensures (n + k) % 64 != 56 <==> k < z
  {
  }

  /** The body of SHA1: one byte at a time. */
  method HashBytesWith(str: seq<Octet>, ghost f: Compression) returns (digest: seq<Octet>)
    requires Computes(f)
    ensures digest == DigestWith(f, str)
  {
    var context := new Context(f);
    for i := 0 to |str|
      invariant context.f == f && context.Holds(str[..i])
      invariant fresh(context) && fresh(context.state) && fresh(context.buffer)
    {
      context.Update([str[i]], str[..i]);
      assert str[..i] + [str[i]] == str[..i + 1];
    }
    assert str[..|str|] == str;
    digest := context.Final(str);
  }

  /** SHA1 computes the FIPS 180-4 digest. */
  method HashBytes(str: seq<Octet>) returns (digest: seq<Octet>)
    ensures digest == Sha1(str)
  {
    digest := HashBytesWith(str, CompressBlock);
  }

  function Joined(pieces: seq<seq<Octet>>, n: nat): seq<Octet>
    requires n <= |pieces|
  {
    if n == 0 then [] else Joined(pieces, n - 1) + pieces[n - 1]
  }

  /** The buffered bytes and the k-th piece together are fewer than 2^32: every piece of fewer than
      2^32 - 63 bytes, and longer ones when fewer bytes are buffered. */
  ghost predicate Fits(pieces: seq<seq<Octet>>, k: nat)
    requires k < |pieces|
  {
    |Joined(pieces, k)| % 64 + |pieces[k]| < 0x1_0000_0000
  }

  method HashPiecesWith(pieces: seq<seq<Octet>>, ghost f: Compression) returns (digest: seq<Octet>)
    requires Computes(f)
    requires forall k | 0 <= k < |pieces| :: Fits(pieces, k)
    ensures digest == DigestWith(f, Joined(pieces, |pieces|))
  {
    var context := new Context(f);
    for n := 0 to |pieces|
      invariant context.f == f && context.Holds(Joined(pieces, n))
      invariant fresh(context) && fresh(context.state) && fresh(context.buffer)
    {
      assert Fits(pieces, n);
      context.Update(pieces[n], Joined(pieces, n));
    }
    digest := context.Final(Joined(pieces, |pieces|));
  }

  /** Any split of a message into SHA1Update calls that the code can take (LastCopyFitsIff), followed by
      SHA1Final, gives its FIPS 180-4 digest. */
  method HashPieces(pieces: seq<seq<Octet>>) returns (digest: seq<Octet>)
    requires forall k | 0 <= k < |pieces| :: Fits(pieces, k)
    ensures digest == Sha1(Joined(pieces, |pieces|))
  {
    digest := HashPiecesWith(pieces, CompressBlock);
  }

  /** Where the last memcpy of SHA1Update ends in the 64-byte buffer, with j bytes buffered and len new
      ones: what is left after the whole blocks, or, when the test finds no block, j + len. */
  function LastCopyEnd(j: nat, len: nat): nat {
    if Add32(j, len) > 63 then (j + len) % 64 else j + len
  }

  /** With any number of bytes buffered and any uint32_t length, the last memcpy of SHA1Update stays
      inside the buffer if and only if the sum of the two does not wrap. When it wraps, the test takes
      a piece of about four gigabytes for one that fits. */
  lemma LastCopyFitsIff(j: nat, len: nat)
    requires j < 64 && len < 0x1_0000_0000
    ensures LastCopyEnd(j, len) <= 64 <==> j + len < 0x1_0000_0000
    ensures j + len >= 0x1_0000_0000 ==> Add32(j, len) <= 63 && LastCopyEnd(j, len) >= 0x1_0000_0000
  {
    DivMod(j + len, 0x1_0000_0000, (if j + len < 0x1_0000_0000 then 0 else 1),
           if j + len < 0x1_0000_0000 then j + len else j + len - 0x1_0000_0000);
  }

  /** The loop test of SHA1Update does not wrap either. */
  lemma NoWrap(offset: nat, i: nat, len: nat)
    requires offset % 64 + len < 0x1_0000_0000 && i <= len && (offset + i) % 64 == 0
    ensures Add32(i, 63) == i + 63
  {
    var j := offset % 64;
    assert (j + i) % 64 == 0 by { DivMod(j + i, 64, (offset + i) / 64 - offset / 64, 0); }
    assert j + i <= 0x1_0000_0000 - 64;
    DivMod(i + 63, 0x1_0000_0000, 0, i + 63);
  }

  /** The last j bytes of m and the first of data make one block. */
  lemma OneBlock(block: seq<Octet>, m: seq<Octet>, data: seq<Octet>, j: nat)
    requires j <= |m| && j < 64 && 64 - j <= |data| && |block| == 64
    requires block[..j] == m[|m| - j..] && block[j..j + (64 - j)] == data[..64 - j]
    ensures block == (m + data)[|m| - j..|m| - j + 64]
  {
    assert block == block[..j] + block[j..];
  }

  lemma TailBytes(m: seq<Octet>, data: seq<Octet>, j: nat, i: nat, buf: seq<Octet>)
    requires i <= |data| && j + |data| - i <= |buf| && buf[j..j + |data| - i] == data[i..]
    requires j + (|data| - i) == |m + data| % 64
    requires j == 0 || (i == 0 && j <= |m| && buf[..j] == m[|m| - j..])
    ensures buf[..|m + data| % 64] == (m + data)[|m + data| - |m + data| % 64..]
  {
    var all := m + data;
    assert buf[..j + |data| - i] == buf[..j] + buf[j..j + |data| - i];
  }

  lemma Tail(n: nat)
    ensures 8 * n % 0x1_0000_0000 / 8 % 64 == n % 64
  {
    var q, r := n / 0x2000_0000, n % 0x2000_0000;
    DivMod(8 * n, 0x1_0000_0000, q, 8 * r);
    DivMod(8 * r, 8, r, 0);
    DivMod(n, 64, q * 0x80_0000 + r / 64, r % 64);
  }

  lemma TailShort(n: nat, len: nat)
    requires n % 64 + len <= 63
    ensures (n + len) / 64 == n / 64 && (n + len) % 64 == n % 64 + len
  {
  }

  lemma TailAfter(n: nat, len: nat, i: nat)
    requires i <= len < i + 64 && (n + i) % 64 == 0
    ensures (n + len) / 64 == (n + i) / 64 && (n + len) % 64 == len - i
  {
  }

  lemma NextBlock(f: Compression, m: seq<Octet>, at: nat)
    requires at % 64 == 0 && at + 64 <= |m|
    ensures Iterate(f, m, (at + 64) / 64) == f(Iterate(f, m, at / 64), m[at..at + 64])
  {
    assert (at + 64) / 64 == at / 64 + 1 && 64 * (at / 64) == at;
  }
}
