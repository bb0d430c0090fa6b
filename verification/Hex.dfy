/** Hex text (util.cpp). */
module Hex {
  import opened Prelude
  import opened Text
  import opened IpText

  /** A position in the letters "0123456789abcdef", or 16. */
  function LetterIndex(c: char): (d: nat)
    ensures d <= 16
    ensures d < 16 ==> HexChar(d) == c
  {
    if IsDigit(c) then DigitValue(c) else if 'a' <= c <= 'f' then c as int - 'a' as int + 10 else 16
  }

  function Encode(b: seq<byte>): (s: string)
    ensures |s| == 2 * |b|
  {
    if b == [] then "" else Encode(b[..|b| - 1]) + [HexChar(b[|b| - 1] / 16), HexChar(b[|b| - 1] % 16)]
  }

  predicate Decodable(s: string) { |s| % 2 == 0 && forall k | 0 <= k < |s| :: LetterIndex(s[k]) < 16 }

  /** The bytes of the first n pairs of letters. */
  function Pairs(s: string, n: nat): (b: seq<byte>)
    requires 2 * n <= |s| && forall k | 0 <= k < 2 * n :: LetterIndex(s[k]) < 16
    ensures |b| == n
  {
    if n == 0 then []
    else Pairs(s, n - 1) + [LetterIndex(s[2 * n - 2]) * 16 + LetterIndex(s[2 * n - 1])]
  }

  /** Nothing at all is decoded from a text of odd length or with any other character in it. */
  function Decode(s: string): seq<byte> { if Decodable(s) then Pairs(s, |s| / 2) else [] }

  lemma EncodedByte(x: byte)
    ensures LetterIndex(HexChar(x / 16)) == x / 16 && LetterIndex(HexChar(x % 16)) == x % 16
  {
  }

  lemma {:induction false} EncodedPairs(b: seq<byte>, n: nat)
    requires n <= |b|
    ensures forall k | 0 <= k < 2 * n :: LetterIndex(Encode(b)[k]) < 16 && Encode(b)[k] == Encode(b[..n])[k]
    ensures Pairs(Encode(b), n) == b[..n]
    decreases |b|, n
  {
    if n > 0 {
      if n == |b| {
        assert b[..n] == b;
        EncodedByte(b[n - 1]);
        EncodedLetters(b);
        EncodedPairs(b, n - 1);
        EncodedLast(b);
      } else {
        var c := b[..|b| - 1];
        EncodedPairs(c, n);
        assert c[..n] == b[..n];
        EncodedLetters(b);
        SamePairs(Encode(b), Encode(c), n);
      }
    }
  }

  lemma EncodedLast(b: seq<byte>)
    requires b != []
    ensures var n := |b|;
      LetterIndex(Encode(b)[2 * n - 2]) == b[n - 1] / 16 && LetterIndex(Encode(b)[2 * n - 1]) == b[n - 1] % 16
  {
    EncodedByte(b[|b| - 1]);
  }

  lemma {:induction false} EncodedLetters(b: seq<byte>)
    ensures forall k | 0 <= k < 2 * |b| :: LetterIndex(Encode(b)[k]) < 16
  {
    if b != [] {
      EncodedLetters(b[..|b| - 1]);
      EncodedByte(b[|b| - 1]);
    }
  }

  lemma {:induction false} SamePairs(s: string, t: string, n: nat)
    requires 2 * n <= |s| && 2 * n <= |t|
    requires forall k | 0 <= k < 2 * n :: s[k] == t[k] && LetterIndex(s[k]) < 16
    ensures Pairs(s, n) == Pairs(t, n)
  {
    if n > 0 { SamePairs(s, t, n - 1); }
  }

  /** decodeHex undoes encodeHex. */
  lemma RoundTrip(b: seq<byte>)
    ensures Decode(Encode(b)) == b
  {
    EncodedLetters(b);
    EncodedPairs(b, |b|);
    assert b[..|b|] == b;
  }

  lemma {:induction false} PairsEncode(s: string, n: nat)
    requires 2 * n <= |s| && forall k | 0 <= k < 2 * n :: LetterIndex(s[k]) < 16
    ensures Encode(Pairs(s, n)) == s[..2 * n]
  {
    if n > 0 {
      var m := n - 1;
      PairsEncode(s, m);
      NextPair(s, m, Pairs(s, m));
      PairsNext(s, m);
    }
  }

  lemma PairsNext(s: string, n: nat)
    requires 2 * n + 2 <= |s| && forall k | 0 <= k < 2 * n + 2 :: LetterIndex(s[k]) < 16
    ensures Pairs(s, n + 1) == Pairs(s, n) + [LetterIndex(s[2 * n]) * 16 + LetterIndex(s[2 * n + 1])]
  {
  }

  lemma NextPair(s: string, n: nat, b: seq<byte>)
    requires 2 * n + 2 <= |s| && LetterIndex(s[2 * n]) < 16 && LetterIndex(s[2 * n + 1]) < 16
    requires Encode(b) == s[..2 * n]
    ensures Encode(b + [LetterIndex(s[2 * n]) * 16 + LetterIndex(s[2 * n + 1])]) == s[..2 * n + 2]
  {
    var x, y := s[2 * n], s[2 * n + 1];
    PairByte(x, y);
    EncodeLast(b, LetterIndex(x) * 16 + LetterIndex(y));
    TwoMore(s, 2 * n);
  }

  lemma EncodeLast(b: seq<byte>, x: byte)
    ensures Encode(b + [x]) == Encode(b) + [HexChar(x / 16), HexChar(x % 16)]
  {
    assert (b + [x])[..|b|] == b;
  }

  lemma PairByte(x: char, y: char)
    requires LetterIndex(x) < 16 && LetterIndex(y) < 16
    ensures var d := LetterIndex(x) * 16 + LetterIndex(y); HexChar(d / 16) == x && HexChar(d % 16) == y
  {
  }

  lemma TwoMore(s: string, i: nat)
    requires i + 2 <= |s|
    ensures s[..i + 2] == s[..i] + [s[i], s[i + 1]]
  {
  }

  /** encodeHex undoes decodeHex exactly on lower-case text of even length. */
  lemma ReverseRoundTripIff(s: string)
    ensures Encode(Decode(s)) == s <==> Decodable(s)
  {
    if Decodable(s) {
      PairsEncode(s, |s| / 2);
      assert s[..|s|] == s;
    } else {
      assert |s| > 0;
    }
  }

  method EncodeHex(b: seq<byte>) returns (ret: string)
    ensures ret == Encode(b) && Decode(ret) == b
  {
    ret := "";
    for i := 0 to |b|
      invariant ret == Encode(b[..i])
    {
      ret := ret + [HexChar(b[i] / 16)];
      ret := ret + [HexChar(b[i] % 16)];
      assert b[..i + 1][..i] == b[..i];
    }
    assert b[..|b|] == b;
    RoundTrip(b);
  }

  method DecodeHex(s: string) returns (ret: seq<byte>)
    ensures ret == Decode(s)
  {
    if |s| % 2 != 0 {
      return [];
    }
    ret := [];
    var i := 0;
    while i + 1 < |s|
      invariant 0 <= i <= |s| && i % 2 == 0
      invariant forall k | 0 <= k < i :: LetterIndex(s[k]) < 16
      invariant ret == Pairs(s, i / 2)
    {
      var a, b := LetterIndex(s[i]), LetterIndex(s[i + 1]);
      if a == 16 || b == 16 {
        return [];
      }
      ret := ret + [a * 16 + b];
      i := i + 2;
    }
  }

  /** Only lower-case hex digits in pairs are decoded. */
  lemma UndecodableIsNothing(s: string)
    ensures Decode(s) != [] ==> |s| % 2 == 0 && forall k | 0 <= k < |s| :: '0' <= s[k] <= '9' || 'a' <= s[k] <= 'f'
    ensures |s| % 2 == 0 && (forall k | 0 <= k < |s| :: '0' <= s[k] <= '9' || 'a' <= s[k] <= 'f') ==>
      |Decode(s)| == |s| / 2
  {
    if Decodable(s) {
      forall k | 0 <= k < |s| ensures '0' <= s[k] <= '9' || 'a' <= s[k] <= 'f' { assert LetterIndex(s[k]) < 16; }
    }
  }
}
