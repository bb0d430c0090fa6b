/** The identity file (identity.cpp). */
module IdentityFile {
  import opened Prelude
  import opened Text
  import opened IpText
  import Hex
  import V4 = Ip4Text

  datatype Identity = Identity(pubkey: seq<byte>, privkey: seq<byte>, deviceId: Ip)

  function Zeros(n: nat): seq<byte> { seq(n, _ => 0) }

  // ---- formatted extraction from a stream ----

  function SkipSpace(s: string, i: nat): (j: nat)
    requires i <= |s|
    ensures i <= j <= |s|
    decreases |s| - i
  {
    if i < |s| && V4.IsSpace(s[i]) then SkipSpace(s, i + 1) else i
  }

  function WordEnd(s: string, i: nat): (j: nat)
    requires i <= |s|
    ensures i <= j <= |s|
    decreases |s| - i
  {
    if i < |s| && !V4.IsSpace(s[i]) then WordEnd(s, i + 1) else i
  }

  /** operator>> on a string: the next word, "" at the end. */
  function NextWord(s: string, i: nat): (r: (string, nat))
    requires i <= |s|
    ensures r.1 <= |s|
  {
    var a := SkipSpace(s, i);
    var b := WordEnd(s, a);
    (s[a..b], b)
  }

  // ---- the file ----

  function Serialize(i: Identity, idOf: seq<byte> -> Ip): string {
    ToText(idOf(i.pubkey)) + " " + Hex.Encode(i.pubkey) + " " + Hex.Encode(i.privkey) + "\n"
  }

  /** None: a key is too short for its field and the assertion in fstring stops the program. */
  function Deserialize(data: string): Option<Identity> {
    if data == "" then Some(Identity(Zeros(32), Zeros(64), UNSET_IP))
    else
      var (ip, i) := NextWord(data, 0);
      var (pub, j) := NextWord(data, i);
      var (priv, _) := NextWord(data, j);
      var pubkey, privkey := Hex.Decode(pub), Hex.Decode(priv);
      if |pubkey| < 32 || |privkey| < 64 then None
      else Some(Identity(pubkey[..32], privkey[..64], Parse(ip)))
  }

  predicate IsWord(w: string) { w != "" && forall k | 0 <= k < |w| :: !V4.IsSpace(w[k]) }

  lemma {:induction false} WordEnds(s: string, i: nat, j: nat)
    requires i <= j < |s| && V4.IsSpace(s[j]) && forall k | i <= k < j :: !V4.IsSpace(s[k])
    ensures WordEnd(s, i) == j
    decreases j - i
  {
    if i < j { WordEnds(s, i + 1, j); }
  }

  /** A word at most one blank further on, with a blank behind it. */
  lemma WordRead(s: string, i: nat, w: string, b: nat)
    requires b <= 1 && (b == 1 ==> i < |s| && V4.IsSpace(s[i]))
    requires IsWord(w) && OccursAt(s, w, i + b) && i + b + |w| < |s| && V4.IsSpace(s[i + b + |w|])
    ensures NextWord(s, i) == (w, i + b + |w|)
  {
    var a := i + b;
    forall k | a <= k < a + |w| ensures !V4.IsSpace(s[k]) { assert s[k] == s[a..a + |w|][k - a]; }
    assert SkipSpace(s, a) == a;
    WordEnds(s, a, a + |w|);
  }

  /** w is a word of s at position a, with a blank behind it. */
  ghost predicate WordAt(s: string, w: string, a: nat) {
    IsWord(w) && OccursAt(s, w, a) && a + |w| < |s| && V4.IsSpace(s[a + |w|])
  }

  lemma WordWithin(s: string, before: string, w: string, blank: char, after: string)
    requires s == before + w + [blank] + after && IsWord(w) && V4.IsSpace(blank)
    ensures WordAt(s, w, |before|) && s[|before| + |w|] == blank
  {
    assert s[|before|..|before| + |w|] == w;
  }

  /** The word at the start of the text. */
  lemma FirstWord(s: string, w: string, blank: char, after: string)
    requires s == w + [blank] + after && IsWord(w) && V4.IsSpace(blank)
    ensures NextWord(s, 0) == (w, |w|)
  {
    WordWithin(s, "", w, blank, after);
    WordRead(s, 0, w, 0);
  }

  /** A word with blanks on both sides. */
  lemma LaterWord(s: string, before: string, w: string, blank: char, after: string)
    requires s == before + " " + w + [blank] + after && IsWord(w) && V4.IsSpace(blank)
    ensures NextWord(s, |before|) == (w, |before| + 1 + |w|)
  {
    WordWithin(s, before + " ", w, blank, after);
    assert s[|before|] == ' ';
    WordRead(s, |before|, w, 1);
  }

  /** The three words of a file, and where they end. */
  lemma FirstOfThree(s: string, x: string, y: string, z: string)
    requires IsWord(x) && s == x + " " + y + " " + z + "\n"
    ensures NextWord(s, 0) == (x, |x|)
  {
    assert s == x + [' '] + (y + " " + z + "\n");
    FirstWord(s, x, ' ', y + " " + z + "\n");
  }

  lemma SecondOfThree(s: string, x: string, y: string, z: string)
    requires IsWord(y) && s == x + " " + y + " " + z + "\n"
    ensures NextWord(s, |x|) == (y, |x| + 1 + |y|)
  {
    assert s == x + " " + y + [' '] + (z + "\n");
    LaterWord(s, x, y, ' ', z + "\n");
  }

  lemma ThirdOfThree(s: string, x: string, y: string, z: string)
    requires IsWord(z) && s == x + " " + y + " " + z + "\n"
    ensures NextWord(s, |x| + 1 + |y|).0 == z
  {
    assert s == (x + " " + y) + " " + z + ['\n'] + "";
    LaterWord(s, x + " " + y, z, '\n', "");
  }

  lemma LettersAreWords(b: seq<byte>)
    requires b != []
    ensures IsWord(Hex.Encode(b))
  {
    Hex.EncodedLetters(b);
  }

  lemma {:induction false} DottedIsWord(ps: seq<nat>)
    requires ps != []
    ensures IsWord(V4.Dotted(ps))
  {
    if |ps| > 1 { DottedIsWord(ps[1..]); }
  }

  lemma AddressIsWord(a: Ip)
    ensures IsWord(ToText(a))
  {
    TextStart(a);
    if IsMappedV4(a) {
      DottedIsWord([a[12], a[13], a[14], a[15]]);
    } else {
      var gs := GroupTexts(a);
      forall k | 0 <= k < 8 ensures Ip6Forms.Group(gs[k]) { GroupTextValue(a[2 * k], a[2 * k + 1]); }
      JoinChars(gs);
    }
  }

  /** deserialize undoes serialize on every identity whose id comes from its public key, whatever
      the derivation. */
  lemma RoundTrip(x: Identity, idOf: seq<byte> -> Ip)
    requires |x.pubkey| == 32 && |x.privkey| == 64 && x.deviceId == idOf(x.pubkey)
    ensures Deserialize(Serialize(x, idOf)) == Some(x)
  {
    var s := Serialize(x, idOf);
    AddressIsWord(x.deviceId);
    LettersAreWords(x.pubkey);
    LettersAreWords(x.privkey);
    FirstOfThree(s, ToText(x.deviceId), Hex.Encode(x.pubkey), Hex.Encode(x.privkey));
    SecondOfThree(s, ToText(x.deviceId), Hex.Encode(x.pubkey), Hex.Encode(x.privkey));
    ThirdOfThree(s, ToText(x.deviceId), Hex.Encode(x.pubkey), Hex.Encode(x.privkey));
    Hex.RoundTrip(x.pubkey);
    Hex.RoundTrip(x.privkey);
    TextRoundTrip(x.deviceId);
    assert x.pubkey[..32] == x.pubkey && x.privkey[..64] == x.privkey;
  }

  /** A file of three words is read unless a key is too short; longer keys lose their ends. */
  lemma ReadIff(s: string, x: string, y: string, z: string)
    requires IsWord(x) && IsWord(y) && IsWord(z) && s == x + " " + y + " " + z + "\n"
    ensures var pub, priv := Hex.Decode(y), Hex.Decode(z); var r := Deserialize(s);
      && (r.Some? <==> |pub| >= 32 && |priv| >= 64)
      && (r.Some? ==> r.value == Identity(pub[..32], priv[..64], Parse(x)))
  {
    FirstOfThree(s, x, y, z);
    SecondOfThree(s, x, y, z);
    ThirdOfThree(s, x, y, z);
    ThreeRead(s, x, y, z, |x|, |x| + 1 + |y|);
  }

  lemma ThreeRead(s: string, x: string, y: string, z: string, i: nat, j: nat)
    requires s != "" && i <= |s| && j <= |s|
    requires NextWord(s, 0) == (x, i) && NextWord(s, i) == (y, j) && NextWord(s, j).0 == z
    ensures var pub, priv := Hex.Decode(y), Hex.Decode(z);
      Deserialize(s) == if |pub| < 32 || |priv| < 64 then None else Some(Identity(pub[..32], priv[..64], Parse(x)))
  {
  }

  /** An empty file is the blank identity. */
  lemma EmptyFile()
    ensures Deserialize("") == Some(Identity(seq(32, _ => 0), seq(64, _ => 0), UNSET_IP))
  {
  }
}
