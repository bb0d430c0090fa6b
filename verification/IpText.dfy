/** IpAddress and InetAddress as text, and back. */
module IpText {
  import opened Prelude
  import opened Arith
  import opened Text
  import opened Ip6Text
  import opened Ip6Forms
  import V4 = Ip4Text

  predicate IsMappedV4(a: Ip) { a[..12] == [0, 0, 0, 0, 0, 0, 0, 0, 0, 0, 0xff, 0xff] }

  function WordBytes(w: nat): seq<byte> {
    [w / 0x100_0000 % 256, w / 0x1_0000 % 256, w / 0x100 % 256, w % 256]
  }

  function Parse(s: string): Ip {
    var v4 := V4.Aton(s);
    if v4.Some? then [0, 0, 0, 0, 0, 0, 0, 0, 0, 0, 0xff, 0xff] + WordBytes(v4.value)
    else
      var v6 := Aton(s);
      if v6.Some? && |v6.value| == 4
      then WordBytes(v6.value[0]) + WordBytes(v6.value[1]) + WordBytes(v6.value[2]) + WordBytes(v6.value[3])
      else UNSET_IP
  }

  function HexChar(d: nat): (c: char)
    requires d < 16
    ensures IsHex(c) && HexDigit(c) == d
  {
    if d < 10 then DigitChar(d) else (d - 10 + 'a' as int) as char
  }

  /** Two bytes as "%02x%02x". */
  function GroupText(hi: byte, lo: byte): string {
    [HexChar(hi / 16), HexChar(hi % 16), HexChar(lo / 16), HexChar(lo % 16)]
  }

  function GroupTexts(a: Ip): (gs: seq<string>)
    ensures |gs| == 8 && forall k | 0 <= k < 8 :: gs[k] == GroupText(a[2 * k], a[2 * k + 1])
  {
    seq(8, k requires 0 <= k < 8 => GroupText(a[2 * k], a[2 * k + 1]))
  }

  function ToText(a: Ip): string {
    if IsMappedV4(a) then V4.Dotted([a[12], a[13], a[14], a[15]]) else Join(GroupTexts(a))
  }

  // ---- round trips ----

  function Word(a: Ip, k: nat): nat
    requires k < 8
  {
    (a[2 * k] as int) * 256 + a[2 * k + 1]
  }

  function AllWords(a: Ip): (ws: seq<nat>)
    ensures |ws| == 8 && forall k | 0 <= k < 8 :: ws[k] == Word(a, k)
  {
    seq(8, k requires 0 <= k < 8 => Word(a, k))
  }

  lemma BytesOfWord(a: byte, b: byte, c: byte, d: byte)
    ensures WordBytes((a * 256 + b) * 0x1_0000 + (c * 256 + d)) == [a, b, c, d]
  {
    var w := (a * 256 + b) * 0x1_0000 + (c * 256 + d);
    DivMod(w, 0x100_0000, a, b * 0x1_0000 + c * 256 + d);
    DivMod(w, 0x1_0000, a * 256 + b, c * 256 + d);
    DivMod(w, 0x100, (a * 256 + b) * 256 + c, d);
    DivMod(a * 256 + b, 256, a, b);
    DivMod((a * 256 + b) * 256 + c, 256, a * 256 + b, c);
  }

  lemma WordsRoundTrip(a: Ip)
    ensures var w := Words(AllWords(a));
      WordBytes(w[0]) + WordBytes(w[1]) + WordBytes(w[2]) + WordBytes(w[3]) == a
  {
    Quarter(a, 0);
    Quarter(a, 1);
    Quarter(a, 2);
    Quarter(a, 3);
    assert a == a[0..4] + a[4..8] + a[8..12] + a[12..16];
  }

  /** The k-th 32-bit word is made of the bytes 4 * k to 4 * k + 3. */
  lemma QuarterWord(a: Ip, k: nat)
    requires k < 4
    ensures Words(AllWords(a))[k] == Word(a, 2 * k) * 0x1_0000 + Word(a, 2 * k + 1)
  {
    var ws := AllWords(a);
    assert Words(ws)[k] == ws[2 * k] * 0x1_0000 + ws[2 * k + 1];
  }

  lemma FourBytes(a: Ip, k: nat)
    requires k < 4
    ensures WordBytes(Word(a, 2 * k) * 0x1_0000 + Word(a, 2 * k + 1)) == a[4 * k..4 * k + 4]
  {
    var i := 4 * k;
    BytesOfWord(a[i], a[i + 1], a[i + 2], a[i + 3]);
    assert a[i..i + 4] == [a[i], a[i + 1], a[i + 2], a[i + 3]];
  }

  lemma Quarter(a: Ip, k: nat)
    requires k < 4
    ensures WordBytes(Words(AllWords(a))[k]) == a[4 * k..4 * k + 4]
  {
    QuarterWord(a, k);
    FourBytes(a, k);
  }

  lemma GroupTextValue(hi: byte, lo: byte)
    ensures var g := GroupText(hi, lo); Group(g) && g != "" && HexValue(g) == hi * 256 + lo
  {
    var g := GroupText(hi, lo);
    assert g[..3][..2] == g[..2] && g[..2][..1] == g[..1] && g[..1][..0] == "";
    assert HexValue(g[..1]) == hi / 16;
    assert HexValue(g[..2]) == hi;
    assert HexValue(g[..3]) == hi * 16 + lo / 16;
  }

  /** A text of hex digits and colons with "::" at two places gives the unset address. */
  lemma TwoGapsRejected(s: string, p: nat, q: nat)
    requires HexAndColons(s) && p < q && OccursAt(s, "::", p) && OccursAt(s, "::", q)
    ensures Parse(s) == UNSET_IP
  {
    assert s[p] == s[p..p + 2][0] && s[p + 1] == s[p..p + 2][1];
    assert s[q] == s[q..q + 2][0] && s[q + 1] == s[q..q + 2][1];
    DoublesFrom(s, 0, p);
    DoublesFrom(s, p + 1, q);
    AcceptedIff(s);
    V4.ColonTextRejected(s, p);
  }

  /** Any text that the IPv6 parser maps to these words is the address. */
  lemma ParsedWords(s: string, a: Ip)
    requires V4.Aton(s) == None && Aton(s) == Some(Words(AllWords(a)))
    ensures Parse(s) == a
  {
    WordsRoundTrip(a);
  }

  lemma {:induction false} JoinChars(gs: seq<string>)
    requires forall k | 0 <= k < |gs| :: Group(gs[k])
    ensures forall k | 0 <= k < |Join(gs)| :: IsHex(Join(gs)[k]) || Join(gs)[k] == ':'
  {
    if |gs| > 1 { JoinChars(gs[1..]); }
  }

  /** A spelling of the address: eight groups of one to four hex digits. */
  ghost predicate Spells(gs: seq<string>, a: Ip) {
    && |gs| == 8
    && forall k | 0 <= k < 8 :: Group(gs[k]) && gs[k] != "" && HexValue(gs[k]) == Word(a, k)
  }

  /** For every address, every spelling of it in full parses to it. */
  lemma FullTextParses(a: Ip, gs: seq<string>)
    requires Spells(gs, a)
    ensures Parse(Join(gs)) == a
  {
    var s := Join(gs);
    FullFormParses(gs, AllWords(a));
    JoinChars(gs);
    assert Join(gs) == gs[0] + ":" + Join(gs[1..]);
    assert s[|gs[0]|] == ':';
    V4.ColonTextRejected(s, |gs[0]|);
    ParsedWords(s, a);
  }

  /** For every address, every spelling and every run of 1 to 8 zero groups, the text with "::" in
      place of the run parses to the address. */
  lemma ShortTextParses(a: Ip, gs: seq<string>, at: nat, n: nat)
    requires Spells(gs, a) && 1 <= n && at + n <= 8
    requires forall k | at <= k < at + n :: Word(a, k) == 0
    ensures Parse(Shorten(gs, at, n)) == a
  {
    var s := Shorten(gs, at, n);
    EveryShorteningParses(gs, AllWords(a), at, n);
    JoinChars(gs[..at]);
    JoinChars(gs[at + n..]);
    V4.ColonTextRejected(s, |Join(gs[..at])|);
    ParsedWords(s, a);
  }

  lemma Mapped(a: Ip)
    requires IsMappedV4(a)
    ensures a == [0, 0, 0, 0, 0, 0, 0, 0, 0, 0, 0xff, 0xff] + [a[12], a[13], a[14], a[15]]
  {
    assert a == a[..12] + a[12..];
  }

  lemma MappedRoundTrip(a: Ip)
    requires IsMappedV4(a)
    ensures Parse(V4.Dotted([a[12], a[13], a[14], a[15]])) == a
  {
    var ps: seq<nat> := [a[12], a[13], a[14], a[15]];
    V4.QuadParses(ps);
    MappedParsed(V4.Dotted(ps), a);
  }

  lemma MappedParsed(s: string, a: Ip)
    requires IsMappedV4(a)
    requires V4.Aton(s)
          == Some((a[12] as int) * 0x100_0000 + (a[13] as int) * 0x1_0000 + (a[14] as int) * 0x100 + a[15])
    ensures Parse(s) == a
  {
    BytesOfWord(a[12], a[13], a[14], a[15]);
    Mapped(a);
  }

  /** parse undoes toString on every address, dotted quads of IPv4-mapped ones included. */
  lemma TextRoundTrip(a: Ip)
    ensures Parse(ToText(a)) == a
  {
    if IsMappedV4(a) {
      MappedRoundTrip(a);
    } else {
      var gs := GroupTexts(a);
      forall k | 0 <= k < 8 ensures Group(gs[k]) && gs[k] != "" && HexValue(gs[k]) == Word(a, k) {
        GroupTextValue(a[2 * k], a[2 * k + 1]);
      }
      FullTextParses(a, gs);
    }
  }

  // ---- address and port ----

  datatype Inet = Inet(ip: Ip, port: nat)

  function InetText(x: Inet): string {
    if IsMappedV4(x.ip) then ToText(x.ip) + ":" + ToDecimal(x.port)
    else "[" + ToText(x.ip) + "]:" + ToDecimal(x.port)
  }

  /** rfind of a character: its last position, or -1. */
  function LastIndex(s: string, c: char): (r: int)
    ensures -1 <= r < |s|
    ensures r >= 0 ==> s[r] == c
    ensures forall k | r < k < |s| :: s[k] != c
  {
    if s == [] then -1 else if s[|s| - 1] == c then |s| - 1 else LastIndex(s[..|s| - 1], c)
  }

  function LeadingDigits(s: string): (d: string)
    ensures AllDigits(d)
  {
    if s != [] && IsDigit(s[0]) then [s[0]] + LeadingDigits(s[1..]) else ""
  }

  /** atoi: blanks, a sign, digits. Overflow of int is not modelled. */
  function Atoi(s: string): int
    decreases |s|
  {
    if s != [] && V4.IsSpace(s[0]) then Atoi(s[1..])
    else if s != [] && s[0] == '-' then -(DecimalValue(LeadingDigits(s[1..])) as int)
    else if s != [] && s[0] == '+' then DecimalValue(LeadingDigits(s[1..]))
    else DecimalValue(LeadingDigits(s))
  }

  /** The address text and the port. */
  function InetSplit(s: string): Option<(string, nat)> {
    var pos := LastIndex(s, ':');
    if pos == -1 then None else Some((Bare(s[..pos]), Atoi(s[pos + 1..]) % 0x1_0000))
  }

  function InetParse(s: string): Inet {
    var r := InetSplit(s);
    if r.None? then Inet(UNSET_IP, 0) else Inet(Parse(r.value.0), r.value.1)
  }

  lemma {:induction false} AllLeading(s: string)
    requires AllDigits(s)
    ensures LeadingDigits(s) == s
  {
    if s != [] { AllLeading(s[1..]); }
  }

  lemma PortRoundTrip(n: nat)
    ensures Atoi(ToDecimal(n)) == n
  {
    AllLeading(ToDecimal(n));
    DecimalRoundTrip(n);
  }

  lemma ColonSplit(s: string, a: string, b: string)
    requires s == a + ":" + b && AllDigits(b)
    ensures |a| < |s| && s[|a|] == ':' && (forall k | |a| < k < |s| :: s[k] != ':')
    ensures s[..|a|] == a && s[|a| + 1..] == b
  {
    forall k | |a| < k < |s| ensures s[k] != ':' {
      assert s[k] == b[k - |a| - 1];
    }
  }

  lemma LastIndexIs(s: string, c: char, p: nat)
    requires p < |s| && s[p] == c && forall k | p < k < |s| :: s[k] != c
    ensures LastIndex(s, c) == p
  {
    assert forall k | LastIndex(s, c) < k < |s| :: s[k] != c;
  }

  /** The text before the last colon, without its brackets. */
  function Bare(ip: string): string {
    if |ip| > 2 && ip[0] == '[' && ip[|ip| - 1] == ']' then ip[1..|ip| - 1] else ip
  }

  lemma InetParsed(s: string, a: string, port: nat)
    requires s == a + ":" + ToDecimal(port) && port < 0x1_0000
    ensures InetSplit(s) == Some((Bare(a), port))
  {
    ColonSplit(s, a, ToDecimal(port));
    LastIndexIs(s, ':', |a|);
    PortRoundTrip(port);
  }

  lemma BracketsOff(t: string)
    requires t != ""
    ensures Bare("[" + t + "]") == t
  {
    var b := "[" + t + "]";
    assert b[1..|b| - 1] == t;
  }

  lemma WithPortParses(t: string, ip: Ip, port: nat)
    requires Parse(t) == ip && t != "" && port < 0x1_0000
    ensures InetParse("[" + t + "]:" + ToDecimal(port)) == Inet(ip, port)
  {
    var b := "[" + t + "]";
    var s := "[" + t + "]:" + ToDecimal(port);
    assert s == b + ":" + ToDecimal(port) by { Regrouped("[" + t, ToDecimal(port)); }
    InetParsed(s, b, port);
    BracketsOff(t);
  }

  lemma Regrouped(t: string, d: string)
    ensures t + "]:" + d == t + "]" + ":" + d
  {
    assert "]" + ":" == "]:";
  }

  lemma TextStart(a: Ip)
    ensures var t := ToText(a); t != "" && (IsMappedV4(a) ==> t[0] != '[')
  {
    if IsMappedV4(a) {
      var ps: seq<nat> := [a[12], a[13], a[14], a[15]];
      assert V4.Dotted(ps)[0] == ToDecimal(a[12])[0];
    } else {
      var gs := GroupTexts(a);
      assert gs[0] == GroupText(a[0], a[1]);
    }
  }

  /** InetAddress::parse undoes str on every address and port. */
  lemma InetRoundTrip(x: Inet)
    requires x.port < 0x1_0000
    ensures InetParse(InetText(x)) == x
  {
    TextRoundTrip(x.ip);
    TextStart(x.ip);
    if IsMappedV4(x.ip) {
      InetParsed(InetText(x), ToText(x.ip), x.port);
    } else {
      WithPortParses(ToText(x.ip), x.ip, x.port);
    }
  }

  /** An address is written in the dotted form, which the IPv4 routine reads, if and only if it is IPv4-mapped. */
  lemma DottedIffMapped(a: Ip)
    ensures V4.Aton(ToText(a)).Some? <==> IsMappedV4(a)
    ensures '.' in ToText(a) <==> IsMappedV4(a)
  {
    if IsMappedV4(a) {
      var ps: seq<nat> := [a[12], a[13], a[14], a[15]];
      V4.QuadParses(ps);
      assert V4.Dotted(ps)[|ToDecimal(ps[0])|] == '.';
    } else {
      var gs := GroupTexts(a);
      forall k | 0 <= k < 8 ensures Group(gs[k]) { GroupTextValue(a[2 * k], a[2 * k + 1]); }
      JoinChars(gs);
      FirstColon(gs);
    }
  }

  /** The first group is followed by a colon, so this is no IPv4 address. */
  lemma FirstColon(gs: seq<string>)
    requires |gs| == 8 && (forall k | 0 <= k < 8 :: Group(gs[k])) && HexAndColons(Join(gs))
    ensures V4.Aton(Join(gs)) == None
  {
    V4.ColonTextRejected(Join(gs), |gs[0]|);
  }

  /** Without a colon there is no port, and no address either. */
  lemma PortIsNeeded(s: string)
    requires ':' !in s
    ensures InetParse(s) == Inet(UNSET_IP, 0)
  {
    forall k | 0 <= k < |s| ensures s[k] != ':' { assert s[k] in s; }
  }
}
