/** Every textual form of an IPv6 address that section 2.2 of RFC 4291 allows is parsed to it. */
module Ip6Forms {
  import opened Prelude
  import opened Bits
  import opened Text
  import opened Ip6Text

  /** At most four hex digits, of either case. */
  predicate Group(g: string) { |g| <= 4 && forall k | 0 <= k < |g| :: IsHex(g[k]) }

  function HexValue(g: string): nat
    requires forall k | 0 <= k < |g| :: IsHex(g[k])
  {
    if g == [] then 0 else HexValue(g[..|g| - 1]) * 16 + HexDigit(g[|g| - 1])
  }

  function Pow16(k: nat): nat { if k == 0 then 1 else 16 * Pow16(k - 1) }

  lemma {:induction false} HexBound(g: string)
    requires forall k | 0 <= k < |g| :: IsHex(g[k])
    ensures HexValue(g) < Pow16(|g|)
  {
    if g != [] { HexBound(g[..|g| - 1]); }
  }

  lemma GroupBound(g: string)
    requires Group(g)
    ensures HexValue(g) < 0x1_0000
  {
    HexBound(g);
    assert Pow16(0) == 1 && Pow16(1) == 0x10 && Pow16(2) == 0x100 && Pow16(3) == 0x1000 && Pow16(4) == 0x1_0000;
  }

  function Join(gs: seq<string>): string {
    if gs == [] then "" else if |gs| == 1 then gs[0] else gs[0] + ":" + Join(gs[1..])
  }

  /** Groups with hex digits only, and none empty but perhaps the first. */
  predicate Groups(gs: seq<string>) {
    && gs != []
    && (forall k | 0 <= k < |gs| :: Group(gs[k]))
    && (forall k | 1 <= k < |gs| :: gs[k] != "")
  }

  lemma {:induction false} DigitsScanned(s: string, i: nat, g: string, k: nat, st: Scan)
    requires Ok(st) && Group(g) && k <= |g| && OccursAt(s, g, i)
    ensures Blocks(s, i + k, st.(value := HexValue(g[..k]))) == Blocks(s, i + |g|, st.(value := HexValue(g)))
    decreases |g| - k
  {
    if k < |g| {
      assert s[i..i + |g|][k] == g[k];
      DigitScanned(g, k, st);
      DigitsScanned(s, i, g, k + 1, st);
    } else {
      assert g[..k] == g;
    }
  }

  lemma DigitScanned(g: string, k: nat, st: Scan)
    requires Group(g) && k < |g|
    ensures AddDigit(st.(value := HexValue(g[..k])), g[k]) == st.(value := HexValue(g[..k + 1]))
  {
    assert g[..k + 1][..k] == g[..k];
    GroupBound(g[..k + 1]);
  }

  lemma {:induction false} DigitsColons(s: string, i: nat, g: string, k: nat)
    requires Group(g) && k <= |g| && OccursAt(s, g, i)
    ensures Colons(s, i + k) == Colons(s, i + |g|)
    decreases |g| - k
  {
    if k < |g| {
      assert s[i..i + |g|][k] == g[k];
      DigitsColons(s, i, g, k + 1);
    }
  }

  /** One separator that is not "::". */
  function Next(st: Scan, g: string): Scan
    requires Ok(st) && Group(g)
  {
    Scan(st.block + 1, 0, Store(st.(value := HexValue(g))), st.zeros)
  }

  function AfterJoin(gs: seq<string>, st: Scan): (st': Scan)
    requires Groups(gs) && Ok(st) && st.block + |gs| <= 8
    ensures Ok(st') && st'.block == st.block + |gs| - 1 && st'.zeros == st.zeros
  {
    if |gs| == 1 then st.(value := HexValue(gs[0])) else AfterJoin(gs[1..], Next(st, gs[0]))
  }

  lemma GroupScanned(s: string, i: nat, g: string, st: Scan)
    requires Ok(st) && st.value == 0 && Group(g) && OccursAt(s, g, i)
    ensures Blocks(s, i, st) == Blocks(s, i + |g|, st.(value := HexValue(g)))
  {
    assert g[..0] == "";
    assert st.(value := 0) == st;
    DigitsScanned(s, i, g, 0, st);
  }

  lemma SeparatorScanned(s: string, j: nat, g: string, st: Scan)
    requires Ok(st) && Group(g) && st.block <= 6 && At(s, j) == ':' && At(s, j + 1) != ':'
    ensures Blocks(s, j, st.(value := HexValue(g))) == Blocks(s, j + 1, Next(st, g))
  {
  }

  /** All groups scanned: `end` is where they stop and `last` the state there. */
  lemma {:induction false} JoinScanned(s: string, i: nat, gs: seq<string>, st: Scan, end: nat, last: Scan)
    requires Groups(gs) && Ok(st) && st.value == 0 && st.block + |gs| <= 8 && OccursAt(s, Join(gs), i)
    requires end == i + |Join(gs)| && last == AfterJoin(gs, st)
    ensures Blocks(s, i, st) == Blocks(s, end, last)
    decreases |gs|
  {
    if |gs| == 1 {
      OneScanned(s, i, gs, st);
    } else {
      var j, rest, next := i + |gs[0]| + 1, gs[1..], Next(st, gs[0]);
      FirstScanned(s, i, gs, st);
      assert last == AfterJoin(rest, next) by { AfterFirst(gs, st); }
      calc {
        Blocks(s, i, st);
        Blocks(s, j, next);
        { JoinScanned(s, j, rest, next, end, last); }
        Blocks(s, end, last);
      }
    }
  }

  lemma OneScanned(s: string, i: nat, gs: seq<string>, st: Scan)
    requires Groups(gs) && |gs| == 1 && Ok(st) && st.value == 0 && OccursAt(s, Join(gs), i)
    ensures Blocks(s, i, st) == Blocks(s, i + |Join(gs)|, AfterJoin(gs, st))
  {
    GroupScanned(s, i, gs[0], st);
  }

  lemma AfterFirst(gs: seq<string>, st: Scan)
    requires Groups(gs) && |gs| > 1 && Ok(st) && st.block + |gs| <= 8
    ensures AfterJoin(gs, st) == AfterJoin(gs[1..], Next(st, gs[0]))
  {
  }

  lemma FirstScanned(s: string, i: nat, gs: seq<string>, st: Scan)
    requires Groups(gs) && |gs| > 1 && Ok(st) && st.value == 0 && st.block <= 6 && OccursAt(s, Join(gs), i)
    ensures var j := i + |gs[0]| + 1;
      && Blocks(s, i, st) == Blocks(s, j, Next(st, gs[0]))
      && OccursAt(s, Join(gs[1..]), j) && j + |Join(gs[1..])| == i + |Join(gs)|
      && Groups(gs[1..]) && Ok(Next(st, gs[0]))
  {
    JoinParts(s, i, gs);
    GroupScanned(s, i, gs[0], st);
    SeparatorScanned(s, i + |gs[0]|, gs[0], st);
  }

  lemma {:induction false} JoinColons(s: string, i: nat, gs: seq<string>)
    requires Groups(gs) && OccursAt(s, Join(gs), i)
    ensures Colons(s, i) == |gs| - 1 + Colons(s, i + |Join(gs)|)
    decreases |gs|
  {
    var g := gs[0];
    if |gs| > 1 { JoinParts(s, i, gs); } else { assert OccursAt(s, g, i); }
    DigitsColons(s, i, g, 0);
    if |gs| > 1 { JoinColons(s, i + |g| + 1, gs[1..]); }
  }

  /** Where the first group, its colon and the rest stand. */
  lemma JoinParts(s: string, i: nat, gs: seq<string>)
    requires Groups(gs) && |gs| > 1 && OccursAt(s, Join(gs), i)
    ensures var j := i + |gs[0]|;
      && OccursAt(s, gs[0], i) && At(s, j) == ':' && At(s, j + 1) != ':' && OccursAt(s, Join(gs[1..]), j + 1)
      && |Join(gs)| == |gs[0]| + 1 + |Join(gs[1..])|
  {
    var g, rest := gs[0], Join(gs[1..]);
    var t := Join(gs);
    assert t == g + ":" + rest;
    var j := i + |g|;
    assert s[i..i + |t|] == t;
    assert s[i..j] == t[..|g|] == g;
    assert s[j] == t[|g|];
    assert s[j + 1..i + |t|] == t[|g| + 1..] == rest;
    assert rest != "" && rest[0] == gs[1][0];
    assert s[j + 1] == t[|g| + 1];
  }

  // ---- the words ----

  /** Every block below st.block is in its word. */
  ghost predicate Filled(st: Scan, ws: seq<nat>) {
    && Ok(st) && |ws| == 8
    && (forall w | 0 <= w < 4 && 2 * w + 1 < st.block :: st.addr[w] == ws[2 * w] * 0x1_0000 + ws[2 * w + 1])
    && (forall w | 0 <= w < 4 && 2 * w + 1 == st.block :: st.addr[w] == ws[2 * w] * 0x1_0000)
  }

  lemma StoreFilled(st: Scan, ws: seq<nat>)
    requires Filled(st, ws) && st.block <= 6 && st.value == ws[st.block] < 0x1_0000
    ensures Filled(Scan(st.block + 1, 0, Store(st), st.zeros), ws)
  {
    var w := st.block / 2;
    if st.block % 2 == 1 { OrHalf(ws[2 * w], st.value); }
  }

  lemma NextFilled(st: Scan, ws: seq<nat>, g: string)
    requires Filled(st, ws) && Group(g) && st.block <= 6 && ws[st.block] == HexValue(g)
    ensures Filled(Next(st, g), ws)
  {
    GroupBound(g);
    StoreFilled(st.(value := HexValue(g)), ws);
  }

  lemma {:induction false} JoinFilled(gs: seq<string>, st: Scan, ws: seq<nat>)
    requires Groups(gs) && Filled(st, ws) && st.block + |gs| <= 8
    requires forall k | 0 <= k < |gs| :: ws[st.block + k] == HexValue(gs[k])
    ensures var st' := AfterJoin(gs, st); Filled(st', ws) && st'.value == ws[st'.block] < 0x1_0000
    decreases |gs|
  {
    if |gs| > 1 {
      assert ws[st.block + 0] == HexValue(gs[0]);
      NextFilled(st, ws, gs[0]);
      forall k | 0 <= k < |gs[1..]| ensures ws[st.block + 1 + k] == HexValue(gs[1..][k]) {
        assert ws[st.block + (k + 1)] == HexValue(gs[k + 1]);
      }
      JoinFilled(gs[1..], Next(st, gs[0]), ws);
    } else {
      assert ws[st.block + 0] == HexValue(gs[0]);
      GroupBound(gs[0]);
    }
  }

  lemma {:induction false} SkipFilled(st: Scan, ws: seq<nat>)
    requires Filled(st, ws) && st.block + st.zeros <= 7
    requires forall k | st.block <= k < st.block + st.zeros :: ws[k] == 0
    ensures Filled(Skip(st).value, ws)
    decreases st.zeros
  {
    if st.zeros > 0 {
      assert ws[st.block] == 0;
      var addr := if st.block % 2 == 1 then st.addr else st.addr[st.block / 2 := 0];
      SkipFilled(Scan(st.block + 1, st.value, addr, st.zeros - 1), ws);
    }
  }

  function Words(ws: seq<nat>): seq<nat>
    requires |ws| == 8
  {
    [ws[0] * 0x1_0000 + ws[1], ws[2] * 0x1_0000 + ws[3], ws[4] * 0x1_0000 + ws[5], ws[6] * 0x1_0000 + ws[7]]
  }

  lemma LastFilled(st: Scan, ws: seq<nat>)
    requires Filled(st, ws) && st.block == 7 && st.value == ws[7] < 0x1_0000
    ensures Store(st) == Words(ws)
  {
    OrHalf(ws[6], ws[7]);
    assert st.addr[0] == ws[2 * 0] * 0x1_0000 + ws[2 * 0 + 1];
    assert st.addr[1] == ws[2 * 1] * 0x1_0000 + ws[2 * 1 + 1];
    assert st.addr[2] == ws[2 * 2] * 0x1_0000 + ws[2 * 2 + 1];
    assert st.addr[3] == ws[2 * 3] * 0x1_0000;
  }

  /** Eight groups, none left out. */
  lemma FullFormParses(gs: seq<string>, ws: seq<nat>)
    requires Groups(gs) && |gs| == 8 == |ws|
    requires forall k | 0 <= k < 8 :: ws[k] == HexValue(gs[k])
    ensures Aton(Join(gs)) == Some(Words(ws))
  {
    var s := Join(gs);
    assert OccursAt(s, Join(gs), 0);
    JoinColons(s, 0, gs);
    var st := Start(s, [0, 0, 0, 0]);
    TailScanned(s, 0, gs, st);
    JoinFilled(gs, st, ws);
    LastFilled(AfterJoin(gs, st), ws);
  }

  /** s is the groups h, then "::", then the groups t. */
  ghost predicate Gap(s: string, h: seq<string>, t: seq<string>) {
    && Groups(h) && Groups(t)
    && var n := |Join(h)|;
    && OccursAt(s, Join(h), 0) && At(s, n) == ':' && At(s, n + 1) == ':' && At(s, n + 2) != ':'
    && OccursAt(s, Join(t), n + 2) && |s| == n + 2 + |Join(t)|
  }

  lemma Pieces(a: string, b: string)
    ensures var s := a + "::" + b;
      && OccursAt(s, a, 0) && OccursAt(s, b, |a| + 2) && At(s, |a|) == ':' && At(s, |a| + 1) == ':'
      && At(s, |a| + 2) == At(b, 0) && |s| == |a| + 2 + |b|
  {
    var s := a + "::" + b;
    assert s[0..|a|] == a;
    assert s[|a| + 2..|a| + 2 + |b|] == b;
  }

  lemma GapText(h: seq<string>, t: seq<string>)
    requires Groups(h) && Groups(t) && (|t| > 1 ==> t[0] != "")
    ensures Gap(Join(h) + "::" + Join(t), h, t)
  {
    Pieces(Join(h), Join(t));
    JoinStart(t);
  }

  lemma JoinStart(gs: seq<string>)
    requires Groups(gs) && (|gs| > 1 ==> gs[0] != "")
    ensures At(Join(gs), 0) != ':'
  {
    assert gs[0] != "" ==> Join(gs)[0] == gs[0][0];
  }

  lemma GapColons(s: string, h: seq<string>, t: seq<string>)
    requires Gap(s, h, t)
    ensures Colons(s, 0) == |h| + |t|
  {
    var n := |Join(h)|;
    JoinColons(s, 0, h);
    JoinColons(s, n + 2, t);
    assert Colons(s, n) == 1 + Colons(s, n + 1);
  }

  lemma GapCrossed(s: string, n: nat, st: Scan)
    requires Ok(st) && At(s, n) == ':' && At(s, n + 1) == ':' && At(s, n + 2) != ':'
    requires st.block + 1 + st.zeros <= 7
    ensures var st1 := Scan(st.block + 1, 0, Store(st), st.zeros);
      Skip(st1).Some? && Blocks(s, n, st) == Blocks(s, n + 2, Skip(st1).value)
  {
  }

  /** The state when the first colon of "::" has stored the last group before it. */
  function AtGap(h: seq<string>, st: Scan): (st': Scan)
    requires Groups(h) && Ok(st) && st.block == 0 && |h| <= 7
    ensures Ok(st') && st'.block == |h| && st'.value == 0 && st'.zeros == st.zeros
  {
    var st1 := AfterJoin(h, st);
    Scan(st1.block + 1, 0, Store(st1), st1.zeros)
  }

  function AfterGap(h: seq<string>, t: seq<string>, st: Scan): (st': Scan)
    requires Groups(h) && Groups(t) && Ok(st) && st.block == 0 && st.zeros == 8 - |h| - |t|
    ensures Ok(st') && st'.block == 8 - |t| && st'.value == 0
  {
    Skip(AtGap(h, st)).value
  }

  lemma GapScanned(s: string, h: seq<string>, t: seq<string>, st: Scan)
    requires Gap(s, h, t) && Ok(st) && st.block == 0 == st.value && st.zeros == 8 - |h| - |t|
    ensures Blocks(s, 0, st) == Some(AfterJoin(t, AfterGap(h, t, st)))
  {
    HeadScanned(s, h, t, st);
    TailScanned(s, |Join(h)| + 2, t, AfterGap(h, t, st));
  }

  lemma HeadScanned(s: string, h: seq<string>, t: seq<string>, st: Scan)
    requires Gap(s, h, t) && Ok(st) && st.block == 0 == st.value && st.zeros == 8 - |h| - |t|
    ensures Blocks(s, 0, st) == Blocks(s, |Join(h)| + 2, AfterGap(h, t, st))
  {
    var n, st1 := |Join(h)|, AfterJoin(h, st);
    assert Blocks(s, 0, st) == Blocks(s, n, st1) by { JoinScanned(s, 0, h, st, n, st1); }
    assert Blocks(s, n, st1) == Blocks(s, n + 2, AfterGap(h, t, st)) by { GapCrossed(s, n, st1); }
  }

  lemma TailScanned(s: string, i: nat, t: seq<string>, st: Scan)
    requires Groups(t) && Ok(st) && st.value == 0 && st.block + |t| <= 8
    requires OccursAt(s, Join(t), i) && |s| == i + |Join(t)|
    ensures Blocks(s, i, st) == Some(AfterJoin(t, st))
  {
    JoinScanned(s, i, t, st, |s|, AfterJoin(t, st));
    EndScanned(s, AfterJoin(t, st));
  }

  lemma EndScanned(s: string, st: Scan)
    requires Ok(st)
    ensures Blocks(s, |s|, st) == Some(st)
  {
  }

  lemma GapFilled(h: seq<string>, t: seq<string>, ws: seq<nat>, st: Scan)
    requires Groups(h) && Groups(t) && Ok(st) && st.block == 0 && st.zeros == 8 - |h| - |t| && |ws| == 8
    requires forall k | 0 <= k < |h| :: ws[k] == HexValue(h[k])
    requires forall k | |h| <= k < 8 - |t| :: ws[k] == 0
    ensures Filled(AfterGap(h, t, st), ws)
  {
    HeadFilled(h, ws, st);
    SkipFilled(AtGap(h, st), ws);
  }

  lemma HeadFilled(h: seq<string>, ws: seq<nat>, st: Scan)
    requires Groups(h) && Ok(st) && st.block == 0 && |h| <= 7 && |ws| == 8
    requires forall k | 0 <= k < |h| :: ws[k] == HexValue(h[k])
    ensures Filled(AtGap(h, st), ws)
  {
    JoinFilled(h, st, ws);
    StoreFilled(AfterJoin(h, st), ws);
  }

  /** Two lists of groups around "::". A list of one empty group stands for nothing on that side. */
  lemma AroundGapParses(s: string, h: seq<string>, t: seq<string>, ws: seq<nat>)
    requires Gap(s, h, t) && |h| + |t| <= 8 == |ws|
    requires forall k | 0 <= k < |h| :: ws[k] == HexValue(h[k])
    requires forall k | |h| <= k < 8 - |t| :: ws[k] == 0
    requires forall k | 0 <= k < |t| :: ws[8 - |t| + k] == HexValue(t[k])
    ensures Aton(s) == Some(Words(ws))
  {
    GapColons(s, h, t);
    var st := Start(s, [0, 0, 0, 0]);
    GapScanned(s, h, t, st);
    GapFilled(h, t, ws, st);
    var st3 := AfterGap(h, t, st);
    JoinFilled(t, st3, ws);
    LastFilled(AfterJoin(t, st3), ws);
  }

  /** gs with the n groups from a on replaced by "::". */
  function Shorten(gs: seq<string>, a: nat, n: nat): string
    requires a + n <= |gs|
  {
    Join(gs[..a]) + "::" + Join(gs[a + n..])
  }

  /** For every address, every spelling of its eight groups (leading zeros dropped or kept, either
      case) and every run of 1 to 8 zero groups, the text with that run written as "::" parses to
      the address. */
  lemma EveryShorteningParses(gs: seq<string>, ws: seq<nat>, a: nat, n: nat)
    requires |gs| == 8 == |ws| && 1 <= n && a + n <= 8
    requires forall k | 0 <= k < 8 :: Group(gs[k]) && gs[k] != "" && ws[k] == HexValue(gs[k])
    requires forall k | a <= k < a + n :: ws[k] == 0
    ensures Aton(Shorten(gs, a, n)) == Some(Words(ws))
  {
    var h, t := Side(gs[..a]), Side(gs[a + n..]);
    HeadValues(gs, ws, a);
    TailValues(gs, ws, a + n);
    GapText(h, t);
    AroundGapParses(Shorten(gs, a, n), h, t, ws);
  }

  lemma HeadValues(gs: seq<string>, ws: seq<nat>, a: nat)
    requires |gs| == 8 == |ws| && a < 8 && ws[a] == 0
    requires forall k | 0 <= k < 8 :: Group(gs[k]) && gs[k] != "" && ws[k] == HexValue(gs[k])
    ensures var h := Side(gs[..a]); Groups(h) && forall k | 0 <= k < |h| :: ws[k] == HexValue(h[k])
  {
  }

  lemma TailValues(gs: seq<string>, ws: seq<nat>, b: nat)
    requires |gs| == 8 == |ws| && 0 < b <= 8 && ws[b - 1] == 0
    requires forall k | 0 <= k < 8 :: Group(gs[k]) && gs[k] != "" && ws[k] == HexValue(gs[k])
    ensures var t := Side(gs[b..]);
      && Groups(t) && |t| <= 8 && (|t| > 1 ==> t[0] != "")
      && forall k | 0 <= k < |t| :: ws[8 - |t| + k] == HexValue(t[k])
  {
    var t := Side(gs[b..]);
    forall k | 0 <= k < |t| ensures ws[8 - |t| + k] == HexValue(t[k]) {
      if b < 8 { assert t[k] == gs[b + k]; }
    }
  }

  /** The groups on one side of "::", where no groups are one empty group. */
  function Side(gs: seq<string>): (r: seq<string>)
    ensures Join(r) == Join(gs) && r != []
    ensures gs != [] ==> r == gs
    ensures gs == [] ==> r == [""]
  {
    if gs == [] then [""] else gs
  }
}
