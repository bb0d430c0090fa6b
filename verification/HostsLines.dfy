/** What a rewritten hosts file says to someone who reads it: which address each name has, and that the
    other lines are where they were. */
module HostsLines {
  import opened Prelude
  import opened IpText
  import opened HostsFile
  import F = IdentityFile
  import V4 = Ip4Text

  // ---- our lines ----

  /** A resolver takes the first word of a line as an address and the second as its name. */
  ghost predicate Names(line: string, host: string, address: Ip) {
    var (first, i) := F.NextWord(line, 0);
    Parse(first) == address && F.NextWord(line, i).0 == host
  }

  lemma HostIsWord(h: string)
    requires ValidHost(h)
    ensures F.IsWord(h)
  {
    forall k | 0 <= k < |h| ensures !V4.IsSpace(h[k]) { assert HostChar(h[k]); }
  }

  /** The line of an entry with a valid name gives that name the entry's address, with either ending. */
  lemma OwnLineNames(e: Entry, cr: Ending)
    requires ValidHost(e.host)
    ensures Names(OwnLine(e) + cr, e.host, e.address)
  {
    var a, l := ToText(e.address), OwnLine(e) + cr;
    HostIsWord(e.host);
    F.AddressIsWord(e.address);
    BlankFirst(a + " " + e.host, MARKER, cr);
    TwoWords(l, a, e.host, MARKER[1..] + cr);
    NamesIf(l, a, |a|, e);
  }

  lemma NamesIf(l: string, first: string, i: nat, e: Entry)
    requires i <= |l| && F.NextWord(l, 0) == (first, i) && F.NextWord(l, i).0 == e.host && first == ToText(e.address)
    ensures Names(l, e.host, e.address)
  {
    TextRoundTrip(e.address);
  }

  lemma BlankFirst(before: string, marker: string, cr: string)
    requires marker != "" && marker[0] == ' '
    ensures before + marker + cr == before + " " + (marker[1..] + cr)
  {
    assert marker == " " + marker[1..];
  }

  lemma TwoWords(l: string, a: string, h: string, tail: string)
    requires F.IsWord(a) && F.IsWord(h) && l == a + " " + h + " " + tail
    ensures F.NextWord(l, 0) == (a, |a|) && F.NextWord(l, |a|).0 == h
  {
    assert F.NextWord(l, 0) == (a, |a|) by {
      assert l == a + [' '] + (h + " " + tail);
      F.FirstWord(l, a, ' ', h + " " + tail);
    }
    assert F.NextWord(l, |a|).0 == h by {
      assert l == a + " " + h + [' '] + tail;
      F.LaterWord(l, a, h, ' ', tail);
    }
  }

  /** How many of the first i entries get a line. */
  function ValidBefore(data: seq<Entry>, i: nat): nat
    requires i <= |data|
  {
    if i == 0 then 0 else ValidBefore(data, i - 1) + if ValidHost(data[i - 1].host) then 1 else 0
  }

  lemma {:induction false} OwnLinesSnoc(data: seq<Entry>, e: Entry)
    ensures OwnLines(data + [e]) == OwnLines(data) + if ValidHost(e.host) then [OwnLine(e)] else []
    decreases |data|
  {
    if data == [] {
      assert data + [e] == [e] && [e][1..] == [];
    } else {
      assert (data + [e])[1..] == data[1..] + [e];
      OwnLinesSnoc(data[1..], e);
    }
  }

  lemma {:induction false} OwnLineAt(data: seq<Entry>, i: nat)
    requires i < |data|
    ensures |OwnLines(data)| == ValidBefore(data, |data|)
    ensures ValidHost(data[i].host) ==>
      ValidBefore(data, i) < |OwnLines(data)| && OwnLines(data)[ValidBefore(data, i)] == OwnLine(data[i])
    decreases |data|
  {
    var n := |data| - 1;
    var before := data[..n];
    assert data == before + [data[n]];
    OwnLinesSnoc(before, data[n]);
    if n > 0 { OwnLineAt(before, if i < n then i else 0); } else { assert before == []; }
    SameCount(before, data, n);
    if i < n { SameCount(before, data, i); }
  }

  lemma {:induction false} SameCount(before: seq<Entry>, data: seq<Entry>, i: nat)
    requires i <= |before| && before <= data
    ensures ValidBefore(before, i) == ValidBefore(data, i)
  {
    if i > 0 { SameCount(before, data, i - 1); }
  }

  // ---- the other lines ----

  /** The trimmed line does not end in the marker. */
  predicate Foreign(line: string) {
    var t := TrimRight(line);
    |t| < |MARKER| || t[|t| - |MARKER|..] != MARKER
  }

  /** How many of the first i lines are foreign. */
  function ForeignBefore(lines: seq<string>, i: nat): nat
    requires i <= |lines|
  {
    if i == 0 then 0 else ForeignBefore(lines, i - 1) + if Foreign(lines[i - 1]) then 1 else 0
  }

  lemma {:induction false} SameForeign(before: seq<string>, lines: seq<string>, i: nat)
    requires i <= |before| && before <= lines
    ensures ForeignBefore(before, i) == ForeignBefore(lines, i)
  {
    if i > 0 { SameForeign(before, lines, i - 1); }
  }

  lemma KeepSnoc(lines: seq<string>, l: string)
    ensures Keep(lines + [l]) == Keep(lines) + if Foreign(l) then [TrimRight(l)] else []
  {
    KeepAppend(lines, [l]);
    KeepOne(l);
  }

  lemma KeepOne(l: string)
    ensures Keep([l]) == if Foreign(l) then [TrimRight(l)] else []
  {
    ForeignIff(l);
    assert [l][1..] == [];
  }

  lemma ForeignIff(l: string)
    ensures Managed(TrimRight(l)) <==> !Foreign(l)
  {
  }

  lemma {:induction false} KeptCount(lines: seq<string>)
    ensures |Keep(lines)| == ForeignBefore(lines, |lines|)
    decreases |lines|
  {
    if lines != [] {
      var before, l := lines[..|lines| - 1], lines[|lines| - 1];
      assert lines == before + [l];
      KeepSnoc(before, l);
      KeptCount(before);
      SameForeign(before, lines, |before|);
    }
  }

  lemma {:induction false} KeptAt(lines: seq<string>, i: nat)
    requires i < |lines| && Foreign(lines[i])
    ensures ForeignBefore(lines, i) < |Keep(lines)| && Keep(lines)[ForeignBefore(lines, i)] == TrimRight(lines[i])
    decreases |lines|
  {
    var before, l := lines[..|lines| - 1], lines[|lines| - 1];
    assert lines == before + [l];
    KeepSnoc(before, l);
    SameForeign(before, lines, i);
    if i < |before| { KeptAt(before, i); } else { KeptCount(before); }
  }

  // ---- the new file ----

  /** Every foreign line of the old file is in the new one, trimmed, and in the old order: behind exactly as
      many lines as there were foreign lines before it. */
  lemma ForeignLineStays(data: seq<Entry>, content: string, cr: Ending, i: nat)
    requires i < |Lines(content)| && Foreign(Lines(content)[i])
    ensures var lines, at := Lines(Rewrite(data, content, cr)), ForeignBefore(Lines(content), i);
      at < |lines| && lines[at] == TrimRight(Lines(content)[i]) + cr
  {
    RewrittenLines(data, content, cr);
    KeptAt(Lines(content), i);
  }

  /** Behind them, every entry with a valid name has a line that names its address, in the order of the
      table, and there is nothing else: one line for each foreign line and one for each such entry. */
  lemma EntryIsNamed(data: seq<Entry>, content: string, cr: Ending, i: nat)
    requires i < |data|
    ensures var was, lines := Lines(content), Lines(Rewrite(data, content, cr));
      var at := ForeignBefore(was, |was|) + ValidBefore(data, i);
      && |lines| == ForeignBefore(was, |was|) + ValidBefore(data, |data|)
      && (ValidHost(data[i].host) ==>
            at < |lines| && Names(lines[at], data[i].host, data[i].address) && !Foreign(lines[at]))
  {
    RewrittenLines(data, content, cr);
    KeptCount(Lines(content));
    OwnLineAt(data, i);
    if ValidHost(data[i].host) { OwnLineShown(data[i], cr); }
  }

  lemma OwnLineShown(e: Entry, cr: Ending)
    requires ValidHost(e.host)
    ensures Names(OwnLine(e) + cr, e.host, e.address) && !Foreign(OwnLine(e) + cr)
  {
    OwnLineNames(e, cr);
    OwnLineManaged(e, cr);
    ForeignIff(OwnLine(e) + cr);
  }

  function Unlines(lines: seq<string>): string {
    if lines == [] then "" else lines[0] + "\n" + Unlines(lines[1..])
  }

  /** The lines of a text are all of it: only a line feed at the very end may be missing. */
  lemma {:induction false} LinesAreAll(s: string)
    ensures Unlines(Lines(s)) == s || Unlines(Lines(s)) == s + "\n"
    ensures s == "" ==> Unlines(Lines(s)) == ""
    decreases |s|
  {
    if s != "" {
      var n, rest := LineEnd(s), AfterLine(s);
      LinesAreAll(rest);
      LinesStep(s);
      FirstOfAll(s[..n], Lines(rest));
      if n < |s| { SplitAt(s, n); } else { assert s[..n] == s; }
      Complete(s, s[..n], rest, Unlines(Lines(rest)), n < |s|);
    }
  }

  lemma FirstOfAll(l: string, lines: seq<string>)
    ensures Unlines([l] + lines) == l + "\n" + Unlines(lines)
  {
    assert ([l] + lines)[1..] == lines;
  }

  lemma SplitAt(s: string, n: nat)
    requires n < |s| && s[n] == '\n'
    ensures s == s[..n] + "\n" + s[n + 1..]
  {
  }

  lemma Complete(s: string, l: string, rest: string, u: string, ended: bool)
    requires if ended then s == l + "\n" + rest else s == l && rest == ""
    requires (u == rest || u == rest + "\n") && (rest == "" ==> u == "")
    ensures l + "\n" + u == s || l + "\n" + u == s + "\n"
  {
    if u == rest + "\n" { assert l + "\n" + (rest + "\n") == l + "\n" + rest + "\n"; }
  }
}
