/** Rewriting the hosts file (ports/fat/port.cpp). */
module HostsFile {
  import opened Prelude
  import opened IpText
  import V4 = Ip4Text
  import IdentityFile

  const MARKER := " # managed by Husarnet"

  datatype Entry = Entry(host: string, address: Ip)

  /** "\r\n" in a build for Windows, "\n" elsewhere; `cr` is what stands before the line feed. */
  type Ending = e: string | e == "" || e == "\r" witness ""

  predicate HostChar(c: char) {
    'a' <= c <= 'z' || 'A' <= c <= 'Z' || '0' <= c <= '9' || c == '_' || c == '-' || c == '.'
  }

  predicate ValidHost(h: string) { h != "" && forall k | 0 <= k < |h| :: HostChar(h[k]) }

  /** rtrim: without its trailing blanks. */
  function TrimRight(s: string): (t: string)
    ensures t <= s
    ensures t != "" ==> !V4.IsSpace(t[|t| - 1])
    ensures forall k | |t| <= k < |s| :: V4.IsSpace(s[k])
  {
    if s != "" && V4.IsSpace(s[|s| - 1]) then TrimRight(s[..|s| - 1]) else s
  }

  predicate EndsWith(s: string, w: string) { |s| >= |w| && s[|s| - |w|..] == w }

  predicate Managed(line: string) { EndsWith(line, MARKER) }

  // ---- lines ----

  /** Where the line that starts at the head of s ends: at its line feed or at the end. */
  function LineEnd(s: string): (n: nat)
    ensures n <= |s| && (n < |s| ==> s[n] == '\n')
    ensures forall k | 0 <= k < n :: s[k] != '\n'
  {
    if s == "" || s[0] == '\n' then 0 else 1 + LineEnd(s[1..])
  }

  function AfterLine(s: string): string { if LineEnd(s) < |s| then s[LineEnd(s) + 1..] else "" }

  /** What getline reads, one line after another. */
  function Lines(s: string): seq<string>
    decreases |s|
  {
    if s == "" then [] else [s[..LineEnd(s)]] + Lines(AfterLine(s))
  }

  predicate OneLine(s: string) { forall k | 0 <= k < |s| :: s[k] != '\n' }

  function Write(lines: seq<string>, cr: Ending): string {
    if lines == [] then "" else lines[0] + cr + "\n" + Write(lines[1..], cr)
  }

  /** The unmanaged lines, trimmed. */
  function Keep(lines: seq<string>): seq<string> {
    if lines == [] then []
    else
      var line := TrimRight(lines[0]);
      (if Managed(line) then [] else [line]) + Keep(lines[1..])
  }

  function OwnLine(e: Entry): string { ToText(e.address) + " " + e.host + MARKER }

  function OwnLines(data: seq<Entry>): seq<string> {
    if data == [] then [] else (if ValidHost(data[0].host) then [OwnLine(data[0])] else []) + OwnLines(data[1..])
  }

  /** The new content: the unmanaged lines, then one line for every valid host name. */
  function Rewrite(data: seq<Entry>, content: string, cr: Ending): string {
    Write(Keep(Lines(content)), cr) + Write(OwnLines(data), cr)
  }

  // ---- trimming ----

  lemma TrimIs(s: string, t: string)
    requires t <= s && (t != "" ==> !V4.IsSpace(t[|t| - 1])) && forall k | |t| <= k < |s| :: V4.IsSpace(s[k])
    ensures TrimRight(s) == t
  {
    var u := TrimRight(s);
    if t != "" { assert s[|t| - 1] == t[|t| - 1]; }
    if u != "" { assert s[|u| - 1] == u[|u| - 1]; }
    assert u == s[..|u|] && t == s[..|t|];
  }

  lemma TrimKeptAgain(s: string, cr: Ending)
    ensures TrimRight(TrimRight(s) + cr) == TrimRight(s)
  {
    TrimIs(TrimRight(s) + cr, TrimRight(s));
  }

  lemma OwnLineManaged(e: Entry, cr: Ending)
    ensures TrimRight(OwnLine(e) + cr) == OwnLine(e) && Managed(OwnLine(e))
  {
    var l := OwnLine(e);
    assert l[|l| - |MARKER|..] == MARKER;
    assert l[|l| - 1] == MARKER[|MARKER| - 1] == 't';
    TrimIs(l + cr, l);
  }

  lemma OwnLineOneLine(e: Entry)
    requires ValidHost(e.host)
    ensures OneLine(OwnLine(e))
  {
    IdentityFile.AddressIsWord(e.address);
    var a := ToText(e.address);
    forall k | 0 <= k < |a| ensures a[k] != '\n' { assert !V4.IsSpace(a[k]); }
    assert OneLine(e.host) && OneLine(MARKER) && OneLine(" ");
  }

  // ---- reading back what was written ----

  lemma LineEndIs(s: string, n: nat)
    requires n < |s| && s[n] == '\n' && forall k | 0 <= k < n :: s[k] != '\n'
    ensures LineEnd(s) == n
  {
    assert forall k | 0 <= k < LineEnd(s) :: s[k] != '\n';
  }

  lemma FirstLine(l: string, rest: string)
    requires OneLine(l)
    ensures Lines(l + "\n" + rest) == [l] + Lines(rest)
  {
    var s := l + "\n" + rest;
    LineEndIs(s, |l|);
    assert s[..|l|] == l && s[|l| + 1..] == rest;
  }

  function Ended(lines: seq<string>, cr: Ending): (r: seq<string>)
    ensures |r| == |lines| && forall k | 0 <= k < |r| :: r[k] == lines[k] + cr
  {
    seq(|lines|, k requires 0 <= k < |lines| => lines[k] + cr)
  }

  lemma WriteFirst(ls: seq<string>, cr: Ending, rest: string)
    requires ls != []
    ensures Write(ls, cr) + rest == ls[0] + cr + "\n" + (Write(ls[1..], cr) + rest)
  {
  }

  lemma EndedFirst(ls: seq<string>, cr: Ending)
    requires ls != []
    ensures Ended(ls, cr) == [ls[0] + cr] + Ended(ls[1..], cr)
  {
  }

  lemma Regroup(x: string, a: seq<string>, b: seq<string>)
    ensures [x] + (a + b) == [x] + a + b
  {
  }

  lemma {:induction false} WrittenLines(ls: seq<string>, cr: Ending, rest: string)
    requires forall k | 0 <= k < |ls| :: OneLine(ls[k])
    ensures Lines(Write(ls, cr) + rest) == Ended(ls, cr) + Lines(rest)
    decreases |ls|
  {
    if ls == [] {
      assert Write(ls, cr) + rest == rest;
    } else {
      var l := ls[0] + cr;
      assert OneLine(ls[0]);
      WriteFirst(ls, cr, rest);
      FirstLine(l, Write(ls[1..], cr) + rest);
      WrittenLines(ls[1..], cr, rest);
      EndedFirst(ls, cr);
      Regroup(l, Ended(ls[1..], cr), Lines(rest));
    }
  }

  lemma {:induction false} KeepAppend(a: seq<string>, b: seq<string>)
    ensures Keep(a + b) == Keep(a) + Keep(b)
    decreases |a|
  {
    if a == [] {
      assert a + b == b;
    } else {
      assert (a + b)[1..] == a[1..] + b;
      KeepAppend(a[1..], b);
    }
  }

  /** Kept lines are kept again. */
  lemma {:induction false} KeepAgain(ls: seq<string>, cr: Ending)
    ensures Keep(Ended(Keep(ls), cr)) == Keep(ls)
    decreases |ls|
  {
    if ls != [] {
      KeepAgain(ls[1..], cr);
      var line := TrimRight(ls[0]);
      if !Managed(line) {
        var again := Ended(Keep(ls), cr);
        TrimKeptAgain(ls[0], cr);
        assert again[0] == line + cr;
        assert again[1..] == Ended(Keep(ls[1..]), cr);
      } else {
        assert Keep(ls) == Keep(ls[1..]);
      }
    }
  }

  /** Own lines are all dropped. */
  lemma {:induction false} OwnDropped(data: seq<Entry>, cr: Ending)
    ensures Keep(Ended(OwnLines(data), cr)) == []
    decreases |data|
  {
    if data != [] {
      OwnDropped(data[1..], cr);
      if ValidHost(data[0].host) {
        var own := Ended(OwnLines(data), cr);
        OwnLineManaged(data[0], cr);
        assert own[0] == OwnLine(data[0]) + cr;
        assert own[1..] == Ended(OwnLines(data[1..]), cr);
      } else {
        assert OwnLines(data) == OwnLines(data[1..]);
      }
    }
  }

  lemma {:induction false} LinesOneLine(s: string)
    ensures forall k | 0 <= k < |Lines(s)| :: OneLine(Lines(s)[k])
    decreases |s|
  {
    if s != "" { LinesOneLine(AfterLine(s)); }
  }

  lemma {:induction false} KeepOneLine(ls: seq<string>)
    requires forall k | 0 <= k < |ls| :: OneLine(ls[k])
    ensures forall k | 0 <= k < |Keep(ls)| :: OneLine(Keep(ls)[k])
    decreases |ls|
  {
    if ls != [] {
      KeepOneLine(ls[1..]);
      assert OneLine(TrimRight(ls[0])) by { assert OneLine(ls[0]); }
    }
  }

  lemma {:induction false} OwnOneLine(data: seq<Entry>)
    ensures forall k | 0 <= k < |OwnLines(data)| :: OneLine(OwnLines(data)[k])
    decreases |data|
  {
    if data != [] {
      OwnOneLine(data[1..]);
      if ValidHost(data[0].host) { OwnLineOneLine(data[0]); }
    }
  }

  /** The lines of the new file: the unmanaged lines of the old one in order, up to trailing
      blanks, then our lines; each with the carriage return of the line ending. */
  lemma RewrittenLines(data: seq<Entry>, content: string, cr: Ending)
    ensures Lines(Rewrite(data, content, cr)) == Ended(Keep(Lines(content)), cr) + Ended(OwnLines(data), cr)
  {
    LinesOneLine(content);
    KeepOneLine(Lines(content));
    OwnOneLine(data);
    WrittenLines(Keep(Lines(content)), cr, Write(OwnLines(data), cr));
    WrittenLines(OwnLines(data), cr, "");
    assert Write(OwnLines(data), cr) + "" == Write(OwnLines(data), cr);
    assert Ended(OwnLines(data), cr) + Lines("") == Ended(OwnLines(data), cr);
  }

  /** Unmanaged lines survive any rewrite, in order and up to trailing blanks. */
  lemma UnmanagedSurvive(data: seq<Entry>, content: string, cr: Ending)
    ensures Keep(Lines(Rewrite(data, content, cr))) == Keep(Lines(content))
  {
    RewrittenLines(data, content, cr);
    var a, b := Ended(Keep(Lines(content)), cr), Ended(OwnLines(data), cr);
    KeepAppend(a, b);
    KeepAgain(Lines(content), cr);
    OwnDropped(data, cr);
  }

  /** Rewriting twice is rewriting once with the second table. */
  lemma SecondRewriteWins(d1: seq<Entry>, d2: seq<Entry>, content: string, cr: Ending)
    ensures Rewrite(d2, Rewrite(d1, content, cr), cr) == Rewrite(d2, content, cr)
  {
    UnmanagedSurvive(d1, content, cr);
  }

  // ---- the loops ----

  method ValidateHostname(h: string) returns (ok: bool)
    ensures ok == ValidHost(h)
  {
    if |h| == 0 {
      return false;
    }
    for i := 0 to |h|
      invariant forall k | 0 <= k < i :: HostChar(h[k])
    {
      if !HostChar(h[i]) {
        return false;
      }
    }
    ok := true;
  }

  lemma {:induction false} WriteLast(ls: seq<string>, l: string, cr: Ending)
    ensures Write(ls + [l], cr) == Write(ls, cr) + (l + cr + "\n")
    decreases |ls|
  {
    if ls == [] {
      assert (ls + [l])[1..] == [];
    } else {
      WriteLast(ls[1..], l, cr);
      assert (ls + [l])[1..] == ls[1..] + [l];
    }
  }

  method CopyUnmanaged(oldContent: string, cr: Ending) returns (newContent: string)
    ensures newContent == Write(Keep(Lines(oldContent)), cr)
  {
    newContent := "";
    var stream := oldContent;
    ghost var kept: seq<string> := [];
    while stream != ""
      invariant newContent == Write(kept, cr)
      invariant kept + Keep(Lines(stream)) == Keep(Lines(oldContent))
      decreases |stream|
    {
      KeepStep(kept, stream);
      var line := TrimRight(stream[..LineEnd(stream)]);
      stream := AfterLine(stream);
      if !EndsWith(line, MARKER) {
        newContent := newContent + (line + cr + "\n");
        WriteLast(kept, line, cr);
        kept := kept + [line];
      }
    }
    assert kept + [] == kept;
  }

  lemma KeepStep(kept: seq<string>, s: string)
    requires s != ""
    ensures var line := TrimRight(s[..LineEnd(s)]);
      kept + Keep(Lines(s)) == (if Managed(line) then kept else kept + [line]) + Keep(Lines(AfterLine(s)))
  {
    LinesStep(s);
    KeepFirst(kept, s[..LineEnd(s)], Lines(AfterLine(s)));
  }

  lemma LinesStep(s: string)
    requires s != ""
    ensures Lines(s) == [s[..LineEnd(s)]] + Lines(AfterLine(s))
  {
  }

  lemma KeepFirst(kept: seq<string>, l: string, ls: seq<string>)
    ensures var line := TrimRight(l);
      kept + Keep([l] + ls) == (if Managed(line) then kept else kept + [line]) + Keep(ls)
  {
    assert ([l] + ls)[1..] == ls;
  }

  method AppendOwn(data: seq<Entry>, content: string, cr: Ending) returns (newContent: string)
    ensures newContent == content + Write(OwnLines(data), cr)
  {
    newContent := content;
    ghost var own: seq<string> := [];
    assert data[0..] == data;
    for i := 0 to |data|
      invariant own + OwnLines(data[i..]) == OwnLines(data)
      invariant newContent == content + Write(own, cr)
    {
      OwnStep(own, data, i);
      var ok := ValidateHostname(data[i].host);
      if ok {
        var line := OwnLine(data[i]);
        newContent := newContent + (line + cr + "\n");
        Appended(content, own, line, cr);
        own := own + [line];
      }
    }
    assert own + [] == own;
  }

  lemma Appended(content: string, own: seq<string>, l: string, cr: Ending)
    ensures content + Write(own, cr) + (l + cr + "\n") == content + Write(own + [l], cr)
  {
    WriteLast(own, l, cr);
  }

  lemma OwnStep(own: seq<string>, data: seq<Entry>, i: nat)
    requires i < |data|
    ensures own + OwnLines(data[i..]) ==
      (if ValidHost(data[i].host) then own + [OwnLine(data[i])] else own) + OwnLines(data[i + 1..])
  {
    assert data[i..][1..] == data[i + 1..];
  }

  /** `data` is the map in the order of its keys. */
  method UpdateHostsFile(data: seq<Entry>, oldContent: string, cr: Ending) returns (newContent: string)
    ensures newContent == Rewrite(data, oldContent, cr)
  {
    newContent := CopyUnmanaged(oldContent, cr);
    newContent := AppendOwn(data, newContent, cr);
  }
}
