/** The parser recovers an encoded request, however it is cut into chunks. */
module HttpProof {
  import opened Prelude
  import opened Text
  import opened Http

  // ---- start line ----

  /** Searching one character. */
  lemma FindChar(hay: string, c: char, start: nat, at: nat)
    requires start <= at < |hay| && hay[at] == c
    requires forall i | start <= i < at :: hay[i] != c
    ensures Find(hay, [c], start) == Some(at)
  {
    assert hay[at..at + 1] == [c];
    forall i | start <= i < at ensures !OccursAt(hay, [c], i) {
      assert hay[i..i + 1] == [hay[i]];
    }
    FindFirst(hay, [c], start, at);
  }

  /** The first end of line after text without line breaks. */
  lemma FindEol(hay: string, start: nat, at: nat)
    requires start <= at && at + 1 < |hay| && hay[at] == '\r' && hay[at + 1] == '\n'
    requires forall i | start <= i < at :: hay[i] != '\r'
    ensures Find(hay, Eol(), start) == Some(at)
  {
    assert hay[at..at + 2] == Eol();
    forall i | start <= i < at ensures !OccursAt(hay, Eol(), i) {
      assert hay[i..i + 2][0] == hay[i];
    }
    FindFirst(hay, Eol(), start, at);
  }

  /** No end of line is seen before its second character. */
  lemma NoEolYet(hay: string, at: nat)
    requires |hay| < at + 2 && forall i | 0 <= i < |hay| && i < at :: hay[i] != '\r'
    ensures Find(hay, Eol(), 0) == None
  {
    forall i | 0 <= i < |hay| ensures !OccursAt(hay, Eol(), i) {
      if i + 2 <= |hay| { assert hay[i..i + 2][0] == hay[i]; }
    }
    FindNone(hay, Eol(), 0);
  }

  /** Where the parts of an encoded message are. */
  lemma Layout(r: Sent)
    ensures var e, n := Encode(r), |StartLine(r)|;
      && |e| == n + 2 + |Lines(r.fields)| + 2 + |r.body|
      && e[..n] == StartLine(r) && e[n] == '\r' && e[n + 1] == '\n'
      && e[n + 2..] == Lines(r.fields) + Eol() + r.body
  {
    Sections(Encode(r), StartLine(r), Lines(r.fields), r.body);
  }

  lemma Sections(e: string, s: string, l: string, body: string)
    requires e == s + Eol() + l + Eol() + body
    ensures |e| == |s| + 2 + |l| + 2 + |body| && e[..|s|] == s && e[|s|] == '\r' && e[|s| + 1] == '\n'
    ensures e[|s| + 2..] == l + Eol() + body
  {
  }

  /** A line of three parts between blanks. */
  lemma ThreeFields(s: string, x: string, y: string, z: string)
    requires s == x + " " + y + " " + z
    ensures s[..|x|] == x && s[|x|] == ' ' && s[|x| + 1..|x| + 1 + |y|] == y && s[|x| + 1 + |y|] == ' '
    ensures s[|x| + 2 + |y|..] == z
  {
  }

  /** The first two parts hold no blanks. */
  lemma PartsAreGood(r: Sent)
    requires GoodStart(r)
    ensures First(r) != "" && OneLine(First(r)) && NoChar(First(r), ' ')
    ensures Second(r) != "" && OneLine(Second(r)) && NoChar(Second(r), ' ')
    ensures Third(r) != "" && OneLine(Third(r))
  {
    if r.Response? {
      forall i | 0 <= i < |Second(r)| ensures IsDigit(Second(r)[i]) { }
    }
  }

  lemma LineOfThree(s: string, x: string, y: string, z: string)
    requires s == x + " " + y + " " + z && OneLine(x) && OneLine(y) && OneLine(z)
    requires NoChar(x, ' ') && NoChar(y, ' ')
    ensures OneLine(s)
    ensures forall i | 0 <= i < |x| :: s[i] != ' '
    ensures forall i | |x| < i < |x| + 1 + |y| :: s[i] != ' '
  {
    ThreeFields(s, x, y, z);
    forall i | 0 <= i < |x| ensures s[i] == x[i] { assert s[i] == s[..|x|][i]; }
    forall i | |x| < i < |x| + 1 + |y| ensures s[i] == y[i - |x| - 1] {
      assert s[i] == s[|x| + 1..|x| + 1 + |y|][i - |x| - 1];
    }
    forall i | |x| + 2 + |y| <= i < |s| ensures s[i] != '\r' && s[i] != '\n' {
      assert s[i] == s[|x| + 2 + |y|..][i - |x| - 2 - |y|];
    }
  }

  lemma StartLineIsOneLine(r: Sent)
    requires GoodStart(r)
    ensures OneLine(StartLine(r))
    ensures forall i | 0 <= i < |First(r)| :: StartLine(r)[i] != ' '
    ensures forall i | |First(r)| < i < |First(r)| + 1 + |Second(r)| :: StartLine(r)[i] != ' '
  {
    PartsAreGood(r);
    LineOfThree(StartLine(r), First(r), Second(r), Third(r));
  }

  /** The message once the start line has been read. */
  function Started(r: Sent): Message {
    match r
    case Request(verb, endpoint, _, _) => Empty().(kind := REQUEST, verb := verb, endpoint := endpoint)
    case Response(status, _, _, _) => Empty().(kind := RESPONSE, statusCode := status)
  }

  lemma StartLineEarly(r: Sent, b: string)
    requires GoodStart(r) && b <= Encode(r) && |b| < |StartLine(r)| + 2
    ensures ParseStartLine(Parser(b, 0, START_LINE, Empty())) == Step(INCOMPLETE, Parser(b, 0, START_LINE, Empty()))
  {
    Layout(r);
    StartLineIsOneLine(r);
    forall i | 0 <= i < |b| && i < |StartLine(r)| ensures b[i] != '\r' {
      assert b[i] == Encode(r)[..|StartLine(r)|][i];
    }
    NoEolYet(b, |StartLine(r)|);
    assert b[0..] == b;
  }

  /** A buffer that starts with a line holding two blanks, at these positions. */
  predicate Marks(b: string, n: nat, space1: nat, space2: nat) {
    && space1 < space2 < n && n + 1 < |b|
    && b[n] == '\r' && b[n + 1] == '\n' && b[space1] == ' ' && b[space2] == ' '
    && (forall i | 0 <= i < n :: b[i] != '\r')
    && (forall i | 0 <= i < space1 :: b[i] != ' ')
    && (forall i | space1 < i < space2 :: b[i] != ' ')
  }

  lemma MarksFound(b: string, n: nat, space1: nat, space2: nat)
    requires Marks(b, n, space1, space2)
    ensures Find(b, Eol(), 0) == Some(n)
    ensures Find(b, " ", 0) == Some(space1) && Find(b, " ", space1 + 1) == Some(space2)
  {
    FindEol(b, 0, n);
    FindChar(b, ' ', 0, space1);
    FindChar(b, ' ', space1 + 1, space2);
  }

  /** A start line is taken apart at its first two blanks. */
  lemma StartLineSplit(b: string, n: nat, x: string, y: string, z: string)
    requires Marks(b, n, |x|, |x| + 1 + |y|)
    requires b[..|x|] == x && b[|x| + 1..|x| + 1 + |y|] == y && b[|x| + 2 + |y|..n] == z
    ensures ParseStartLine(Parser(b, 0, START_LINE, Empty()))
      == StartLineFields(Parser(b, 0, START_LINE, Empty()), x, y, z, n + 2)
  {
    assert b[0..] == b;
    MarksFound(b, n, |x|, |x| + 1 + |y|);
  }

  lemma MarksOfThree(b: string, s: string, x: string, y: string, z: string)
    requires s == x + " " + y + " " + z && OneLine(x) && OneLine(y) && OneLine(z)
    requires NoChar(x, ' ') && NoChar(y, ' ') && s + Eol() <= b
    ensures Marks(b, |s|, |x|, |x| + 1 + |y|)
    ensures b[..|x|] == x && b[|x| + 1..|x| + 1 + |y|] == y && b[|x| + 2 + |y|..|s|] == z
  {
    ThreeFields(s, x, y, z);
    LineOfThree(s, x, y, z);
    assert b[..|s|] == s && b[|s|] == '\r' && b[|s| + 1] == '\n';
    forall i | 0 <= i < |s| ensures b[i] == s[i] { assert b[i] == b[..|s|][i]; }
    assert b[..|x|] == s[..|x|];
    assert b[|x| + 1..|x| + 1 + |y|] == s[|x| + 1..|x| + 1 + |y|];
    assert b[|x| + 2 + |y|..|s|] == s[|x| + 2 + |y|..];
  }

  /** A request line or status line is read as what it says. */
  lemma FieldsRead(r: Sent, p: Parser, next: nat)
    requires GoodStart(r) && p.msg == Empty()
    ensures StartLineFields(p, First(r), Second(r), Third(r), next) == Step(OK, p.(it := next, msg := Started(r)))
  {
    PartsAreGood(r);
    match r
    case Request(verb, endpoint, _, _) => assert verb[..|verb|] == verb && endpoint[..|endpoint|] == endpoint;
    case Response(status, _, _, _) => DecimalRoundTrip(status);
  }

  lemma StartLineFirst(r: Sent, b: string)
    requires b <= Encode(r) && |b| >= |StartLine(r)| + 2
    ensures StartLine(r) + Eol() <= b
  {
    Layout(r);
    var n := |StartLine(r)|;
    assert Encode(r)[..n + 2] == StartLine(r) + Eol();
    assert b[..n + 2] == Encode(r)[..n + 2];
  }

  lemma StartLineDone(r: Sent, b: string)
    requires GoodStart(r) && b <= Encode(r) && |b| >= |StartLine(r)| + 2
    ensures ParseStartLine(Parser(b, 0, START_LINE, Empty()))
      == Step(OK, Parser(b, |StartLine(r)| + 2, START_LINE, Started(r)))
  {
    var n := |StartLine(r)|;
    PartsAreGood(r);
    StartLineFirst(r, b);
    MarksOfThree(b, StartLine(r), First(r), Second(r), Third(r));
    StartLineSplit(b, n, First(r), Second(r), Third(r));
    FieldsRead(r, Parser(b, 0, START_LINE, Empty()), n + 2);
  }

  /** The second part of a status line decides: digits of a 32-bit number are the status, anything else makes
      the line invalid. */
  lemma StatusLineIff(b: string, line: string, second: string, reason: string)
    requires second != "" && OneLine(second) && NoChar(second, ' ') && reason != "" && OneLine(reason)
    requires line == "HTTP/1.1" + " " + second + " " + reason && line + Eol() <= b
    ensures var p := Parser(b, 0, START_LINE, Empty()); var s := ParseStartLine(p);
      if AllDigits(second) && DecimalValue(second) < 0x1_0000_0000 then
        s == Step(OK, p.(it := |line| + 2, msg := p.msg.(kind := RESPONSE, statusCode := DecimalValue(second))))
      else s.result == INVALID
  {
    MarksOfThree(b, line, "HTTP/1.1", second, reason);
    StartLineSplit(b, |line|, "HTTP/1.1", second, reason);
    StatusRead(Parser(b, 0, START_LINE, Empty()), second, reason, |line| + 2);
  }

  lemma StatusRead(p: Parser, second: string, reason: string, next: nat)
    requires second != "" && reason != ""
    ensures var s := StartLineFields(p, "HTTP/1.1", second, reason, next);
      if AllDigits(second) && DecimalValue(second) < 0x1_0000_0000 then
        s == Step(OK, p.(it := next, msg := p.msg.(kind := RESPONSE, statusCode := DecimalValue(second))))
      else s.result == INVALID
  {
  }

  // ---- header section ----

  ghost predicate GoodFields(fields: seq<(string, string)>) {
    forall i | 0 <= i < |fields| :: GoodField(fields[i])
  }

  lemma LineShape(f: (string, string))
    requires GoodField(f)
    ensures var l := Line(f); var n := |l|;
      && n == |f.0| + |f.1| + 4 && l[n - 2] == '\r' && l[n - 1] == '\n'
      && l[..n - 2] == f.0 + ": " + f.1
      && l[..|f.0|] == f.0 && l[|f.0|] == ':' && l[|f.0| + 2..n - 2] == f.1
      && (forall i | 0 <= i < n - 2 :: l[i] != '\r')
      && (forall i | 0 <= i < |f.0| :: l[i] != ':')
  {
    var l := Line(f);
    forall i | 0 <= i < |l| - 2 ensures l[i] != '\r' {
      if i < |f.0| { assert l[i] == f.0[i]; }
      else if i >= |f.0| + 2 { assert l[i] == f.1[i - |f.0| - 2]; }
    }
    forall i | 0 <= i < |f.0| ensures l[i] != ':' { assert l[i] == f.0[i]; }
  }

  lemma DelimiterBehind(l: string, rest: string, i: nat)
    requires i >= |l|
    ensures OccursAt(l + rest, BodyDelimiter(), i) == OccursAt(rest, BodyDelimiter(), i - |l|)
  {
    var v := l + rest;
    if i + 4 <= |v| { assert v[i..i + 4] == rest[i - |l|..i - |l| + 4]; }
  }

  /** The double end of line does not occur before the end of the last header line. */
  lemma {:induction false} NoEarlyDelimiter(fields: seq<(string, string)>, tail: string, i: nat)
    requires GoodFields(fields) && i + 2 < |Lines(fields)|
    ensures !OccursAt(Lines(fields) + tail, BodyDelimiter(), i)
    decreases |fields|
  {
    var v := Lines(fields) + tail;
    var l, rest := Line(fields[0]), fields[1..];
    LineShape(fields[0]);
    assert v == l + (Lines(rest) + tail);
    if i >= |l| {
      NoEarlyDelimiter(rest, tail, i - |l|);
      DelimiterBehind(l, Lines(rest) + tail, i);
    } else {
      assert i + 4 <= |v| ==> v[i..i + 4][0] == v[i] && v[i..i + 4][2] == v[i + 2];
      if i == |l| - 2 {
        LineShape(rest[0]);
        assert v[|l|] == Lines(rest)[0] == Line(rest[0])[0];
      }
    }
  }

  lemma {:induction false} LinesEnd(fields: seq<(string, string)>)
    requires GoodFields(fields) && fields != []
    ensures var h := Lines(fields); |h| >= 4 && h[|h| - 2] == '\r' && h[|h| - 1] == '\n'
    decreases |fields|
  {
    LineShape(fields[0]);
    if |fields| > 1 {
      LinesEnd(fields[1..]);
    } else {
      assert Lines(fields[1..]) == "";
    }
  }

  lemma SamePrefix(v: string, all: string, i: nat)
    requires v <= all && i + 4 <= |v|
    ensures all[i..i + 4] == v[i..i + 4]
  {
    assert v == all[..|v|];
  }

  lemma DelimiterEarly(fields: seq<(string, string)>, body: string, v: string)
    requires GoodFields(fields) && fields != []
    requires v <= Lines(fields) + Eol() + body && |v| < |Lines(fields)| + 2
    ensures Find(v, BodyDelimiter(), 0) == None
  {
    forall i | 0 <= i < |v| ensures !OccursAt(v, BodyDelimiter(), i) { DelimiterNotAt(fields, body, v, i); }
    FindNone(v, BodyDelimiter(), 0);
  }

  lemma DelimiterNotAt(fields: seq<(string, string)>, body: string, v: string, i: nat)
    requires GoodFields(fields) && v <= Lines(fields) + Eol() + body
    requires i + 4 <= |v| ==> i + 2 < |Lines(fields)|
    ensures !OccursAt(v, BodyDelimiter(), i)
  {
    var all := Lines(fields) + Eol() + body;
    if i + 4 <= |v| {
      assert all == Lines(fields) + (Eol() + body);
      SamePrefix(v, all, i);
      NoEarlyDelimiter(fields, Eol() + body, i);
    }
  }

  lemma DelimiterDone(fields: seq<(string, string)>, body: string, v: string)
    requires GoodFields(fields) && fields != []
    requires v <= Lines(fields) + Eol() + body && |v| >= |Lines(fields)| + 2
    ensures Find(v, BodyDelimiter(), 0) == Some(|Lines(fields)| - 2)
  {
    var h, all := Lines(fields), Lines(fields) + Eol() + body;
    LinesEnd(fields);
    assert all == h + (Eol() + body);
    var at := |h| - 2;
    assert v[at..at + 4] == all[at..at + 4] == BodyDelimiter();
    forall i | 0 <= i < at ensures !OccursAt(v, BodyDelimiter(), i) { DelimiterNotAt(fields, body, v, i); }
    FindFirst(v, BodyDelimiter(), 0, at);
  }

  /** The header map after the fields, added to those already there. */
  function Adding(headers: map<string, string>, fields: seq<(string, string)>): map<string, string>
    decreases |fields|
  {
    if fields == [] then headers else Adding(headers[fields[0].0 := fields[0].1], fields[1..])
  }

  lemma OneLineParsed(f: (string, string), headers: map<string, string>)
    requires GoodField(f)
    ensures ParseLine(f.0 + ": " + f.1, headers) == HeaderResult(true, headers[f.0 := f.1])
  {
    var line := f.0 + ": " + f.1;
    FindChar(line, ':', 0, |f.0|);
    assert line[..|f.0|] == f.0 && line[|f.0| + 2..] == f.1;
  }

  /** The line loop reads the fields in order, wherever the header section starts in the view. */
  lemma {:induction false} LinesParsed(v: string, pos: nat, sep: nat, fields: seq<(string, string)>,
                                       headers: map<string, string>)
    requires GoodFields(fields) && pos + |Lines(fields)| <= |v| && v[pos..pos + |Lines(fields)|] == Lines(fields)
    requires sep + 2 == pos + |Lines(fields)|
    ensures ParseLines(v, pos, sep, headers) == HeaderResult(true, Adding(headers, fields))
    decreases |fields|
  {
    if fields != [] {
      var f, rest := fields[0], fields[1..];
      var next := pos + |Line(f)|;
      FirstOfLines(v, pos, sep, f, Lines(rest), headers);
      calc {
        ParseLines(v, pos, sep, headers);
        ParseLines(v, next, sep, headers[f.0 := f.1]);
        { LinesParsed(v, next, sep, rest, headers[f.0 := f.1]); }
        HeaderResult(true, Adding(headers[f.0 := f.1], rest));
        HeaderResult(true, Adding(headers, fields));
      }
    }
  }

  lemma FirstOfLines(v: string, pos: nat, sep: nat, f: (string, string), rest: string, headers: map<string, string>)
    requires GoodField(f) && sep + 2 == pos + |Line(f)| + |rest| <= |v|
    requires v[pos..pos + |Line(f)| + |rest|] == Line(f) + rest
    ensures var next := pos + |Line(f)|;
      && v[next..next + |rest|] == rest
      && ParseLines(v, pos, sep, headers) == ParseLines(v, next, sep, headers[f.0 := f.1])
  {
    LineInView(v, pos, Line(f), rest);
    FirstField(v, pos, sep, f, |rest|, headers);
  }

  lemma FirstField(v: string, pos: nat, sep: nat, f: (string, string), more: nat, headers: map<string, string>)
    requires GoodField(f) && sep + 2 == pos + |Line(f)| + more <= |v| && v[pos..pos + |Line(f)|] == Line(f)
    ensures ParseLines(v, pos, sep, headers) == ParseLines(v, pos + |Line(f)|, sep, headers[f.0 := f.1])
  {
    LineSize(f);
    FirstLine(v, pos, sep, f, headers);
  }

  lemma LineSize(f: (string, string))
    ensures |Line(f)| == |f.0| + |f.1| + 4
  {
  }

  /** One round of the line loop. */
  lemma FirstLine(v: string, pos: nat, sep: nat, f: (string, string), headers: map<string, string>)
    requires GoodField(f) && pos + |Line(f)| <= |v| && v[pos..pos + |Line(f)|] == Line(f) && pos < sep
    ensures ParseLines(v, pos, sep, headers) == ParseLines(v, pos + |Line(f)|, sep, headers[f.0 := f.1])
  {
    LineFound(v, pos, f);
    OneLineParsed(f, headers);
  }

  lemma LineFound(v: string, pos: nat, f: (string, string))
    requires GoodField(f) && pos + |Line(f)| <= |v| && v[pos..pos + |Line(f)|] == Line(f)
    ensures var end := pos + |Line(f)| - 2;
      pos <= end && Find(v, Eol(), pos) == Some(end) && v[pos..end] == f.0 + ": " + f.1
  {
    var l := Line(f);
    LineShape(f);
    LineInView(v, pos, l, "");
    var end := pos + |l| - 2;
    forall i | pos <= i < end ensures v[i] != '\r' { assert v[i] == l[i - pos]; }
    assert v[end] == l[|l| - 2] && v[end + 1] == l[|l| - 1];
    FindEol(v, pos, end);
    assert v[pos..end] == l[..|l| - 2];
  }

  lemma LineInView(v: string, pos: nat, l: string, rest: string)
    requires pos + |l| + |rest| <= |v| && v[pos..pos + |l| + |rest|] == l + rest
    ensures v[pos..pos + |l|] == l && v[pos + |l|..pos + |l| + |rest|] == rest
    ensures forall i | 0 <= i < |l| :: v[pos + i] == l[i]
  {
    var w := v[pos..pos + |l| + |rest|];
    assert w[..|l|] == l && w[|l|..] == rest;
    assert forall i | 0 <= i < |l| :: v[pos + i] == w[i];
  }

  lemma {:induction false} AddingIsFieldMap(fields: seq<(string, string)>, headers: map<string, string>)
    requires fields != []
    ensures var n := |fields| - 1;
      Adding(headers, fields) == Adding(headers, fields[..n])[fields[n].0 := fields[n].1]
    decreases |fields|
  {
    if |fields| > 1 {
      var rest := fields[1..];
      AddingIsFieldMap(rest, headers[fields[0].0 := fields[0].1]);
      assert fields[..|fields| - 1][1..] == rest[..|rest| - 1];
    }
  }

  lemma {:induction false} FieldMapIsAdding(fields: seq<(string, string)>)
    ensures FieldMap(fields) == Adding(map[], fields)
    decreases |fields|
  {
    if fields != [] {
      FieldMapIsAdding(fields[..|fields| - 1]);
      AddingIsFieldMap(fields, map[]);
    }
  }

  function Headed(r: Sent): Message { Started(r).(headers := FieldMap(r.fields)) }

  function HeaderAt(r: Sent): nat { |StartLine(r)| + 2 }
  function BodyAt(r: Sent): nat { HeaderAt(r) + |Lines(r.fields)| + 2 }

  lemma Sizes(r: Sent)
    ensures HeaderAt(r) + 2 <= BodyAt(r) && |Encode(r)| == BodyAt(r) + |r.body|
  {
  }

  /** What is left of the encoded request behind the start line. */
  lemma HeaderView(r: Sent, b: string)
    requires b <= Encode(r) && |b| >= HeaderAt(r)
    ensures b[HeaderAt(r)..] <= Lines(r.fields) + Eol() + r.body
  {
    Layout(r);
    var at, e := HeaderAt(r), Encode(r);
    assert b[at..] == e[at..][..|b| - at];
  }

  lemma HeaderEarly(r: Sent, b: string)
    requires GoodHead(r) && b <= Encode(r) && HeaderAt(r) <= |b| < BodyAt(r)
    ensures var p := Parser(b, HeaderAt(r), HEADER, Started(r)); ParseHeader(p) == Step(INCOMPLETE, p)
  {
    HeaderView(r, b);
    DelimiterEarly(r.fields, r.body, b[HeaderAt(r)..]);
  }

  lemma HeaderDone(r: Sent, b: string)
    requires GoodHead(r) && b <= Encode(r) && BodyAt(r) <= |b|
    ensures ParseHeader(Parser(b, HeaderAt(r), HEADER, Started(r)))
      == Step(OK, Parser(b, BodyAt(r), HEADER, Headed(r)))
  {
    HeaderView(r, b);
    ViewDone(r, Parser(b, HeaderAt(r), HEADER, Started(r)), b[HeaderAt(r)..]);
  }

  lemma ViewDone(r: Sent, p: Parser, v: string)
    requires GoodHead(r) && v <= Lines(r.fields) + Eol() + r.body && |v| >= |Lines(r.fields)| + 2
    requires p.it <= |p.buffer| && v == p.buffer[p.it..] && p.msg.headers == map[]
    ensures ParseHeader(p) ==
      Step(OK, p.(msg := p.msg.(headers := FieldMap(r.fields)), it := p.it + |Lines(r.fields)| + 2))
  {
    var h := Lines(r.fields);
    LinesEnd(r.fields);
    assert Find(v, BodyDelimiter(), 0) == Some(|h| - 2) by { DelimiterDone(r.fields, r.body, v); }
    assert ParseLines(v, 0, |h| - 2, map[]) == HeaderResult(true, FieldMap(r.fields)) by {
      HeadOf(v, h, Eol(), r.body);
      ViewParsed(v, h, r.fields);
    }
    HeaderFound(p, |h| - 2, FieldMap(r.fields));
  }

  lemma HeadOf(v: string, h: string, eol: string, rest: string)
    requires |h| <= |v| && v <= h + eol + rest
    ensures v[0..|h|] == h
  {
  }

  lemma HeaderFound(p: Parser, sep: nat, headers: map<string, string>)
    requires p.it <= |p.buffer| && Find(p.buffer[p.it..], BodyDelimiter(), 0) == Some(sep)
    requires ParseLines(p.buffer[p.it..], 0, sep, p.msg.headers) == HeaderResult(true, headers)
    ensures ParseHeader(p) == Step(OK, p.(msg := p.msg.(headers := headers), it := p.it + sep + 4))
  {
  }

  lemma ViewParsed(v: string, h: string, fields: seq<(string, string)>)
    requires GoodFields(fields) && h == Lines(fields) && 4 <= |h| <= |v| && v[0..|h|] == h
    ensures ParseLines(v, 0, |h| - 2, map[]) == HeaderResult(true, FieldMap(fields))
  {
    calc {
      ParseLines(v, 0, |h| - 2, map[]);
      { LinesParsed(v, 0, |h| - 2, fields, map[]); }
      HeaderResult(true, Adding(map[], fields));
      { FieldMapIsAdding(fields); }
      HeaderResult(true, FieldMap(fields));
    }
  }

  /** What the body phase makes of the part of a body that is there, when its length is announced. */
  lemma BodyIs(p: Parser, e: string, body: string)
    requires p.it <= |p.buffer| && p.buffer <= e && |e| == p.it + |body| && e[p.it..] == body && p.msg.body == ""
    requires var n := ContentLength(p.msg.headers); if n.None? then body == "" else n.value == |body|
    ensures ParseBody(p) == if |p.buffer| < |e| then Step(INCOMPLETE, p) else Step(OK, p.(msg := p.msg.(body := body)))
  {
    if |p.buffer| == |e| {
      assert p.buffer == e;
      assert e[p.it..p.it + |body|] == e[p.it..];
    }
  }

  lemma BodyBehind(r: Sent)
    ensures |Encode(r)| == BodyAt(r) + |r.body| && Encode(r)[BodyAt(r)..] == r.body
  {
    Layout(r);
    assert Encode(r)[BodyAt(r)..] == Encode(r)[HeaderAt(r)..][|Lines(r.fields)| + 2..];
  }

  lemma BodyParsed(r: Sent, b: string)
    requires WellFormed(r) && b <= Encode(r) && BodyAt(r) <= |b|
    ensures var p := Parser(b, BodyAt(r), BODY, Headed(r));
      ParseBody(p) == if |b| < |Encode(r)| then Step(INCOMPLETE, p)
                      else Step(OK, p.(msg := p.msg.(body := r.body)))
  {
    BodyBehind(r);
    BodyIs(Parser(b, BodyAt(r), BODY, Headed(r)), Encode(r), r.body);
  }

  // ---- any sequence of chunks ----

  /** The parser after the first k bytes of the encoded request, while it is incomplete. */
  function StateAfter(r: Sent, k: nat): Parser
    requires k <= |Encode(r)|
  {
    var b := Encode(r)[..k];
    if k < HeaderAt(r) then Parser(b, 0, START_LINE, Empty())
    else if k < BodyAt(r) then Parser(b, HeaderAt(r), HEADER, Started(r))
    else Parser(b, BodyAt(r), BODY, Headed(r))
  }

  /** The parser once the whole request has arrived. */
  function Complete(r: Sent): Parser {
    Parser(Encode(r), BodyAt(r), START_LINE, Headed(r).(body := r.body))
  }

  function Outcome(r: Sent, j: nat): Step
    requires j <= |Encode(r)|
  {
    if j < |Encode(r)| then Step(INCOMPLETE, StateAfter(r, j)) else Step(OK, Complete(r))
  }

  lemma FromBody(r: Sent, j: nat)
    requires WellFormed(r) && BodyAt(r) <= j <= |Encode(r)|
    ensures FinishBody(Parser(Encode(r)[..j], BodyAt(r), BODY, Headed(r))) == Outcome(r, j)
  {
    BodyParsed(r, Encode(r)[..j]);
    assert j == |Encode(r)| ==> Encode(r)[..j] == Encode(r);
  }

  lemma FromHeader(r: Sent, j: nat)
    requires WellFormed(r) && HeaderAt(r) <= j <= |Encode(r)|
    ensures FinishHeader(Parser(Encode(r)[..j], HeaderAt(r), HEADER, Started(r))) == Outcome(r, j)
  {
    Sizes(r);
    if j < BodyAt(r) {
      HeaderEarly(r, Encode(r)[..j]);
    } else {
      HeaderDone(r, Encode(r)[..j]);
      FromBody(r, j);
    }
  }

  lemma FromStartEarly(r: Sent, j: nat)
    requires WellFormed(r) && j < HeaderAt(r) && j <= |Encode(r)|
    ensures FinishStartLine(Parser(Encode(r)[..j], 0, START_LINE, Empty())) == Outcome(r, j)
  {
    Sizes(r);
    var b := Encode(r)[..j];
    assert b[0..] == b;
    StartLineEarly(r, b);
  }

  lemma FromStartDone(r: Sent, j: nat)
    requires WellFormed(r) && HeaderAt(r) <= j <= |Encode(r)|
    ensures FinishStartLine(Parser(Encode(r)[..j], 0, START_LINE, Empty())) == Outcome(r, j)
  {
    var b := Encode(r)[..j];
    assert b[0..] == b;
    StartLineDone(r, b);
    FromHeader(r, j);
  }

  /** One call of the parser that finds nothing wrong. */
  lemma OneCall(p: Parser, chunk: string, b: string, s: Step)
    requires p.it <= |p.buffer| && b == p.buffer + chunk && |b| <= MAX_MESSAGE_LENGTH && s.result != INVALID
    requires var q := p.(buffer := b);
      s == match p.phase case START_LINE => FinishStartLine(q) case HEADER => FinishHeader(q) case BODY => FinishBody(q)
    ensures Parse(p, chunk) == s
  {
  }

  lemma Outcomes(r: Sent, j: nat)
    requires j <= |Encode(r)|
    ensures Outcome(r, j).result != INVALID
  {
  }

  lemma StepFromStart(r: Sent, k: nat, j: nat, chunk: string)
    requires WellFormed(r) && k < HeaderAt(r) && k < j <= |Encode(r)| <= MAX_MESSAGE_LENGTH
    requires Encode(r)[..k] + chunk == Encode(r)[..j]
    ensures Parse(Parser(Encode(r)[..k], 0, START_LINE, Empty()), chunk) == Outcome(r, j)
  {
    Outcomes(r, j);
    if j < HeaderAt(r) { FromStartEarly(r, j); } else { FromStartDone(r, j); }
    OneCall(Parser(Encode(r)[..k], 0, START_LINE, Empty()), chunk, Encode(r)[..j], Outcome(r, j));
  }

  lemma StepFromHeader(r: Sent, k: nat, j: nat, chunk: string)
    requires WellFormed(r) && HeaderAt(r) <= k < j <= |Encode(r)| <= MAX_MESSAGE_LENGTH
    requires Encode(r)[..k] + chunk == Encode(r)[..j]
    ensures Parse(Parser(Encode(r)[..k], HeaderAt(r), HEADER, Started(r)), chunk) == Outcome(r, j)
  {
    Outcomes(r, j);
    FromHeader(r, j);
    OneCall(Parser(Encode(r)[..k], HeaderAt(r), HEADER, Started(r)), chunk, Encode(r)[..j], Outcome(r, j));
  }

  lemma StepFromBody(r: Sent, k: nat, j: nat, chunk: string)
    requires WellFormed(r) && BodyAt(r) <= k < j <= |Encode(r)| <= MAX_MESSAGE_LENGTH
    requires Encode(r)[..k] + chunk == Encode(r)[..j]
    ensures Parse(Parser(Encode(r)[..k], BodyAt(r), BODY, Headed(r)), chunk) == Outcome(r, j)
  {
    Outcomes(r, j);
    FromBody(r, j);
    OneCall(Parser(Encode(r)[..k], BodyAt(r), BODY, Headed(r)), chunk, Encode(r)[..j], Outcome(r, j));
  }

  lemma Prefixes(e: string, k: nat, j: nat)
    requires k <= j <= |e|
    ensures e[..k] + e[k..j] == e[..j]
  {
  }

  lemma ParseStep(r: Sent, k: nat, j: nat)
    requires WellFormed(r) && k < j <= |Encode(r)| <= MAX_MESSAGE_LENGTH
    ensures StateAfter(r, k).it <= k
    ensures Parse(StateAfter(r, k), Encode(r)[k..j]) == Outcome(r, j)
  {
    var chunk := Encode(r)[k..j];
    Sizes(r);
    Prefixes(Encode(r), k, j);
    if k < HeaderAt(r) {
      StepFromStart(r, k, j, chunk);
    } else if k < BodyAt(r) {
      StepFromHeader(r, k, j, chunk);
    } else {
      StepFromBody(r, k, j, chunk);
    }
  }

  function Joined(chunks: seq<string>): string {
    if chunks == [] then "" else chunks[0] + Joined(chunks[1..])
  }

  /** Feeding the chunks one after the other to a parser in state p gives these results and ends in q. */
  ghost predicate Feeds(
      parse: (Parser, string) -> Step, p: Parser, chunks: seq<string>, results: seq<Result>, q: Parser)
    decreases |chunks|
  {
    if chunks == [] then results == [] && p == q
    else
      && |results| == |chunks|
      && var s := parse(p, chunks[0]);
        s.result == results[0] && Feeds(parse, s.parser, chunks[1..], results[1..], q)
  }

  function Results(n: nat): seq<Result>
    requires n > 0
  {
    seq(n - 1, _ => INCOMPLETE) + [OK]
  }

  ghost predicate AllNonempty(chunks: seq<string>) {
    forall i {:trigger chunks[i]} | 0 <= i < |chunks| :: chunks[i] != ""
  }

  lemma ResultsShape(n: nat)
    requires n > 0
    ensures n == 1 ==> Results(n) == [OK] + []
    ensures n > 1 ==> Results(n) == [INCOMPLETE] + Results(n - 1)
  {
  }

  /** The first chunk of what remains, and the others. */
  lemma SplitChunks(chunks: seq<string>, e: string, k: nat)
    requires k < |e| && AllNonempty(chunks) && Joined(chunks) == e[k..]
    ensures chunks != [] && AllNonempty(chunks[1..])
    ensures var j := k + |chunks[0]|; k < j <= |e| && chunks[0] == e[k..j] && Joined(chunks[1..]) == e[j..]
    ensures k + |chunks[0]| == |e| ==> chunks[1..] == []
  {
    var c, rest := chunks[0], chunks[1..];
    assert Joined(chunks)[..|c|] == c && Joined(chunks)[|c|..] == Joined(rest);
    forall i | 0 <= i < |rest| ensures rest[i] != "" { assert rest[i] == chunks[i + 1]; }
    assert rest != [] ==> |Joined(rest)| >= |rest[0]| > 0;
  }

  /** One more chunk in front. */
  lemma FeedsCons(parse: (Parser, string) -> Step, p: Parser, chunk: string, chunks: seq<string>, res: Result,
                  results: seq<Result>, q: Parser)
    requires |results| == |chunks|
    requires parse(p, chunk).result == res && Feeds(parse, parse(p, chunk).parser, chunks, results, q)
    ensures Feeds(parse, p, [chunk] + chunks, [res] + results, q)
  {
    assert ([chunk] + chunks)[1..] == chunks && ([res] + results)[1..] == results;
  }

  /** From the state after k bytes, the bytes up to j lead to the state after j bytes, or complete. */
  ghost predicate Advances(parse: (Parser, string) -> Step, e: string, st: nat -> Parser, q: Parser, k: nat, j: nat)
    requires k <= j <= |e|
  {
    parse(st(k), e[k..j]) == if j < |e| then Step(INCOMPLETE, st(j)) else Step(OK, q)
  }

  /** If any stretch of a text advances the parser like that, so does any sequence of chunks of it. */
  lemma {:induction false} FeedRest(parse: (Parser, string) -> Step, e: string, st: nat -> Parser, q: Parser,
                                    k: nat, chunks: seq<string>)
    requires forall i: nat, j: nat | i < j <= |e| :: Advances(parse, e, st, q, i, j)
    requires k < |e| && AllNonempty(chunks) && Joined(chunks) == e[k..]
    ensures chunks != [] && Feeds(parse, st(k), chunks, Results(|chunks|), q)
    decreases |chunks|
  {
    SplitChunks(chunks, e, k);
    var rest, j := chunks[1..], k + |chunks[0]|;
    assert Advances(parse, e, st, q, k, j);
    ResultsShape(|chunks|);
    assert chunks == [chunks[0]] + rest;
    if j < |e| {
      FeedRest(parse, e, st, q, j, rest);
      FeedsCons(parse, st(k), chunks[0], rest, INCOMPLETE, Results(|rest|), q);
    } else {
      FeedsCons(parse, st(k), chunks[0], rest, OK, [], q);
    }
  }

  /** For every well-formed request of at most 8192 encoded bytes and every way of cutting its encoding
      into nonempty chunks: a fresh parser answers INCOMPLETE to all chunks but the last and OK to
      the last, and then holds the same method, endpoint, header map and body. */
  lemma ChunksParsed(r: Sent, chunks: seq<string>)
    requires WellFormed(r) && |Encode(r)| <= 8192
    requires AllNonempty(chunks) && Joined(chunks) == Encode(r)
    ensures chunks != [] && Feeds(Parse, Fresh(), chunks, Results(|chunks|), Complete(r))
    ensures Complete(r).msg == match r
      case Request(verb, endpoint, fields, body) => Message(REQUEST, 0, verb, endpoint, FieldMap(fields), body)
      case Response(status, _, fields, body) => Message(RESPONSE, status, "", "", FieldMap(fields), body)
  {
    Sizes(r);
    AllAdvance(r);
    assert Encode(r)[0..] == Encode(r);
    FeedRest(Parse, Encode(r), States(r), Complete(r), 0, chunks);
    FirstState(r);
  }

  /** The parser's state after each prefix. */
  function States(r: Sent): nat -> Parser
    requires WellFormed(r)
  {
    (k: nat) => if k <= |Encode(r)| then StateAfter(r, k) else Fresh()
  }

  lemma FirstState(r: Sent)
    requires WellFormed(r)
    ensures States(r)(0) == Fresh()
  {
    Sizes(r);
  }

  lemma AllAdvance(r: Sent)
    requires WellFormed(r) && |Encode(r)| <= MAX_MESSAGE_LENGTH
    ensures forall i: nat, j: nat | i < j <= |Encode(r)| ::
      Advances(Parse, Encode(r), States(r), Complete(r), i, j)
  {
    forall i: nat, j: nat | i < j <= |Encode(r)| ensures Advances(Parse, Encode(r), States(r), Complete(r), i, j) {
      ParseStep(r, i, j);
    }
  }

  // ---- exactly which encoded requests complete ----

  /** Every request that encode can write from good parts is parsed, if and only if it has a header
      field and, when it has no body, no field announces one. Without any field the end of the start
      line is consumed before the empty line is looked for, so that line is never found. */
  lemma CompletesIff(r: Sent)
    requires GoodStart(r) && GoodFields(r.fields) && Encodable(r) && |Encode(r)| <= 8192
    ensures Parse(Fresh(), Encode(r)).result == OK <==>
      r.fields != [] && (r.body == "" ==> ContentLength(FieldMap(r.fields)) in {None, Some(0)})
  {
    DecimalRoundTrip(|r.body|);
    if r.fields == [] {
      FieldlessIncomplete(r);
    } else if Announced(r) {
      AnnouncedComplete(r);
    } else {
      UnannouncedIncomplete(r);
    }
  }

  lemma WholeMessage(r: Sent)
    requires GoodStart(r) && |Encode(r)| <= MAX_MESSAGE_LENGTH
    ensures HeaderAt(r) <= |Encode(r)|
    ensures Parse(Fresh(), Encode(r)).result == FinishHeader(Parser(Encode(r), HeaderAt(r), HEADER, Started(r))).result
  {
    Sizes(r);
    StartLineDone(r, Encode(r));
    FirstChunk(Encode(r), HeaderAt(r), Started(r));
  }

  lemma FirstChunk(e: string, at: nat, m: Message)
    requires |e| <= MAX_MESSAGE_LENGTH && at <= |e|
    requires ParseStartLine(Parser(e, 0, START_LINE, Empty())) == Step(OK, Parser(e, at, START_LINE, m))
    ensures Parse(Fresh(), e).result == FinishHeader(Parser(e, at, HEADER, m)).result
  {
    assert "" + e == e && e[0..] == e;
    assert FinishStartLine(Parser(e, 0, START_LINE, Empty())) == FinishHeader(Parser(e, at, HEADER, m));
  }

  lemma AnnouncedComplete(r: Sent)
    requires WellFormed(r) && |Encode(r)| <= MAX_MESSAGE_LENGTH
    ensures Parse(Fresh(), Encode(r)).result == OK
  {
    var e := Encode(r);
    assert e[..|e|] == e;
    WholeMessage(r);
    FromHeader(r, |e|);
  }

  lemma UnannouncedIncomplete(r: Sent)
    requires GoodHead(r) && |Encode(r)| <= MAX_MESSAGE_LENGTH && r.body == "" && !Announced(r)
    ensures Parse(Fresh(), Encode(r)).result == INCOMPLETE
  {
    Sizes(r);
    WholeMessage(r);
    HeaderDone(r, Encode(r));
  }

  lemma FieldlessHeader(r: Sent)
    requires r.fields == [] && r.body == ""
    ensures HeaderAt(r) <= |Encode(r)|
    ensures var q := Parser(Encode(r), HeaderAt(r), HEADER, Started(r)); ParseHeader(q) == Step(INCOMPLETE, q)
  {
    Layout(r);
    assert Encode(r)[HeaderAt(r)..] == Eol();
    FindNone(Eol(), BodyDelimiter(), 0);
  }

  lemma FieldlessIncomplete(r: Sent)
    requires GoodStart(r) && |Encode(r)| <= MAX_MESSAGE_LENGTH && r.fields == [] && r.body == ""
    ensures Parse(Fresh(), Encode(r)).result == INCOMPLETE
  {
    WholeMessage(r);
    FieldlessHeader(r);
  }
}
