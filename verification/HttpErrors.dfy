/** What the parser refuses. */
module HttpErrors {
  import opened Prelude
  import opened Text
  import opened Http
  import opened HttpProof

  /** A part of the start line: something, on one line. */
  predicate Part(s: string) { s != "" && OneLine(s) }

  /** A start line of three parts is taken for a status line or a request line, or refused: the status must be
      a 32-bit number, the method at most 7 and the endpoint at most 256 characters long. */
  lemma StartLineIff(b: string, line: string, x: string, y: string, z: string)
    requires Part(x) && Part(y) && Part(z) && NoChar(x, ' ') && NoChar(y, ' ')
    requires line == x + " " + y + " " + z && line + Eol() <= b
    ensures var result := ParseStartLine(Parser(b, 0, START_LINE, Empty())).result;
      && (result == OK <==>
            if x == "HTTP/1.1" then AllDigits(y) && DecimalValue(y) < 0x1_0000_0000
            else z == "HTTP/1.1" && |x| <= 7 && |y| <= 256)
      && result != INCOMPLETE
  {
    MarksOfThree(b, line, x, y, z);
    StartLineSplit(b, |line|, x, y, z);
  }

  /** So is a line when there are not two blanks. */
  lemma TooFewBlanks(b: string, n: nat, k: nat)
    requires n + 1 < |b| && b[n] == '\r' && b[n + 1] == '\n' && forall i | 0 <= i < |b| && i != k :: b[i] != ' '
    ensures ParseStartLine(Parser(b, 0, START_LINE, Empty())).result == INVALID
  {
    assert b[0..] == b && OccursAt(b, Eol(), n);
    FoundSomewhere(b, Eol(), 0, n);
    var first := Find(b, " ", 0);
    if first.Some? {
      OnlyAt(b, first.value, k);
      var second := Find(b, " ", first.value + 1);
      if second.Some? { OnlyAt(b, second.value, k); }
    }
  }

  lemma OnlyAt(b: string, i: nat, k: nat)
    requires OccursAt(b, " ", i) && forall j | 0 <= j < |b| && j != k :: b[j] != ' '
    ensures i == k
  {
    assert b[i] == b[i..i + 1][0];
  }

  lemma {:induction false} FoundSomewhere(hay: string, needle: string, start: nat, at: nat)
    requires start <= at && OccursAt(hay, needle, at)
    ensures Find(hay, needle, start).Some?
    decreases at - start
  {
    if start < at && !OccursAt(hay, needle, start) { FoundSomewhere(hay, needle, start + 1, at); }
  }

  /** A header section that starts with a line without a colon is refused. */
  lemma ColonlessLine(p: Parser, line: string, rest: string)
    requires p.it <= |p.buffer| && p.buffer[p.it..] == line + Eol() + rest
    requires Part(line) && NoChar(line, ':')
    requires Find(p.buffer[p.it..], BodyDelimiter(), 0).Some?
    ensures ParseHeader(p).result == INVALID
  {
    var v := p.buffer[p.it..];
    var sep := Find(v, BodyDelimiter(), 0).value;
    assert v[..|line|] == line && v[|line|] == '\r' && v[|line| + 1] == '\n';
    forall i | 0 <= i < |line| ensures v[i] == line[i] { assert v[i] == v[..|line|][i]; }
    assert sep > 0 by { assert v[sep] == v[sep..sep + 4][0] == '\r'; }
    FindEol(v, 0, |line|);
    assert v[0..|line|] == line;
    NoColon(line);
  }

  lemma NoColon(line: string)
    requires NoChar(line, ':')
    ensures Find(line, ":", 0) == None
  {
    forall i | 0 <= i < |line| ensures !OccursAt(line, ":", i) { assert line[i..i + 1][0] == line[i]; }
    FindNone(line, ":", 0);
  }

  /** A message of more than 8192 bytes is refused. */
  lemma Overlong(p: Parser, chunk: string)
    requires p.it <= |p.buffer| && |p.buffer| + |chunk| > 8192
    ensures Parse(p, chunk).result == INVALID && Parse(p, chunk).parser.buffer == ""
  {
  }

  /** After any other refusal the parser is ready for the start of a message, with nothing left over. */
  lemma ReadyAgain(p: Parser, chunk: string)
    requires p.it <= |p.buffer| && |p.buffer| + |chunk| <= 8192 && Parse(p, chunk).result == INVALID
    ensures var q := Parse(p, chunk).parser; q.buffer == "" && q.it == 0 && q.phase == START_LINE
  {
  }

  /** The value of a header line starts two characters behind the colon, whatever the first of them is. */
  lemma ValueStart(name: string, c: char, value: string, headers: map<string, string>)
    requires NoChar(name, ':') && value != ""
    ensures ParseLine(name + ":" + [c] + value, headers) == HeaderResult(true, headers[name := value])
  {
    var line := name + ":" + [c] + value;
    assert line[..|name|] == name && line[|name|] == ':' && line[|name| + 2..] == value;
    FindChar(line, ':', 0, |name|);
  }

  /** A length that is no number stands for an empty body. */
  lemma BadLength(p: Parser)
    requires p.it <= |p.buffer| && "Content-Length" in p.msg.headers
    requires !AllDigits(p.msg.headers["Content-Length"]) || p.msg.headers["Content-Length"] == ""
    ensures ParseBody(p) == Step(OK, p.(msg := p.msg.(body := "")))
  {
  }
}
