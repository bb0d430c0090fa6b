/** HTTPMessage: encode and the resumable parser (RFC 9112, sections 2.1, 3, 5 and 6). */
module Http {
  import opened Prelude
  import opened Text

  const MAX_MESSAGE_LENGTH: nat := 8192

  datatype Result = OK | INCOMPLETE | INVALID
  datatype Phase = START_LINE | HEADER | BODY
  datatype Kind = UNDEFINED | REQUEST | RESPONSE

  /** The public fields. `verb` is request.method. */
  datatype Message = Message(
    kind: Kind, statusCode: nat, verb: string, endpoint: string, headers: map<string, string>, body: string)

  /** The parser object; `it` is the cursor as an offset into the buffer. */
  datatype Parser = Parser(buffer: string, it: nat, phase: Phase, msg: Message)

  function Empty(): Message { Message(UNDEFINED, 0, "", "", map[], "") }

  function Fresh(): Parser { Parser("", 0, START_LINE, Empty()) }

  function Eol(): string { "\r\n" }
  function BodyDelimiter(): string { "\r\n\r\n" }

  function Min(a: nat, b: nat): nat { if a < b then a else b }

  // ---- the three steps ----

  datatype Step = Step(result: Result, parser: Parser)

  /** substr(from, to - from) of the start line; a negative length wraps around and means "to the end". */
  function Field3(view: string, space2: nat, end: nat): string
    requires space2 < |view| && end <= |view|
  {
    if space2 < end then view[space2 + 1..end] else view[space2 + 1..]
  }

  function StartLineFields(p: Parser, f1: string, f2: string, f3: string, next: nat): Step {
    if f1 == "" || f2 == "" || f3 == "" then Step(INVALID, p)
    else if f1 == "HTTP/1.1" then
      var status := ParseUnsigned(f2);
      var m := p.msg.(kind := RESPONSE);
      if status.None? || status.value >= 0x1_0000_0000 then Step(INVALID, p.(msg := m))
      else Step(OK, p.(it := next, msg := m.(statusCode := status.value)))
    else if f3 == "HTTP/1.1" then
      var m := p.msg.(kind := REQUEST, verb := f1[..Min(|f1|, 7)], endpoint := f2[..Min(|f2|, 256)]);
      if |f1| > 7 || |f2| > 256 then Step(INVALID, p.(msg := m)) else Step(OK, p.(it := next, msg := m))
    else Step(INVALID, p)
  }

  function ParseStartLine(p: Parser): Step
    requires p.it <= |p.buffer|
  {
    var view := p.buffer[p.it..];
    var end := Find(view, Eol(), 0);
    if end.None? then Step(INCOMPLETE, p)
    else
      var space1 := Find(view, " ", 0);
      if space1.None? then Step(INVALID, p)
      else
        var space2 := Find(view, " ", space1.value + 1);
        if space2.None? then Step(INVALID, p)
        else
          StartLineFields(p, view[..space1.value], view[space1.value + 1..space2.value],
                          Field3(view, space2.value, end.value), p.it + end.value + 2)
  }

  datatype HeaderResult = HeaderResult(ok: bool, headers: map<string, string>)

  /** One header line; text after the colon and one more character is the value. */
  function ParseLine(line: string, headers: map<string, string>): HeaderResult {
    var colon := Find(line, ":", 0);
    if colon.None? then HeaderResult(false, headers)
    else
      var value := if colon.value + 2 < |line| then line[colon.value + 2..] else "";
      HeaderResult(true, headers[line[..colon.value] := value])
  }

  /** The line loop of _parseHeader, from position pos. */
  function ParseLines(view: string, pos: nat, sep: nat, headers: map<string, string>): HeaderResult
    decreases |view| - pos
  {
    if pos >= sep then HeaderResult(true, headers)
    else
      var end := Find(view, Eol(), pos);
      if end.None? then HeaderResult(false, headers)
      else
        var line := view[pos..end.value];
        if line == "" then HeaderResult(true, headers)
        else
          var r := ParseLine(line, headers);
          if !r.ok then r else ParseLines(view, end.value + 2, sep, r.headers)
  }

  function ParseHeader(p: Parser): Step
    requires p.it <= |p.buffer|
  {
    var view := p.buffer[p.it..];
    var sep := Find(view, BodyDelimiter(), 0);
    if sep.None? then Step(INCOMPLETE, p)
    else
      var r := ParseLines(view, 0, sep.value, p.msg.headers);
      var q := p.(msg := p.msg.(headers := r.headers));
      if !r.ok then Step(INVALID, q) else Step(OK, q.(it := p.it + sep.value + 4))
  }

  /** A value that is no number counts as zero. */
  function ContentLength(headers: map<string, string>): Option<nat> {
    if "Content-Length" !in headers then None
    else
      var n := ParseUnsigned(headers["Content-Length"]);
      if n.Some? then n else Some(0)
  }

  function ParseBody(p: Parser): Step
    requires p.it <= |p.buffer|
  {
    var n := ContentLength(p.msg.headers);
    if n.None? then Step(OK, p)
    else if |p.buffer| - p.it < n.value then Step(INCOMPLETE, p)
    else Step(OK, p.(msg := p.msg.(body := p.buffer[p.it..p.it + n.value])))
  }

  // ---- the loop ----

  function FinishBody(p: Parser): Step
    requires p.it <= |p.buffer|
  {
    var s := ParseBody(p);
    if s.result == OK then Step(OK, s.parser.(phase := START_LINE)) else s
  }

  function FinishHeader(p: Parser): Step
    requires p.it <= |p.buffer|
  {
    var s := ParseHeader(p);
    if s.result == OK then FinishBody(s.parser.(phase := BODY)) else s
  }

  function FinishStartLine(p: Parser): Step
    requires p.it <= |p.buffer|
  {
    var q := p.(buffer := p.buffer[p.it..], it := 0);
    var s := ParseStartLine(q);
    if s.result == OK then FinishHeader(s.parser.(phase := HEADER)) else s
  }

  /** parse: append the chunk and go on as far as possible. After an overlong message the buffer is
      emptied but neither the cursor nor the phase is reset; a call with the cursor beyond the buffer
      has no defined result in the source and leaves this parser as it is. */
  function Parse(p: Parser, chunk: string): Step {
    if p.it > |p.buffer| then Step(INVALID, p)
    else if |p.buffer| + |chunk| > MAX_MESSAGE_LENGTH then Step(INVALID, p.(buffer := ""))
    else
      var q := p.(buffer := p.buffer + chunk);
      var s := match q.phase
        case START_LINE => FinishStartLine(q)
        case HEADER => FinishHeader(q)
        case BODY => FinishBody(q);
      if s.result == INVALID then Step(INVALID, s.parser.(buffer := "", it := 0, phase := START_LINE)) else s
  }

  // ---- encode ----

  /** A message on its way, with its header fields in the order in which they are written. */
  datatype Sent =
    | Request(verb: string, endpoint: string, fields: seq<(string, string)>, body: string)
    | Response(status: nat, reason: string, fields: seq<(string, string)>, body: string)

  /** The three parts of the start line. */
  function First(r: Sent): string { if r.Request? then r.verb else "HTTP/1.1" }
  function Second(r: Sent): string { if r.Request? then r.endpoint else ToDecimal(r.status) }
  function Third(r: Sent): string { if r.Request? then "HTTP/1.1" else r.reason }

  function Line(f: (string, string)): string { f.0 + ": " + f.1 + Eol() }

  function Lines(fields: seq<(string, string)>): string {
    if fields == [] then "" else Line(fields[0]) + Lines(fields[1..])
  }

  function StartLine(r: Sent): string { First(r) + " " + Second(r) + " " + Third(r) }

  function Encode(r: Sent): string {
    StartLine(r) + Eol() + Lines(r.fields) + Eol() + r.body
  }

  function FieldMap(fields: seq<(string, string)>): map<string, string> {
    if fields == [] then map[] else FieldMap(fields[..|fields| - 1])[fields[|fields| - 1].0 := fields[|fields| - 1].1]
  }

  // ---- well-formed messages ----

  predicate OneLine(s: string) { forall i | 0 <= i < |s| :: s[i] != '\r' && s[i] != '\n' }
  predicate NoChar(s: string, c: char) { forall i | 0 <= i < |s| :: s[i] != c }

  predicate GoodField(f: (string, string)) { OneLine(f.0) && OneLine(f.1) && NoChar(f.0, ':') }

  /** A method of 1 to 7 and an endpoint of 1 to 256 characters, without blanks; or a 32-bit status and a
      reason. */
  predicate GoodStart(r: Sent) {
    match r
    case Request(verb, endpoint, _, _) =>
      && 1 <= |verb| <= 7 && OneLine(verb) && NoChar(verb, ' ')
      && 1 <= |endpoint| <= 256 && OneLine(endpoint) && NoChar(endpoint, ' ')
    case Response(status, reason, _, _) => status < 0x1_0000_0000 && reason != "" && OneLine(reason)
  }

  /** A good start line and at least one header field. */
  predicate GoodHead(r: Sent) {
    GoodStart(r) && r.fields != [] && forall i | 0 <= i < |r.fields| :: GoodField(r.fields[i])
  }

  /** The length that the header announces is that of the body; nothing announced means no body. */
  predicate Announced(r: Sent) {
    var n := ContentLength(FieldMap(r.fields));
    if n.None? then r.body == "" else n.value == |r.body|
  }

  predicate WellFormed(r: Sent) { GoodHead(r) && Announced(r) }

  /** What encode sees to: a body comes with its own length in the header. */
  predicate Encodable(r: Sent) {
    var h := FieldMap(r.fields);
    r.body != "" ==> "Content-Length" in h && h["Content-Length"] == ToDecimal(|r.body|)
  }
}
