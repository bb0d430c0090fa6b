/** HTTPMessage as the object it is, its parser state updated in place. */
module HttpObject {
  import opened Text
  import H = Http
  import P = HttpProof

  class HTTPMessage {
    var buffer: string
    var it: nat
    var phase: H.Phase
    var kind: H.Kind
    var statusCode: nat
    var verb: string
    var endpoint: string
    var headers: map<string, string>
    var body: string

    function Msg(): H.Message
      reads this
    {
      H.Message(kind, statusCode, verb, endpoint, headers, body)
    }

    function State(): H.Parser
      reads this
    {
      H.Parser(buffer, it, phase, Msg())
    }

    ghost predicate Valid()
      reads this
    {
      it <= |buffer|
    }

    constructor ()
      ensures Valid() && State() == H.Fresh()
    {
      buffer, it, phase, kind, statusCode := "", 0, H.START_LINE, H.UNDEFINED, 0;
      verb, endpoint, headers, body := "", "", map[], "";
    }

    method ParseStartLine() returns (res: H.Result)
      requires Valid()
      modifies this`it, this`kind, this`statusCode, this`verb, this`endpoint
      ensures Valid() && H.Step(res, State()) == H.ParseStartLine(old(State()))
    {
      var view := buffer[it..];
      var end := Find(view, H.Eol(), 0);
      if end.None? {
        return H.INCOMPLETE;
      }
      var space1 := Find(view, " ", 0);
      if space1.None? {
        return H.INVALID;
      }
      var space2 := Find(view, " ", space1.value + 1);
      if space2.None? {
        return H.INVALID;
      }
      res := StartLineFields(view[..space1.value], view[space1.value + 1..space2.value],
                             H.Field3(view, space2.value, end.value), it + end.value + 2);
    }

    /** The second half: what the three fields say; the cursor moves to `next` if they are right. */
    method StartLineFields(field1: string, field2: string, field3: string, next: nat) returns (res: H.Result)
      requires Valid() && next <= |buffer|
      modifies this`it, this`kind, this`statusCode, this`verb, this`endpoint
      ensures Valid() && H.Step(res, State()) == H.StartLineFields(old(State()), field1, field2, field3, next)
    {
      if field1 == "" || field2 == "" || field3 == "" {
        return H.INVALID;
      }
      if field1 == "HTTP/1.1" {
        kind := H.RESPONSE;
        var status := ParseUnsigned(field2);
        if status.None? || status.value >= 0x1_0000_0000 {
          return H.INVALID;
        }
        statusCode := status.value;
      } else if field3 == "HTTP/1.1" {
        kind := H.REQUEST;
        verb, endpoint := field1[..H.Min(|field1|, 7)], field2[..H.Min(|field2|, 256)];
        if |field1| > 7 || |field2| > 256 {
          return H.INVALID;
        }
      } else {
        return H.INVALID;
      }
      it := next;
      res := H.OK;
    }

    method ParseHeader() returns (res: H.Result)
      requires Valid()
      modifies this`it, this`headers
      ensures Valid() && H.Step(res, State()) == H.ParseHeader(old(State()))
    {
      var view := buffer[it..];
      var sep := Find(view, H.BodyDelimiter(), 0);
      if sep.None? {
        return H.INCOMPLETE;
      }
      var ok := ParseLines(view, sep.value);
      if !ok {
        return H.INVALID;
      }
      it := it + sep.value + 4;
      res := H.OK;
    }

    /** The line loop of _parseHeader. */
    method ParseLines(view: string, sep: nat) returns (ok: bool)
      modifies this`headers
      ensures H.HeaderResult(ok, headers) == H.ParseLines(view, 0, sep, old(headers))
    {
      var pos := 0;
      while pos < sep
        invariant H.ParseLines(view, pos, sep, headers) == H.ParseLines(view, 0, sep, old(headers))
        decreases |view| - pos
      {
        var end := Find(view, H.Eol(), pos);
        if end.None? {
          return false;
        }
        var line := view[pos..end.value];
        pos := end.value + 2;
        if line == "" {
          return true;
        }
        var colon := Find(line, ":", 0);
        if colon.None? {
          return false;
        }
        var value := if colon.value + 2 < |line| then line[colon.value + 2..] else "";
        headers := headers[line[..colon.value] := value];
      }
      ok := true;
    }

    method ParseBody() returns (res: H.Result)
      requires Valid()
      modifies this`body
      ensures Valid() && H.Step(res, State()) == H.ParseBody(old(State()))
    {
      if "Content-Length" !in headers {
        return H.OK;
      }
      var n := ParseUnsigned(headers["Content-Length"]);
      var contentLength := if n.Some? then n.value else 0;
      if |buffer| - it < contentLength {
        return H.INCOMPLETE;
      }
      body := buffer[it..it + contentLength];
      res := H.OK;
    }

    /** The state machine: `done` is the phase after the body. */
    method RunPhases() returns (res: H.Result)
      requires Valid()
      modifies this
      ensures Valid()
      ensures H.Step(res, State()) == match old(phase)
        case START_LINE => H.FinishStartLine(old(State()))
        case HEADER => H.FinishHeader(old(State()))
        case BODY => H.FinishBody(old(State()))
    {
      if phase == H.START_LINE {
        buffer, it := buffer[it..], 0;
        res := ParseStartLine();
        if res != H.OK {
          return;
        }
        phase := H.HEADER;
      }
      if phase == H.HEADER {
        res := ParseHeader();
        if res != H.OK {
          return;
        }
        phase := H.BODY;
      }
      res := ParseBody();
      if res == H.OK {
        phase := H.START_LINE;
      }
    }

    /** parse. After an overlong message the cursor is left dangling, so nothing is promised then. */
    method Parse(chunk: string) returns (res: H.Result)
      requires Valid()
      modifies this
      ensures H.Step(res, State()) == H.Parse(old(State()), chunk)
      ensures |old(buffer)| + |chunk| <= H.MAX_MESSAGE_LENGTH ==> Valid()
    {
      if |buffer| + |chunk| > H.MAX_MESSAGE_LENGTH {
        buffer := "";
        return H.INVALID;
      }
      buffer := buffer + chunk;
      res := RunPhases();
      if res == H.INVALID {
        buffer, it, phase := "", 0, H.START_LINE;
      }
    }

    /** encode. `order` is the order in which the header map is traversed, Content-Length included. */
    method Encode(order: seq<string>) returns (out: string)
      requires Lists(order, if body == "" then headers else headers["Content-Length" := ToDecimal(|body|)])
      modifies this`headers
      ensures headers == if body == "" then old(headers) else old(headers)["Content-Length" := ToDecimal(|body|)]
      ensures forall i | 0 <= i < |order| :: order[i] in headers
      ensures out == H.Encode(H.Request(verb, endpoint, Fields(headers, order), body))
    {
      out := verb + " " + endpoint + " HTTP/1.1\r\n";
      if body != "" {
        headers := headers["Content-Length" := ToDecimal(|body|)];
      }
      ghost var fields := Fields(headers, order);
      var lines := FieldLines(headers, order);
      out := out + lines;
      out := out + "\r\n" + body;
      assert out == verb + " " + endpoint + " " + "HTTP/1.1" + H.Eol() + H.Lines(fields) + H.Eol() + body;
    }
  }

  method FieldLines(headers: map<string, string>, order: seq<string>) returns (out: string)
    requires forall i | 0 <= i < |order| :: order[i] in headers
    ensures out == H.Lines(Fields(headers, order))
  {
    out := "";
    ghost var fields := Fields(headers, order);
    for i := 0 to |order|
      invariant out + H.Lines(fields[i..]) == H.Lines(fields)
    {
      LineStep(out, fields, i);
      out := out + (order[i] + ": " + headers[order[i]] + "\r\n");
    }
    assert fields[|order|..] == [];
  }

  lemma LineStep(out: string, fields: seq<(string, string)>, i: nat)
    requires i < |fields|
    ensures out + H.Lines(fields[i..]) == out + H.Line(fields[i]) + H.Lines(fields[i + 1..])
  {
    assert fields[i..][1..] == fields[i + 1..];
  }

  /** The header fields in the given order. */
  function Fields(headers: map<string, string>, order: seq<string>): (fs: seq<(string, string)>)
    requires forall i | 0 <= i < |order| :: order[i] in headers
  {
    seq(|order|, i requires 0 <= i < |order| => (order[i], headers[order[i]]))
  }

  /** `order` lists the keys of the map, each once. */
  ghost predicate Lists(order: seq<string>, headers: map<string, string>) {
    && (forall i, j | 0 <= i < j < |order| :: order[i] != order[j])
    && (forall k :: k in order <==> k in headers)
  }

  /** Whatever the traversal order, the written fields make up the header map again. */
  lemma FieldsBack(headers: map<string, string>, order: seq<string>)
    requires Lists(order, headers)
    ensures H.FieldMap(Fields(headers, order)) == headers
  {
    FirstFields(headers, order, |order|);
    assert Fields(headers, order)[..|order|] == Fields(headers, order);
    var m := H.FieldMap(Fields(headers, order));
    forall k ensures k in m <==> k in headers {
      if k in headers { var i :| 0 <= i < |order| && order[i] == k; }
    }
  }

  lemma {:induction false} FirstFields(headers: map<string, string>, order: seq<string>, n: nat)
    requires n <= |order| && forall i | 0 <= i < |order| :: order[i] in headers
    ensures var m := H.FieldMap(Fields(headers, order)[..n]);
      && (forall k :: k in m <==> exists i :: 0 <= i < n && order[i] == k)
      && (forall k | k in m :: k in headers && m[k] == headers[k])
  {
    if n > 0 {
      FirstFields(headers, order, n - 1);
      var fs := Fields(headers, order)[..n];
      assert fs[..n - 1] == Fields(headers, order)[..n - 1];
    }
  }

  /** From object to object: what encode writes for a message with headers h (Content-Length
      included) and any traversal order, cut into any chunks, is parsed as the same method, endpoint,
      header map and body. */
  lemma EncodedMessageArrives(verb: string, endpoint: string, h: map<string, string>, order: seq<string>,
                              body: string, chunks: seq<string>)
    requires Lists(order, h)
    requires var r := H.Request(verb, endpoint, Fields(h, order), body);
      && H.GoodHead(r) && H.Announced(r) && |H.Encode(r)| <= 8192
      && P.AllNonempty(chunks) && P.Joined(chunks) == H.Encode(r)
    ensures exists q ::
      && P.Feeds(H.Parse, H.Fresh(), chunks, P.Results(|chunks|), q)
      && q.msg == H.Message(H.REQUEST, 0, verb, endpoint, h, body)
  {
    var r := H.Request(verb, endpoint, Fields(h, order), body);
    FieldsBack(h, order);
    P.ChunksParsed(r, chunks);
    assert P.Feeds(H.Parse, H.Fresh(), chunks, P.Results(|chunks|), P.Complete(r));
  }
}
