/** Message::parse, Message::encode and the frame loop, step by step. */
module WebSocketObject {
  import opened Prelude
  import opened WebSocketFrames
  import opened WebSocketSegments

  method ReadLengthBytes(buf: seq<byte>, at: nat, count: nat, signedChar: bool) returns (length: nat)
    requires at + count <= |buf|
    ensures length == ReadLength(buf[at..at + count], signedChar)
  {
    length := 0;
    for i := 0 to count
      invariant length == ReadLength(buf[at..at + i], signedChar)
    {
      var b := buf[at + i];
      assert buf[at..at + i + 1][..i] == buf[at..at + i];
      length := if signedChar && b >= 128 then 0x1_0000_0000_0000_0000 - 256 + b
                else length * 256 % 0x1_0000_0000_0000_0000 + b;
    }
  }

  /** Flip the data with the key, byte by byte. */
  method ApplyMask(data: array<byte>, key: Key)
    modifies data
    ensures data[..] == Mask(old(data[..]), key)
  {
    for i := 0 to data.Length
      invariant forall k | 0 <= k < i :: data[k] == Xor(old(data[k]), key[k % 4])
      invariant forall k | i <= k < data.Length :: data[k] == old(data[k])
    {
      data[i] := Xor(data[i], key[i % 4]);
    }
  }

  method ParseLength(buf: seq<byte>, signedChar: bool) returns (r: Option<(nat, nat)>)
    requires |buf| >= 2
    ensures r == LengthField(buf, signedChar)
  {
    var small := buf[1] % 128;
    if small < 126 {
      return Some((2, small));
    }
    if small == 126 && |buf| >= 4 {
      var length := ReadLengthBytes(buf, 2, 2, signedChar);
      return Some((4, length));
    }
    if small == 127 && |buf| >= 10 {
      var length := ReadLengthBytes(buf, 2, 8, signedChar);
      return Some((10, length));
    }
    r := None;
  }

  method ParseBody(buf: seq<byte>, at: nat, length: nat) returns (r: Outcome)
    requires |buf| >= 2 && at <= |buf|
    ensures r == Body(buf, at, length)
  {
    var it, masked := at, buf[1] >= 128;
    var key: Key := [0, 0, 0, 0];
    if masked {
      if |buf| - it < 4 {
        return Rejected;
      }
      key := buf[it..it + 4];
      it := it + 4;
    }
    if |buf| - it < length {
      return Rejected;
    }
    if length > DATA_CAPACITY {
      return Overflow;
    }
    var raw := buf[it..it + length];
    var data := new byte[length](i requires 0 <= i < length => raw[i]);
    assert data[..] == raw;
    if masked {
      ApplyMask(data, key);
    }
    r := Parsed(it + length, Message(true, false, false, false, buf[0] % 16, masked, data[..]));
  }

  method ParseMessage(buf: seq<byte>, signedChar: bool) returns (r: Outcome)
    ensures r == Parse(buf, signedChar)
  {
    if |buf| < 2 {
      return Rejected;
    }
    if buf[0] / 16 % 8 != 0 {
      return Rejected;
    }
    if buf[0] < 128 {
      return Rejected;
    }
    var f := ParseLength(buf, signedChar);
    if f.None? {
      return Rejected;
    }
    r := ParseBody(buf, f.value.0, f.value.1);
  }

  /** `key` is the fresh random masking key. */
  method EncodeMessage(m: Message, key: Key) returns (ok: bool, buffer: seq<byte>)
    requires Holds(m)
    ensures ok && buffer == Encode(m, key)
  {
    FitsTransport(m, key);
    buffer := [FlagByte(m)];
    buffer := buffer + LengthBytes(m.masked, |m.data|);
    if TRANSPORT_CAPACITY - |buffer| < |m.data| {
      return false, [];
    }
    if m.masked {
      buffer := buffer + key;
      ghost var head := buffer;
      var masked := Mask(m.data, key);
      for i := 0 to |m.data|
        invariant buffer == head + masked[..i]
      {
        buffer := buffer + [Xor(m.data[i], key[i % 4])];
        assert masked[..i + 1] == masked[..i] + [masked[i]];
      }
      assert masked[..|m.data|] == masked;
    } else {
      buffer := buffer + m.data;
      assert buffer == Header(m, key) + m.data;
    }
    ok := true;
  }

  class Connection {
    const signedChar: bool
    var open: bool
    /** What was delivered and sent, in order. */
    var log: seq<Action>

    constructor (signedChar: bool)
      ensures this.signedChar == signedChar && open && log == []
    {
      this.signedChar, open, log := signedChar, true, [];
    }

    method Act(m: Message)
      modifies this
      ensures log == old(log) + Actions(m) && open == (old(open) && m.opcode != CLOSE)
    {
      match m.opcode {
        case 1 => log := log + [Deliver(m)];
        case 2 => log := log + [Deliver(m)];
        case 9 => log := log + [SendPong(Pong(m))];
        case 8 =>
          log := log + [SendClose, CloseConnection];
          open := false;
        case _ =>
      }
    }

    /** Every message of the segment is acted on, in order; `rest` is what the loop left. */
    method HandleData(segment: seq<byte>) returns (rest: seq<byte>)
      modifies this
      ensures rest == Frames(segment, signedChar).1
      ensures log == old(log) + AllActions(Frames(segment, signedChar).0)
      ensures open == (old(open) && NoClose(Frames(segment, signedChar).0))
    {
      rest := segment;
      ghost var done: seq<Message> := [];
      while |rest| > 0
        invariant Frames(segment, signedChar).0 == done + Frames(rest, signedChar).0
        invariant Frames(segment, signedChar).1 == Frames(rest, signedChar).1
        invariant log == old(log) + AllActions(done)
        invariant open == (old(open) && NoClose(done))
        decreases |rest|
      {
        var p := ParseMessage(rest, signedChar);
        if !p.Parsed? || p.consumed == 0 || p.consumed > |rest| {
          assert done + [] == done;
          return;
        }
        var m := p.message;
        NextFrame(done, rest, signedChar);
        rest := rest[p.consumed..];
        Act(m);
        ActionsLast(done, m);
        NoCloseLast(done, m);
        done := done + [m];
      }
      assert rest == [] && done + [] == done;
    }

    /** _handleRead: a closed connection takes nothing more, and nothing is kept of a segment. */
    method HandleRead(segment: seq<byte>)
      modifies this
      ensures var ms := Frames(segment, signedChar).0;
        if old(open) then log == old(log) + AllActions(ms) && open == NoClose(ms)
        else log == old(log) && !open
    {
      if open {
        var _ := HandleData(segment);
      }
    }

    /** What these segments, arriving one by one, have led to. */
    ghost predicate Heard(before: seq<Action>, segments: seq<seq<byte>>)
      reads this
    {
      && log == before + AllActions(Handled(segments, signedChar))
      && open == NoClose(Handled(segments, signedChar))
    }

    method HandleNext(ghost before: seq<Action>, ghost earlier: seq<seq<byte>>, segment: seq<byte>)
      requires Heard(before, earlier)
      modifies this
      ensures Heard(before, earlier + [segment])
    {
      HandledNext(before, earlier, segment, signedChar);
      HandleRead(segment);
    }

    /** Segments one after the other. */
    method HandleSegments(segments: seq<seq<byte>>)
      requires open
      modifies this
      ensures Heard(old(log), segments)
    {
      var i := 0;
      while i < |segments|
        invariant 0 <= i <= |segments| && Heard(old(log), segments[..i])
      {
        HandleNext(old(log), segments[..i], segments[i]);
        assert segments[..i] + [segments[i]] == segments[..i + 1];
        i := i + 1;
      }
      assert segments[..i] == segments;
    }
  }

  /** One more segment: what it adds if the connection is still open. */
  lemma HandledNext(before: seq<Action>, earlier: seq<seq<byte>>, segment: seq<byte>, signedChar: bool)
    ensures var ms, more := Handled(earlier, signedChar), Frames(segment, signedChar).0;
      var all := Handled(earlier + [segment], signedChar);
      if NoClose(ms) then
        && before + AllActions(all) == before + AllActions(ms) + AllActions(more)
        && NoClose(all) == NoClose(more)
      else all == ms
  {
    var ms, more := Handled(earlier, signedChar), Frames(segment, signedChar).0;
    HandledLast(earlier, segment, signedChar);
    ActionsAppend(ms, more);
    NoCloseAppend(ms, more);
    AssociateActions(before, AllActions(ms), AllActions(more));
  }

  lemma AssociateActions(a: seq<Action>, b: seq<Action>, c: seq<Action>)
    ensures a + (b + c) == a + b + c
  {
  }

  lemma {:induction false} ActionsAppend(ms: seq<Message>, more: seq<Message>)
    ensures AllActions(ms + more) == AllActions(ms) + AllActions(more)
    decreases |ms|
  {
    if ms == [] {
      assert ms + more == more;
    } else {
      assert (ms + more)[1..] == ms[1..] + more;
      ActionsAppend(ms[1..], more);
    }
  }

  lemma ActionsLast(ms: seq<Message>, m: Message)
    ensures AllActions(ms + [m]) == AllActions(ms) + Actions(m)
  {
    ActionsAppend(ms, [m]);
    assert [m][1..] == [] && Actions(m) + [] == Actions(m);
  }

  lemma NextFrame(done: seq<Message>, buf: seq<byte>, signedChar: bool)
    requires buf != [] && Parse(buf, signedChar).Parsed? && 0 < Parse(buf, signedChar).consumed <= |buf|
    ensures var p := Parse(buf, signedChar);
      && Frames(buf, signedChar).1 == Frames(buf[p.consumed..], signedChar).1
      && done + Frames(buf, signedChar).0 == done + [p.message] + Frames(buf[p.consumed..], signedChar).0
  {
    var p := Parse(buf, signedChar);
    var (ms, rest) := Frames(buf[p.consumed..], signedChar);
    assert Frames(buf, signedChar) == ([p.message] + ms, rest);
    Associate(done, [p.message], ms);
  }
}
