/** The stream of frames cut into TCP segments. _handleData starts afresh on every segment and keeps
    nothing of the last one, so where the cuts fall decides what is heard. */
module WebSocketSegments {
  import opened Prelude
  import opened WebSocketFrames

  /** The messages acted on when these segments arrive one by one: each is read on its own, and none
      after one that closed the connection. */
  function Handled(segments: seq<seq<byte>>, signedChar: bool): seq<Message> {
    if segments == [] then []
    else
      var ms := Frames(segments[0], signedChar).0;
      ms + if NoClose(ms) then Handled(segments[1..], signedChar) else []
  }

  lemma NoCloseLast(ms: seq<Message>, m: Message)
    ensures NoClose(ms + [m]) == (NoClose(ms) && m.opcode != CLOSE)
  {
    assert (ms + [m])[|ms|] == m;
    assert forall i | 0 <= i < |ms| :: (ms + [m])[i] == ms[i];
  }

  lemma {:induction false} NoCloseAppend(ms: seq<Message>, more: seq<Message>)
    ensures NoClose(ms + more) == (NoClose(ms) && NoClose(more))
    decreases |more|
  {
    if more == [] {
      assert ms + more == ms;
    } else {
      var n := |more| - 1;
      assert ms + more == (ms + more[..n]) + [more[n]] && more == more[..n] + [more[n]];
      NoCloseAppend(ms, more[..n]);
      NoCloseLast(ms + more[..n], more[n]);
      NoCloseLast(more[..n], more[n]);
    }
  }

  /** One more segment at the end. */
  lemma {:induction false} HandledLast(segments: seq<seq<byte>>, last: seq<byte>, signedChar: bool)
    ensures var ms := Handled(segments, signedChar);
      Handled(segments + [last], signedChar) == if NoClose(ms) then ms + Frames(last, signedChar).0 else ms
    decreases |segments|
  {
    var more := Frames(last, signedChar).0;
    if segments == [] {
      assert segments + [last] == [last];
      Alone(last, signedChar);
    } else {
      assert (segments + [last])[1..] == segments[1..] + [last];
      HandledLast(segments[1..], last, signedChar);
      var first := Frames(segments[0], signedChar).0;
      var rest := if NoClose(first) then Handled(segments[1..], signedChar) else [];
      NoCloseAppend(first, rest);
      Associate(first, rest, more);
    }
  }

  function Joined(segments: seq<seq<byte>>): seq<byte> {
    if segments == [] then [] else segments[0] + Joined(segments[1..])
  }

  // ---- two segments ----

  /** A frame that was read is read the same with more behind it. */
  lemma ParseExtends(a: seq<byte>, b: seq<byte>, signedChar: bool)
    requires Parse(a, signedChar).Parsed?
    ensures Parse(a + b, signedChar) == Parse(a, signedChar)
  {
    var ab := a + b;
    var n := a[1] % 128;
    assert n == 126 ==> ab[2..4] == a[2..4];
    assert n == 127 ==> ab[2..10] == a[2..10];
    var f := LengthField(a, signedChar).value;
    assert LengthField(ab, signedChar) == Some(f);
    BodyExtends(a, b, f.0, f.1);
  }

  lemma BodyExtends(a: seq<byte>, b: seq<byte>, at: nat, length: nat)
    requires |a| >= 2 && at <= |a| && Body(a, at, length).Parsed?
    ensures Body(a + b, at, length) == Body(a, at, length)
  {
    if a[1] >= 128 {
      SliceKept(a, b, at, at + 4);
      SliceKept(a, b, at + 4, at + 4 + length);
    } else {
      SliceKept(a, b, at, at + length);
    }
  }

  lemma SliceKept(a: seq<byte>, b: seq<byte>, i: nat, j: nat)
    requires i <= j <= |a|
    ensures (a + b)[i..j] == a[i..j]
  {
  }

  /** Reading two segments as one: the messages of the first, then those of what it left over together
      with the second. */
  lemma {:induction false} FramesAppend(a: seq<byte>, b: seq<byte>, signedChar: bool)
    ensures var (ms, rest) := Frames(a, signedChar);
      Frames(a + b, signedChar) == (ms + Frames(rest + b, signedChar).0, Frames(rest + b, signedChar).1)
    decreases |a|
  {
    var p := Parse(a, signedChar);
    if a == [] || !p.Parsed? || p.consumed == 0 || p.consumed > |a| {
      assert [] + Frames(a + b, signedChar).0 == Frames(a + b, signedChar).0;
    } else {
      ParseExtends(a, b, signedChar);
      assert (a + b)[p.consumed..] == a[p.consumed..] + b;
      FramesAppend(a[p.consumed..], b, signedChar);
      var (ms, rest) := Frames(a[p.consumed..], signedChar);
      Associate([p.message], ms, Frames(rest + b, signedChar).0);
    }
  }

  /** For any bytes and any cut, two segments are heard as their concatenation would be if and only if
      the second alone says what it says behind the leftover of the first, or, when the first
      closes the connection, nothing would have followed. */
  lemma CutIff(a: seq<byte>, b: seq<byte>, signedChar: bool)
    ensures var (ms, rest) := Frames(a, signedChar);
      Handled([a, b], signedChar) == Handled([a + b], signedChar) <==>
      Frames(rest + b, signedChar).0 == if NoClose(ms) then Frames(b, signedChar).0 else []
  {
    FramesAppend(a, b, signedChar);
    Alone(b, signedChar);
    Alone(a + b, signedChar);
    var ms, more := Frames(a, signedChar).0, Frames(Frames(a, signedChar).1 + b, signedChar).0;
    var own := if NoClose(ms) then Frames(b, signedChar).0 else [];
    assert [a, b][1..] == [b];
    assert ms + more == ms + own ==> more == own by { Cancel(ms, more, own); }
  }

  lemma Alone(a: seq<byte>, signedChar: bool)
    ensures Handled([a], signedChar) == Frames(a, signedChar).0
  {
  }

  lemma Cancel(a: seq<Message>, b: seq<Message>, c: seq<Message>)
    ensures a + b == a + c ==> b == c
  {
    if a + b == a + c { assert (a + b)[|a|..] == b && (a + c)[|a|..] == c; }
  }

  /** So a first segment that is read to its end, without a CLOSE, can be cut off. */
  lemma CutBehindFrames(a: seq<byte>, b: seq<byte>, signedChar: bool)
    requires Frames(a, signedChar).1 == [] && NoClose(Frames(a, signedChar).0)
    ensures Handled([a, b], signedChar) == Handled([a + b], signedChar)
  {
    CutIff(a, b, signedChar);
    assert [] + b == b;
  }

  // ---- how many bytes a message takes ----

  /** The least that a frame with this message takes. */
  function Size(m: Message): nat {
    1 + |LengthBytes(m.masked, |m.data|)| + (if m.masked then 4 else 0) + |m.data|
  }

  function SizeAll(ms: seq<Message>): nat { if ms == [] then 0 else Size(ms[0]) + SizeAll(ms[1..]) }

  lemma {:induction false} SizeAppend(ms: seq<Message>, more: seq<Message>)
    ensures SizeAll(ms + more) == SizeAll(ms) + SizeAll(more)
    decreases |ms|
  {
    if ms == [] {
      assert ms + more == more;
    } else {
      assert (ms + more)[1..] == ms[1..] + more;
      SizeAppend(ms[1..], more);
    }
  }

  lemma {:induction false} SizeOfOne(ms: seq<Message>, m: Message)
    ensures m in ms ==> Size(m) <= SizeAll(ms)
    decreases |ms|
  {
    if m in ms && m != ms[0] { SizeOfOne(ms[1..], m); }
  }

  lemma ParsedSize(buf: seq<byte>, signedChar: bool)
    requires Parse(buf, signedChar).Parsed?
    ensures var p := Parse(buf, signedChar); Size(p.message) <= p.consumed <= |buf|
  {
    var f := LengthField(buf, signedChar).value;
    BodySize(buf, f.0, f.1);
    FieldSize(buf, signedChar);
  }

  lemma BodySize(buf: seq<byte>, at: nat, length: nat)
    requires |buf| >= 2 && at <= |buf| && Body(buf, at, length).Parsed?
    ensures var p := Body(buf, at, length);
      && p.message.masked == (buf[1] >= 128) && |p.message.data| == length <= DATA_CAPACITY
      && p.consumed == at + (if p.message.masked then 4 else 0) + length <= |buf|
  {
  }

  lemma FieldSize(buf: seq<byte>, signedChar: bool)
    requires |buf| >= 2 && LengthField(buf, signedChar).Some?
    ensures var (at, n) := LengthField(buf, signedChar).value;
      forall masked | n <= DATA_CAPACITY :: 1 + |LengthBytes(masked, n)| <= at
  {
  }

  lemma {:induction false} FramesSize(buf: seq<byte>, signedChar: bool)
    ensures var (ms, rest) := Frames(buf, signedChar); SizeAll(ms) + |rest| <= |buf|
    decreases |buf|
  {
    var p := Parse(buf, signedChar);
    if buf != [] && p.Parsed? && 0 < p.consumed <= |buf| {
      ParsedSize(buf, signedChar);
      FramesSize(buf[p.consumed..], signedChar);
      var ms := Frames(buf[p.consumed..], signedChar).0;
      assert ([p.message] + ms)[1..] == ms;
    }
  }

  lemma {:induction false} HandledSize(segments: seq<seq<byte>>, signedChar: bool)
    ensures SizeAll(Handled(segments, signedChar)) <= |Joined(segments)|
    decreases |segments|
  {
    if segments != [] {
      var ms := Frames(segments[0], signedChar).0;
      FramesSize(segments[0], signedChar);
      HandledSize(segments[1..], signedChar);
      SizeAppend(ms, if NoClose(ms) then Handled(segments[1..], signedChar) else []);
    }
  }

  // ---- a stream of frames ----

  ghost predicate AllCarried(ms: seq<Message>, keys: seq<Key>, signedChar: bool) {
    && |keys| == |ms| && (forall i | 0 <= i < |ms| :: Carried(ms[i], signedChar))
    && forall i | 0 <= i < |ms| :: Holds(ms[i])
  }

  lemma {:induction false} EncodedSize(ms: seq<Message>, keys: seq<Key>, signedChar: bool)
    requires AllCarried(ms, keys, signedChar)
    ensures |EncodeAll(ms, keys)| == SizeAll(ms)
    decreases |ms|
  {
    if ms != [] {
      Layout(ms[0], keys[0], []);
      EncodedSize(ms[1..], keys[1..], signedChar);
    }
  }

  lemma {:induction false} EncodedSplit(ms: seq<Message>, keys: seq<Key>, n: nat, signedChar: bool)
    requires AllCarried(ms, keys, signedChar) && n <= |ms|
    ensures EncodeAll(ms, keys) == EncodeAll(ms[..n], keys[..n]) + EncodeAll(ms[n..], keys[n..])
    decreases n
  {
    if n == 0 {
      assert ms[0..] == ms && keys[0..] == keys;
    } else {
      var ms', keys' := ms[1..], keys[1..];
      EncodedSplit(ms', keys', n - 1, signedChar);
      assert ms'[n - 1..] == ms[n..] && keys'[n - 1..] == keys[n..];
      EncodedHead(ms, keys, n, signedChar);
      Regrouped(Encode(ms[0], keys[0]), EncodeAll(ms'[..n - 1], keys'[..n - 1]), EncodeAll(ms[n..], keys[n..]));
    }
  }

  lemma EncodedHead(ms: seq<Message>, keys: seq<Key>, n: nat, signedChar: bool)
    requires AllCarried(ms, keys, signedChar) && 0 < n <= |ms|
    ensures EncodeAll(ms[..n], keys[..n]) == Encode(ms[0], keys[0]) + EncodeAll(ms[1..][..n - 1], keys[1..][..n - 1])
  {
    assert ms[..n][1..] == ms[1..][..n - 1] && keys[..n][1..] == keys[1..][..n - 1];
  }

  lemma Regrouped(a: seq<byte>, b: seq<byte>, c: seq<byte>)
    ensures a + (b + c) == (a + b) + c
  {
  }

  /** The first segment is the first n frames, the others are the other frames in the same way; no
      frame comes in a later segment than a CLOSE. */
  ghost predicate CutBetweenFrames(ms: seq<Message>, keys: seq<Key>, segments: seq<seq<byte>>, signedChar: bool)
    requires AllCarried(ms, keys, signedChar)
    decreases |segments|, 1
  {
    if segments == [] then ms == [] else exists n: nat :: CutBehind(ms, keys, segments, n, signedChar)
  }

  ghost predicate CutBehind(
      ms: seq<Message>, keys: seq<Key>, segments: seq<seq<byte>>, n: nat, signedChar: bool)
    requires AllCarried(ms, keys, signedChar) && segments != []
    decreases |segments|, 0
  {
    && n <= |ms| && segments[0] == EncodeAll(ms[..n], keys[..n])
    && if NoClose(ms[..n]) then CutBetweenFrames(ms[n..], keys[n..], segments[1..], signedChar) else n == |ms|
  }

  lemma FirstIsRead(ms: seq<Message>, keys: seq<Key>, n: nat, signedChar: bool)
    requires AllCarried(ms, keys, signedChar) && |EncodeAll(ms, keys)| < 0x8000_0000_0000_0000 && n <= |ms|
    ensures Frames(EncodeAll(ms[..n], keys[..n]), signedChar) == (ms[..n], [])
    ensures AllCarried(ms[n..], keys[n..], signedChar)
    ensures |EncodeAll(ms[n..], keys[n..])| < 0x8000_0000_0000_0000
  {
    EncodedSplit(ms, keys, n, signedChar);
    SegmentConsumed(ms[..n], keys[..n], signedChar);
  }

  lemma {:induction false} HeardIfCutBetween(
      ms: seq<Message>, keys: seq<Key>, segments: seq<seq<byte>>, signedChar: bool)
    requires AllCarried(ms, keys, signedChar) && |EncodeAll(ms, keys)| < 0x8000_0000_0000_0000
    requires CutBetweenFrames(ms, keys, segments, signedChar)
    ensures Handled(segments, signedChar) == ms
    decreases |segments|
  {
    if segments != [] {
      var n: nat :| CutBehind(ms, keys, segments, n, signedChar);
      FirstIsRead(ms, keys, n, signedChar);
      if NoClose(ms[..n]) { HeardIfCutBetween(ms[n..], keys[n..], segments[1..], signedChar); }
      HeardInTwo(ms, n, segments, signedChar);
    }
  }

  lemma HeardInTwo(ms: seq<Message>, n: nat, segments: seq<seq<byte>>, signedChar: bool)
    requires segments != [] && n <= |ms| && Frames(segments[0], signedChar).0 == ms[..n]
    requires if NoClose(ms[..n]) then Handled(segments[1..], signedChar) == ms[n..] else n == |ms|
    ensures Handled(segments, signedChar) == ms
  {
    assert ms[..n] + ms[n..] == ms;
  }

  /** What is heard of the first segment fills it, when everything is heard in the end. */
  lemma FirstIsFull(ms: seq<Message>, keys: seq<Key>, segments: seq<seq<byte>>, signedChar: bool)
    requires AllCarried(ms, keys, signedChar) && segments != [] && Joined(segments) == EncodeAll(ms, keys)
    requires Handled(segments, signedChar) == ms
    ensures var n := |Frames(segments[0], signedChar).0|;
      && n <= |ms| && Frames(segments[0], signedChar).0 == ms[..n]
      && segments[0] == EncodeAll(ms[..n], keys[..n])
      && Joined(segments[1..]) == EncodeAll(ms[n..], keys[n..])
      && ms[n..] == if NoClose(ms[..n]) then Handled(segments[1..], signedChar) else []
  {
    var f := Frames(segments[0], signedChar).0;
    var n := |f|;
    var g := if NoClose(f) then Handled(segments[1..], signedChar) else [];
    assert f + g == ms;
    assert ms[..n] == f && ms[n..] == g;
    FramesSize(segments[0], signedChar);
    HandledSize(segments[1..], signedChar);
    SizeAppend(f, g);
    EncodedSize(ms, keys, signedChar);
    EncodedSize(ms[..n], keys[..n], signedChar);
    EncodedSplit(ms, keys, n, signedChar);
    SameHead(segments[0], Joined(segments[1..]), EncodeAll(ms[..n], keys[..n]), EncodeAll(ms[n..], keys[n..]));
  }

  lemma SameHead(a: seq<byte>, b: seq<byte>, c: seq<byte>, d: seq<byte>)
    requires a + b == c + d && |a| == |c|
    ensures a == c && b == d
  {
    assert (a + b)[..|a|] == a && (c + d)[..|a|] == c;
    assert (a + b)[|a|..] == b && (c + d)[|a|..] == d;
  }

  lemma {:induction false} CutBetweenIfHeard(
      ms: seq<Message>, keys: seq<Key>, segments: seq<seq<byte>>, signedChar: bool)
    requires AllCarried(ms, keys, signedChar) && Joined(segments) == EncodeAll(ms, keys)
    requires Handled(segments, signedChar) == ms
    ensures CutBetweenFrames(ms, keys, segments, signedChar)
    decreases |segments|
  {
    if segments != [] {
      FirstIsFull(ms, keys, segments, signedChar);
      var n := |Frames(segments[0], signedChar).0|;
      if NoClose(ms[..n]) { CutBetweenIfHeard(ms[n..], keys[n..], segments[1..], signedChar); }
      assert CutBehind(ms, keys, segments, n, signedChar);
    }
  }

  /** However a stream of frames is cut into segments, all its messages are heard if and only if every cut
      falls between two frames and none behind a CLOSE. */
  lemma AllHeardIff(ms: seq<Message>, keys: seq<Key>, segments: seq<seq<byte>>, signedChar: bool)
    requires AllCarried(ms, keys, signedChar) && Joined(segments) == EncodeAll(ms, keys)
    requires |EncodeAll(ms, keys)| < 0x8000_0000_0000_0000
    ensures Handled(segments, signedChar) == ms <==> CutBetweenFrames(ms, keys, segments, signedChar)
  {
    if Handled(segments, signedChar) == ms {
      CutBetweenIfHeard(ms, keys, segments, signedChar);
    } else if CutBetweenFrames(ms, keys, segments, signedChar) {
      HeardIfCutBetween(ms, keys, segments, signedChar);
    }
  }

  /** The failing input: any frame that arrives in two segments is not heard; its beginning is nothing. */
  lemma CutFrameIsLost(m: Message, key: Key, k: nat, signedChar: bool)
    requires Carried(m, signedChar) && 0 < k < |Encode(m, key)|
    ensures var e := Encode(m, key);
      Frames(e[..k], signedChar).0 == [] && m !in Handled([e[..k], e[k..]], signedChar)
  {
    var e := Encode(m, key);
    FirstPartIsNothing(m, key, e[..k], e[k..], signedChar);
    ShorterIsOther(m, key, e[k..], signedChar);
    AfterNothing(e[..k], e[k..], signedChar);
  }

  lemma AfterNothing(a: seq<byte>, b: seq<byte>, signedChar: bool)
    requires Frames(a, signedChar).0 == []
    ensures Handled([a, b], signedChar) == Frames(b, signedChar).0
  {
    Alone(b, signedChar);
    assert [a, b][1..] == [b] && [] + Frames(b, signedChar).0 == Frames(b, signedChar).0;
  }

  /** What is shorter than the frame of a message does not hold the message. */
  lemma ShorterIsOther(m: Message, key: Key, b: seq<byte>, signedChar: bool)
    requires Holds(m) && |b| < |Encode(m, key)|
    ensures m !in Frames(b, signedChar).0
  {
    Layout(m, key, []);
    FramesSize(b, signedChar);
    SizeOfOne(Frames(b, signedChar).0, m);
  }

  lemma FirstPartIsNothing(m: Message, key: Key, a: seq<byte>, b: seq<byte>, signedChar: bool)
    requires Carried(m, signedChar) && a + b == Encode(m, key) && b != []
    ensures Frames(a, signedChar).0 == []
  {
    var ms, keys := [m], [key];
    Layout(m, key, []);
    assert EncodeAll(ms, keys) == Encode(m, key);
    SegmentConsumed(ms, keys, signedChar);
    FramesAppend(a, b, signedChar);
    var first := Frames(a, signedChar).0;
    assert first <= [m];
    ShorterIsOther(m, key, a, signedChar);
  }

  // ---- what is answered ----

  /** A frame has its effect: text and binary messages are delivered as they were sent, a close is answered and
      ends the connection, a ping is answered by a masked pong; nothing else is. */
  lemma FrameEffect(m: Message, key: Key, signedChar: bool)
    requires Carried(m, signedChar)
    ensures AllActions(Frames(Encode(m, key), signedChar).0) ==
      match m.opcode
      case 1 => [Deliver(m)]
      case 2 => [Deliver(m)]
      case 8 => [SendClose, CloseConnection]
      case 9 => [SendPong(m.(opcode := 10, masked := true))]
      case _ => []
  {
    var ms, keys := [m], [key];
    assert EncodeAll(ms, keys) == Encode(m, key);
    SegmentConsumed(ms, keys, signedChar);
    assert ms[1..] == [] && Actions(m) + [] == Actions(m);
  }

  /** A pong comes back to the one who sent the ping, with the same bytes. */
  lemma PingComesBack(m: Message, key: Key, key': Key, signedChar: bool)
    requires Carried(m, signedChar) && m.opcode == 9
    ensures exists pong ::
      && AllActions(Frames(Encode(m, key), signedChar).0) == [SendPong(pong)] && Holds(pong)
      && Frames(Encode(pong, key'), signedChar) == ([pong], [])
      && pong.opcode == 10 && pong.data == m.data
  {
    var pong := m.(opcode := 10, masked := true);
    FrameEffect(m, key, signedChar);
    var ms, keys := [pong], [key'];
    assert EncodeAll(ms, keys) == Encode(pong, key');
    Layout(pong, key', []);
    SegmentConsumed(ms, keys, signedChar);
  }
}
