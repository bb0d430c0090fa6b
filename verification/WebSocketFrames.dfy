/** WebSocket frames, sections 5.2 and 5.3 of RFC 6455. */
module WebSocketFrames {
  import opened Prelude
  import Bits

  const DATA_CAPACITY: nat := 128
  const TRANSPORT_CAPACITY: nat := 1024

  const TEXT := 1
  const BINARY := 2
  const CLOSE := 8
  const PING := 9
  const PONG := 10

  datatype Message = Message(fin: bool, rsv1: bool, rsv2: bool, rsv3: bool, opcode: nat, masked: bool, data: seq<byte>)

  /** What a Message object can hold. */
  predicate Holds(m: Message) { m.opcode < 16 && |m.data| <= DATA_CAPACITY }

  /** A whole message in one frame, no extension bits. */
  predicate Plain(m: Message) { m.fin && !m.rsv1 && !m.rsv2 && !m.rsv3 }

  type Key = k: seq<byte> | |k| == 4 witness [0, 0, 0, 0]

  function Xor(a: byte, b: byte): byte {
    Bits.Pow16();
    Bits.Xor(8, a, b)
  }

  function Mask(data: seq<byte>, key: Key): (r: seq<byte>)
    ensures |r| == |data| && forall i | 0 <= i < |r| :: r[i] == Xor(data[i], key[i % 4])
  {
    seq(|data|, i requires 0 <= i < |data| => Xor(data[i], key[i % 4]))
  }

  function Bit(b: bool, weight: byte): byte { if b then weight else 0 }

  function FlagByte(m: Message): byte
    requires m.opcode < 16
  {
    Bit(m.fin, 128) + Bit(m.rsv1, 64) + Bit(m.rsv2, 32) + Bit(m.rsv3, 16) + m.opcode
  }

  function LengthBytes(masked: bool, n: nat): seq<byte> {
    var mark := Bit(masked, 128);
    if n < 126 then [mark + n]
    else if n < 0x1_0000 then [mark + 126, n / 256, n % 256]
    else [mark + 127, n / 0x100_0000_0000_0000 % 256, n / 0x1_0000_0000_0000 % 256, n / 0x100_0000_0000 % 256,
          n / 0x1_0000_0000 % 256, n / 0x100_0000 % 256, n / 0x1_0000 % 256, n / 0x100 % 256, n % 256]
  }

  function Header(m: Message, key: Key): seq<byte>
    requires m.opcode < 16
  {
    [FlagByte(m)] + LengthBytes(m.masked, |m.data|) + if m.masked then key else []
  }

  /** Message::encode with the random masking key as a parameter. */
  function Encode(m: Message, key: Key): seq<byte>
    requires Holds(m)
  {
    Header(m, key) + if m.masked then Mask(m.data, key) else m.data
  }

  // ---- parsing ----

  /** One more length byte. A byte of 128 or more that is read through a signed char is extended
      with ones, and the bitwise or then sets every higher bit of the length. */
  function Shift(acc: nat, b: byte, signedChar: bool): nat {
    if signedChar && b >= 128 then 0x1_0000_0000_0000_0000 - 256 + b else acc * 256 % 0x1_0000_0000_0000_0000 + b
  }

  function ReadLength(bs: seq<byte>, signedChar: bool): nat {
    if bs == [] then 0 else Shift(ReadLength(bs[..|bs| - 1], signedChar), bs[|bs| - 1], signedChar)
  }

  /** Rejected is the return value 0; Overflow is a length that message.data cannot hold. */
  datatype Outcome = Parsed(consumed: nat, message: Message) | Rejected | Overflow

  /** Where the length field ends, and the length; None when the buffer is too short. */
  function LengthField(buf: seq<byte>, signedChar: bool): (r: Option<(nat, nat)>)
    requires |buf| >= 2
    ensures r.Some? ==> 2 <= r.value.0 <= |buf|
  {
    var n := buf[1] % 128;
    if n < 126 then Some((2, n))
    else if n == 126 && |buf| >= 4 then Some((4, ReadLength(buf[2..4], signedChar)))
    else if n == 127 && |buf| >= 10 then Some((10, ReadLength(buf[2..10], signedChar)))
    else None
  }

  function Body(buf: seq<byte>, at: nat, length: nat): Outcome
    requires |buf| >= 2 && at <= |buf|
  {
    var masked := buf[1] >= 128;
    if masked && |buf| - at < 4 then Rejected
    else
      var start := if masked then at + 4 else at;
      if |buf| - start < length then Rejected
      else if length > DATA_CAPACITY then Overflow
      else
        var raw := buf[start..start + length];
        var data := if masked then Mask(raw, buf[at..at + 4]) else raw;
        Parsed(start + length, Message(true, false, false, false, buf[0] % 16, masked, data))
  }

  function Parse(buf: seq<byte>, signedChar: bool): Outcome {
    if |buf| < 2 then Rejected
    else if buf[0] / 16 % 8 != 0 then Rejected
    else if buf[0] < 128 then Rejected
    else
      var f := LengthField(buf, signedChar);
      if f.None? then Rejected else Body(buf, f.value.0, f.value.1)
  }

  // ---- one frame ----

  lemma XorTwice(a: byte, k: byte)
    ensures Xor(Xor(a, k), k) == a
  {
    Bits.Pow16();
    Bits.XorTwice(8, a, k);
  }

  lemma MaskTwice(data: seq<byte>, key: Key)
    ensures Mask(Mask(data, key), key) == data
  {
    forall i | 0 <= i < |data| ensures Xor(Xor(data[i], key[i % 4]), key[i % 4]) == data[i] {
      XorTwice(data[i], key[i % 4]);
    }
  }

  /** The length that comes back: the one that went out, except 128 through a signed char. */
  lemma LengthBack(buf: seq<byte>, masked: bool, n: nat, signedChar: bool)
    requires n <= DATA_CAPACITY && |buf| >= 1 + |LengthBytes(masked, n)|
    requires buf[1..1 + |LengthBytes(masked, n)|] == LengthBytes(masked, n)
    ensures (buf[1] >= 128) == masked
    ensures LengthField(buf, signedChar) ==
      Some((1 + |LengthBytes(masked, n)|, if signedChar && n == 128 then 0x1_0000_0000_0000_0000 - 128 else n))
  {
    var bs := LengthBytes(masked, n);
    assert buf[1] == bs[0];
    if n >= 126 {
      var two := buf[2..4];
      assert two == bs[1..] == [0, n];
      assert two[..1] == [0];
      assert ReadLength([0], signedChar) == 0 by { assert [0 as byte][..0] == []; }
      assert ReadLength(two, signedChar) == Shift(0, n, signedChar);
    }
  }

  lemma FlagsBack(m: Message)
    requires m.opcode < 16 && Plain(m)
    ensures FlagByte(m) >= 128 && FlagByte(m) / 16 % 8 == 0 && FlagByte(m) % 16 == m.opcode
  {
  }

  lemma Layout(m: Message, key: Key, rest: seq<byte>)
    requires Holds(m)
    ensures var lb := LengthBytes(m.masked, |m.data|); var buf := Encode(m, key) + rest; var at := 1 + |lb|;
      var start := if m.masked then at + 4 else at;
      && |Encode(m, key)| == start + |m.data| && buf[0] == FlagByte(m) && buf[1..at] == lb
      && (m.masked ==> buf[at..at + 4] == key)
      && buf[start..start + |m.data|] == if m.masked then Mask(m.data, key) else m.data
  {
    var lb := LengthBytes(m.masked, |m.data|);
    var k: seq<byte> := if m.masked then key else [];
    var d := if m.masked then Mask(m.data, key) else m.data;
    Slices([FlagByte(m)], lb, k, d, rest);
    assert Encode(m, key) == [FlagByte(m)] + lb + k + d;
  }

  lemma Slices(a: seq<byte>, b: seq<byte>, c: seq<byte>, d: seq<byte>, e: seq<byte>)
    requires |a| == 1
    ensures var s := a + b + c + d + e; var i := 1 + |b|; var j := i + |c|;
      s[0] == a[0] && s[1..i] == b && s[i..j] == c && s[j..j + |d|] == d
  {
  }

  /** A frame at the head of a buffer is parsed back, whatever follows it, if and only if its
      length is not the 128 that a signed char cannot carry; then it is rejected. */
  lemma FrameRoundTripIff(m: Message, key: Key, rest: seq<byte>, signedChar: bool)
    requires Holds(m) && Plain(m) && |Encode(m, key) + rest| < 0x8000_0000_0000_0000
    ensures Parse(Encode(m, key) + rest, signedChar) ==
      if signedChar && |m.data| == 128 then Rejected else Parsed(|Encode(m, key)|, m)
  {
    var buf, at := Encode(m, key) + rest, 1 + |LengthBytes(m.masked, |m.data|)|;
    Layout(m, key, rest);
    FlagsBack(m);
    LengthBack(buf, m.masked, |m.data|, signedChar);
    ByField(buf, signedChar);
    if signedChar && |m.data| == 128 {
      TooLong(buf, at, 0x1_0000_0000_0000_0000 - 128);
    } else {
      BodyBack(buf, at, m, key);
    }
  }

  lemma ByField(buf: seq<byte>, signedChar: bool)
    requires |buf| >= 2 && buf[0] >= 128 && buf[0] / 16 % 8 == 0 && LengthField(buf, signedChar).Some?
    ensures var f := LengthField(buf, signedChar).value; Parse(buf, signedChar) == Body(buf, f.0, f.1)
  {
  }

  lemma TooLong(buf: seq<byte>, at: nat, length: nat)
    requires |buf| >= 2 && at <= |buf| < length
    ensures Body(buf, at, length) == Rejected
  {
  }

  lemma BodyBack(buf: seq<byte>, at: nat, m: Message, key: Key)
    requires Holds(m) && Plain(m) && |buf| >= 2 && (buf[1] >= 128) == m.masked && buf[0] % 16 == m.opcode
    requires var start := if m.masked then at + 4 else at;
      && start + |m.data| <= |buf| && (m.masked ==> buf[at..at + 4] == key)
      && buf[start..start + |m.data|] == if m.masked then Mask(m.data, key) else m.data
    ensures Body(buf, at, |m.data|) == Parsed((if m.masked then at + 4 else at) + |m.data|, m)
  {
    MaskTwice(m.data, key);
  }

  lemma FlagsRefused(m: Message)
    requires m.opcode < 16 && !Plain(m)
    ensures FlagByte(m) / 16 % 8 != 0 || FlagByte(m) < 128
  {
  }

  lemma RefusedByFlags(buf: seq<byte>, signedChar: bool)
    requires |buf| >= 2 ==> buf[0] / 16 % 8 != 0 || buf[0] < 128
    ensures Parse(buf, signedChar) == Rejected
  {
  }

  /** A frame that is not final, or has an extension bit, is rejected. */
  lemma OnlyPlainIsRead(m: Message, key: Key, rest: seq<byte>, signedChar: bool)
    requires Holds(m) && !Plain(m)
    ensures Parse(Encode(m, key) + rest, signedChar) == Rejected
  {
    Layout(m, key, rest);
    FlagsRefused(m);
    RefusedByFlags(Encode(m, key) + rest, signedChar);
  }

  /** encode always fits the transport buffer. */
  lemma FitsTransport(m: Message, key: Key)
    requires Holds(m)
    ensures |Encode(m, key)| <= TRANSPORT_CAPACITY
    ensures |[FlagByte(m)] + LengthBytes(m.masked, |m.data|)| + |m.data| <= TRANSPORT_CAPACITY
  {
    Layout(m, key, []);
  }

  // ---- many frames ----

  /** The frame loop: the messages parsed before the first failure, and what is left then. */
  function Frames(buf: seq<byte>, signedChar: bool): (seq<Message>, seq<byte>)
    decreases |buf|
  {
    if buf == [] then ([], [])
    else
      var p := Parse(buf, signedChar);
      if !p.Parsed? || p.consumed == 0 || p.consumed > |buf| then ([], buf)
      else
        var (ms, rest) := Frames(buf[p.consumed..], signedChar);
        ([p.message] + ms, rest)
  }

  function EncodeAll(ms: seq<Message>, keys: seq<Key>): seq<byte>
    requires |keys| == |ms| && forall i | 0 <= i < |ms| :: Holds(ms[i])
  {
    if ms == [] then [] else Encode(ms[0], keys[0]) + EncodeAll(ms[1..], keys[1..])
  }

  predicate Carried(m: Message, signedChar: bool) { Holds(m) && Plain(m) && !(signedChar && |m.data| == 128) }

  lemma FirstFrame(m: Message, key: Key, rest: seq<byte>, signedChar: bool)
    requires Carried(m, signedChar) && |Encode(m, key) + rest| < 0x8000_0000_0000_0000
    ensures Frames(Encode(m, key) + rest, signedChar) ==
      ([m] + Frames(rest, signedChar).0, Frames(rest, signedChar).1)
  {
    var buf := Encode(m, key) + rest;
    FrameRoundTripIff(m, key, rest, signedChar);
    Layout(m, key, rest);
    assert buf[|Encode(m, key)|..] == rest;
  }

  /** Frames one after another, masked or not, under any keys, are consumed exactly and in order,
      and the loop goes on with whatever follows them. */
  lemma {:induction false} FramesInOrder(ms: seq<Message>, keys: seq<Key>, rest: seq<byte>, signedChar: bool)
    requires |keys| == |ms| && forall i | 0 <= i < |ms| :: Carried(ms[i], signedChar)
    requires (forall i | 0 <= i < |ms| :: Holds(ms[i])) && |EncodeAll(ms, keys) + rest| < 0x8000_0000_0000_0000
    ensures Frames(EncodeAll(ms, keys) + rest, signedChar) ==
      (ms + Frames(rest, signedChar).0, Frames(rest, signedChar).1)
    decreases |ms|
  {
    if ms == [] {
      assert EncodeAll(ms, keys) + rest == rest;
      assert ms + Frames(rest, signedChar).0 == Frames(rest, signedChar).0;
    } else {
      var tail := EncodeAll(ms[1..], keys[1..]) + rest;
      assert EncodeAll(ms, keys) + rest == Encode(ms[0], keys[0]) + tail;
      FirstFrame(ms[0], keys[0], tail, signedChar);
      FramesInOrder(ms[1..], keys[1..], rest, signedChar);
      Regroup(ms, Frames(rest, signedChar).0);
    }
  }

  /** A segment that is nothing but such frames is consumed whole. */
  lemma SegmentConsumed(ms: seq<Message>, keys: seq<Key>, signedChar: bool)
    requires |keys| == |ms| && forall i | 0 <= i < |ms| :: Carried(ms[i], signedChar)
    requires (forall i | 0 <= i < |ms| :: Holds(ms[i])) && |EncodeAll(ms, keys)| < 0x8000_0000_0000_0000
    ensures Frames(EncodeAll(ms, keys), signedChar) == (ms, [])
  {
    FramesInOrder(ms, keys, [], signedChar);
    assert EncodeAll(ms, keys) + [] == EncodeAll(ms, keys) && ms + [] == ms;
  }

  lemma Regroup(ms: seq<Message>, more: seq<Message>)
    requires ms != []
    ensures [ms[0]] + (ms[1..] + more) == ms + more
  {
  }

  lemma Associate(a: seq<Message>, b: seq<Message>, c: seq<Message>)
    ensures a + (b + c) == (a + b) + c
  {
  }

  // ---- what the socket does with them ----

  datatype Action = Deliver(message: Message) | SendPong(message: Message) | SendClose | CloseConnection

  function Pong(m: Message): Message { m.(opcode := PONG, masked := true, fin := true) }

  function Actions(m: Message): seq<Action> {
    if m.opcode == TEXT || m.opcode == BINARY then [Deliver(m)]
    else if m.opcode == PING then [SendPong(Pong(m))]
    else if m.opcode == CLOSE then [SendClose, CloseConnection]
    else []
  }

  predicate NoClose(ms: seq<Message>) { forall i | 0 <= i < |ms| :: ms[i].opcode != CLOSE }

  function AllActions(ms: seq<Message>): seq<Action> {
    if ms == [] then [] else Actions(ms[0]) + AllActions(ms[1..])
  }
}
