/** The pseudo-TLS framing of TcpConnection: write, and the reassembly in _handleRead. */
module TcpFraming {
  import opened Prelude
  import opened Arith

  const TCP_READ_BUFFER: nat := 2000

  /** pack of a uint16_t on a little-endian machine; larger sizes are truncated. */
  function PackU16(n: nat): (b: Bytes)
    ensures |b| == 2
  {
    [n % 256, n / 256 % 256]
  }

  function UnpackU16(b: Bytes): (n: nat)
    requires |b| == 2
    ensures n < 65536
  {
    (b[0] as int) + 256 * (b[1] as int)
  }

  lemma PackRoundTrip(n: nat)
    ensures UnpackU16(PackU16(n)) == n % 65536
  {
    DivMod(n, 65536, n / 256 / 256, n / 256 % 256 * 256 + n % 256);
  }

  function TlsHeader(): Bytes { [0x17, 0x03, 0x03] }

  function Frame(packet: Bytes): (f: Bytes)
    ensures |f| == 5 + |packet|
  {
    TlsHeader() + PackU16(|packet|) + packet
  }

  /** What the reader makes of the bytes in its buffer: the packets it passes on, what stays, and
      whether it closes the connection. */
  datatype Drained = Drained(packets: seq<Bytes>, rest: Bytes, closed: bool)

  predicate FrameHere(b: Bytes) {
    |b| > 5 && b[..3] == TlsHeader() && 5 + UnpackU16(b[3..5]) < TCP_READ_BUFFER
  }

  function FrameLength(b: Bytes): nat
    requires FrameHere(b)
  {
    5 + UnpackU16(b[3..5])
  }

  function Drain(b: Bytes): Drained
    decreases |b|
  {
    if |b| <= 5 then Drained([], b, false)
    else if !FrameHere(b) then Drained([], b, true)
    else
      var n := FrameLength(b);
      if |b| < n then Drained([], b, false)
      else
        var d := Drain(b[n..]);
        d.(packets := [b[5..n]] + d.packets)
  }

  /** Reassembly does not depend on where the stream is cut: draining what is there and later the
      remainder with new bytes behind it is the same as draining everything at once. Once the
      connection is closed, nothing more is delivered. This holds for every byte stream. */
  lemma {:induction false} DrainAppend(a: Bytes, b: Bytes)
    ensures var d := Drain(a);
      Drain(a + b) == if d.closed then Drained(d.packets, d.rest + b, true)
                      else var e := Drain(d.rest + b); e.(packets := d.packets + e.packets)
    decreases |a|
  {
    if |a| <= 5 {
    } else {
      SameHeader(a, b);
      if FrameHere(a) && |a| >= FrameLength(a) {
        DrainFrame(a, b);
        DrainAppend(a[FrameLength(a)..], b);
      }
    }
  }

  /** The first frame is delivered alike with or without further bytes behind it. */
  lemma DrainFrame(a: Bytes, b: Bytes)
    requires FrameHere(a) && |a| >= FrameLength(a)
    ensures var n := FrameLength(a); var d, e := Drain(a[n..]), Drain(a[n..] + b);
      && Drain(a) == d.(packets := [a[5..n]] + d.packets)
      && Drain(a + b) == e.(packets := [a[5..n]] + e.packets)
  {
    SameHeader(a, b);
    var n := FrameLength(a);
    assert (a + b)[5..n] == a[5..n] && (a + b)[n..] == a[n..] + b;
  }

  lemma SameHeader(a: Bytes, b: Bytes)
    requires |a| > 5
    ensures FrameHere(a + b) == FrameHere(a)
    ensures FrameHere(a) ==> FrameLength(a + b) == FrameLength(a)
  {
    assert (a + b)[..3] == a[..3] && (a + b)[3..5] == a[3..5];
  }

  /** What stays in the buffer always leaves room for the next recv. */
  lemma {:induction false} RoomForMore(b: Bytes)
    ensures !Drain(b).closed ==> |Drain(b).rest| < TCP_READ_BUFFER
    ensures |Drain(b).rest| <= |b|
    decreases |b|
  {
    if FrameHere(b) && |b| >= FrameLength(b) {
      RoomForMore(b[FrameLength(b)..]);
    }
  }

  // ---- frames ----

  predicate Transportable(p: Bytes) { 1 <= |p| <= 1994 }

  /** A frame followed by anything is read back as its packet, then the rest. */
  lemma FrameThen(p: Bytes, tail: Bytes)
    requires Transportable(p)
    ensures Drain(Frame(p) + tail) == var d := Drain(tail); d.(packets := [p] + d.packets)
  {
    var b := Frame(p) + tail;
    FramePieces(p, tail);
    assert UnpackU16(b[3..5]) == |p| by { PackRoundTrip(|p|); }
    assert FrameHere(b) && FrameLength(b) == 5 + |p|;
  }

  lemma FramePieces(p: Bytes, tail: Bytes)
    ensures var b := Frame(p) + tail;
      b[..3] == TlsHeader() && b[3..5] == PackU16(|p|) && b[5..5 + |p|] == p && b[5 + |p|..] == tail
  {
  }

  /** Packets of 1 to 1994 bytes, and no others, survive framing. */
  lemma FrameRoundTripIff(p: Bytes)
    requires |p| > 0
    ensures Drain(Frame(p)) == Drained([p], [], false) <==> Transportable(p)
  {
    var b := Frame(p);
    assert b[..3] == TlsHeader() && b[3..5] == PackU16(|p|);
    PackRoundTrip(|p|);
    if Transportable(p) {
      FrameThen(p, []);
      assert b + [] == b;
    } else if |p| % 65536 < 1995 {
      var n := FrameLength(b);
      assert |b[5..n]| < |p|;
    }
  }

  function Stream(ps: seq<Bytes>): Bytes {
    if ps == [] then [] else Frame(ps[0]) + Stream(ps[1..])
  }

  /** `done` is how many whole frames fit in the first k bytes of the stream. */
  ghost predicate Complete(ps: seq<Bytes>, k: nat, done: nat) {
    && done <= |ps| && |Stream(ps[..done])| <= k <= |Stream(ps)|
    && (done < |ps| ==> k < |Stream(ps[..done + 1])|)
  }

  lemma CompleteCons(ps: seq<Bytes>, k: nat, m: nat)
    requires ps != [] && k >= |Frame(ps[0])| && Complete(ps[1..], k - |Frame(ps[0])|, m)
    ensures Complete(ps, k, m + 1) && ps[..m + 1] == [ps[0]] + ps[1..][..m]
    ensures Stream(ps[..m + 1]) == Frame(ps[0]) + Stream(ps[1..][..m])
  {
    assert ps[..m + 1][1..] == ps[1..][..m];
    if m + 1 < |ps| {
      assert ps[..m + 2][1..] == ps[1..][..m + 1];
    }
  }

  /** After any prefix of a framed stream the reader has delivered the packets whose frames are
      complete, in order, keeps the incomplete remainder, and has not closed. */
  lemma {:induction false} DrainPrefix(ps: seq<Bytes>, k: nat) returns (done: nat)
    requires (forall p | p in ps :: Transportable(p)) && k <= |Stream(ps)|
    ensures Complete(ps, k, done)
    ensures Drain(Stream(ps)[..k]) == Drained(ps[..done], Stream(ps)[|Stream(ps[..done])|..k], false)
    decreases |ps|
  {
    if ps == [] {
      done := 0;
    } else {
      var f, rest := Frame(ps[0]), ps[1..];
      if k < |f| {
        done := 0;
        ShortFrame(ps[0], k);
        assert Stream(ps)[..k] == f[..k];
        var first := ps[..1];
        assert first[0] == ps[0] && first[1..] == [];
      } else {
        var m := DrainPrefix(rest, k - |f|);
        done := m + 1;
        CompleteCons(ps, k, m);
        FrameThen(ps[0], Stream(rest)[..k - |f|]);
        assert Stream(ps)[..k] == f + Stream(rest)[..k - |f|];
        assert Stream(ps)[|Stream(ps[..done])|..k] == Stream(rest)[|Stream(rest[..m])|..k - |f|];
      }
    }
  }

  lemma ShortFrame(p: Bytes, k: nat)
    requires Transportable(p) && k < |Frame(p)|
    ensures Drain(Frame(p)[..k]) == Drained([], Frame(p)[..k], false)
  {
    var b := Frame(p)[..k];
    PackRoundTrip(|p|);
    assert k > 5 ==> b[..3] == Frame(p)[..3] == TlsHeader() && b[3..5] == Frame(p)[3..5] == PackU16(|p|);
  }

  lemma {:induction false} StreamAppend(ps: seq<Bytes>, p: Bytes)
    ensures Stream(ps + [p]) == Stream(ps) + Frame(p)
    decreases |ps|
  {
    if ps != [] {
      StreamAppend(ps[1..], p);
      assert (ps + [p])[1..] == ps[1..] + [p];
    }
  }

  /** Whatever the bytes, the reader makes nothing up and loses nothing: what it has passed on, framed
      again, followed by what it keeps, is what it got. */
  lemma {:induction false} DrainInverse(b: Bytes)
    ensures b == Stream(Drain(b).packets) + Drain(b).rest
    decreases |b|
  {
    if FrameHere(b) && |b| >= FrameLength(b) {
      var n := FrameLength(b);
      DrainInverse(b[n..]);
      Reframed(b);
      StreamCons(b[5..n], Drain(b[n..]).packets, Drain(b[n..]).rest);
    }
  }

  lemma StreamCons(p: Bytes, ps: seq<Bytes>, rest: Bytes)
    ensures Stream([p] + ps) + rest == Frame(p) + (Stream(ps) + rest)
  {
    assert ([p] + ps)[1..] == ps;
  }

  lemma Reframed(b: Bytes)
    requires FrameHere(b) && |b| >= FrameLength(b)
    ensures var n := FrameLength(b); b == Frame(b[5..n]) + b[n..]
  {
    var n := FrameLength(b);
    UnpackRoundTrip(b[3..5]);
    assert |b[5..n]| == UnpackU16(b[3..5]);
    assert b == b[..3] + b[3..5] + b[5..n] + b[n..];
  }

  lemma UnpackRoundTrip(b: Bytes)
    requires |b| == 2
    ensures PackU16(UnpackU16(b)) == b
  {
    DivMod(UnpackU16(b), 256, b[1], b[0]);
  }

  /** A write that fails after k bytes, followed by successful ones: the reader gets the packets of the
      later writes if and only if nothing of the failed one went out. */
  lemma TornWriteIff(p: Bytes, k: nat, qs: seq<Bytes>)
    requires k <= |Frame(p)| && forall q | q in qs :: Transportable(q)
    ensures Drain(Frame(p)[..k] + Stream(qs)) == Drained(qs, [], false) <==> k == 0
  {
    var b := Frame(p)[..k] + Stream(qs);
    if k == 0 {
      assert b == Stream(qs) && Stream(qs)[..|Stream(qs)|] == Stream(qs);
      WholeStream(qs);
    } else {
      DrainInverse(b);
    }
  }

  lemma WholeStream(ps: seq<Bytes>)
    requires forall p | p in ps :: Transportable(p)
    ensures Drain(Stream(ps)) == Drained(ps, [], false)
  {
    var done := DrainPrefix(ps, |Stream(ps)|);
    assert Stream(ps)[..|Stream(ps)|] == Stream(ps);
    if done < |ps| { StreamMonotone(ps, done + 1); }
    assert ps[..|ps|] == ps;
  }

  lemma TakeMore(got: Bytes, incoming: Bytes, c: nat, n: nat)
    requires c + n <= |incoming|
    ensures got + incoming[..c] + incoming[c..c + n] == got + incoming[..c + n]
  {
  }

  // ---- the connection ----

  function Min(a: nat, b: nat): nat { if a < b then a else b }

  /** How many bytes a socket takes in all when send returns these numbers: up to the first error. */
  function Accepted(sends: seq<nat>): nat {
    if sends == [] || sends[0] == 0 then 0 else sends[0] + Accepted(sends[1..])
  }

  class TcpConnection {
    var open: bool
    var readBuffer: Bytes
    /** Packets passed to dataCallback, in order. */
    var delivered: seq<Bytes>
    /** Bytes accepted by send, in order. */
    var wire: Bytes
    /** Every byte that recv has returned so far. */
    ghost var received: Bytes
    /** recv has reported an error or the end of the stream. */
    ghost var failed: bool

    /** The reader's state is what draining all received bytes at once would give; it is closed for a
        format error found there, or because recv failed. */
    ghost predicate Valid()
      reads this
    {
      var d := Drain(received);
      delivered == d.packets && readBuffer == d.rest && (open <==> !d.closed && !failed)
    }

    constructor ()
      ensures Valid() && open && !failed && received == [] && delivered == [] && wire == []
    {
      open, readBuffer, delivered, wire, received, failed := true, [], [], [], [], false;
    }

    /** The send loop. `sends` are the results of the successive send calls: how many bytes the socket
        takes, at most what is left; zero, or no further result, is an error. */
    method SendAll(packet: Bytes, sends: seq<nat>) returns (ok: bool, written: nat)
      requires |packet| > 0
      modifies this`wire
      ensures written == Min(|packet|, Accepted(sends)) && ok == (written == |packet|)
      ensures wire == old(wire) + packet[..written]
    {
      written := 0;
      var i := 0;
      assert sends[0..] == sends;
      while written < |packet|
        invariant written <= |packet| && i <= |sends| && wire == old(wire) + packet[..written]
        invariant Min(|packet|, Accepted(sends)) == Min(|packet|, written + Accepted(sends[i..]))
        decreases |sends| - i
      {
        assert i < |sends| ==> sends[i..][1..] == sends[i + 1..];
        var n := if i < |sends| then sends[i] else 0;
        if n > |packet| - written {
          n := |packet| - written;
        }
        if n == 0 {
          return false, written;
        }
        wire := wire + packet[written..written + n];
        assert packet[..written + n] == packet[..written] + packet[written..written + n];
        written := written + n;
        i := i + 1;
      }
      ok := true;
    }

    /** write: the frame goes out whole, or a proper prefix of it and an error. */
    method Write(packet: Bytes, sends: seq<nat>) returns (ok: bool)
      requires |packet| > 0
      modifies this`wire
      ensures ok <==> open && Accepted(sends) >= |Frame(packet)|
      ensures ok ==> wire == old(wire) + Frame(packet)
      ensures !ok ==> wire == old(wire) + Frame(packet)[..if open then Accepted(sends) else 0]
    {
      if !open {
        assert wire == old(wire) + Frame(packet)[..0];
        return false;
      }
      var framed := TlsHeader() + PackU16(|packet|) + packet;
      var written;
      ok, written := SendAll(framed, sends);
      assert framed == Frame(packet) && framed[..|framed|] == framed;
    }

    /** The overload for fixed-capacity vectors: a frame that does not fit is refused. */
    method WriteVector(packet: Bytes, capacity: nat, sends: seq<nat>) returns (ok: bool)
      requires 0 < |packet| <= capacity
      modifies this`wire
      ensures ok <==> open && |Frame(packet)| <= capacity && Accepted(sends) >= |Frame(packet)|
      ensures ok ==> wire == old(wire) + Frame(packet)
      ensures !ok ==>
        wire == old(wire) + Frame(packet)[..if open && |Frame(packet)| <= capacity then Accepted(sends) else 0]
    {
      if |packet| + 5 > capacity {
        assert wire == old(wire) + Frame(packet)[..0];
        return false;
      }
      ok := Write(packet, sends);
    }

    /** Writing packets one after the other, up to the first failure. `sends[i]` are the results of the
        send calls of the i-th write. */
    method WriteAll(ps: seq<Bytes>, sends: seq<seq<nat>>) returns (ok: bool, done: nat)
      requires |sends| == |ps| && forall i | 0 <= i < |ps| :: |ps[i]| > 0
      modifies this`wire
      ensures done <= |ps| && (ok <==> done == |ps|)
      ensures forall i | 0 <= i < done :: open && Accepted(sends[i]) >= |Frame(ps[i])|
      ensures ok ==> wire == old(wire) + Stream(ps)
      ensures !ok ==>
        && !(open && Accepted(sends[done]) >= |Frame(ps[done])|)
        && wire == old(wire) + Stream(ps[..done]) + Frame(ps[done])[..if open then Accepted(sends[done]) else 0]
    {
      done := 0;
      while done < |ps|
        invariant done <= |ps| && wire == old(wire) + Stream(ps[..done])
        invariant forall i | 0 <= i < done :: open && Accepted(sends[i]) >= |Frame(ps[i])|
      {
        ok := Write(ps[done], sends[done]);
        if !ok {
          return;
        }
        StreamAppend(ps[..done], ps[done]);
        assert ps[..done] + [ps[done]] == ps[..done + 1];
        done := done + 1;
      }
      assert ps[..done] == ps;
      ok := true;
    }

    /** The inner loop of _handleRead: pass on every complete packet. `more` is false when the handler
        returns: too little data for a header, or closed. */
    method DrainBuffer() returns (more: bool)
      requires open
      modifies this`open, this`readBuffer, this`delivered
      ensures var d := Drain(old(readBuffer));
        delivered == old(delivered) + d.packets && readBuffer == d.rest && open == !d.closed
      ensures more ==> open
      ensures !more ==> !open || |readBuffer| <= 5
    {
      while true
        invariant open
        invariant var d, e := Drain(old(readBuffer)), Drain(readBuffer);
          old(delivered) + d.packets == delivered + e.packets && d.rest == e.rest && d.closed == e.closed
        decreases |readBuffer|
      {
        if |readBuffer| <= 5 {
          return false;
        }
        if readBuffer[..3] != TlsHeader() {
          open := false;
          return false;
        }
        var packetLen := 5 + UnpackU16(readBuffer[3..5]);
        if packetLen >= TCP_READ_BUFFER {
          open := false;
          return false;
        }
        if |readBuffer| < packetLen {
          return true;
        }
        assert Drain(readBuffer).packets == [readBuffer[5..packetLen]] + Drain(readBuffer[packetLen..]).packets;
        delivered := delivered + [readBuffer[5..packetLen]];
        readBuffer := readBuffer[packetLen..];
      }
    }

    /** What one recv has returned. */
    method Take(chunk: Bytes) returns (more: bool)
      requires Valid() && open
      modifies this`open, this`readBuffer, this`delivered, this`received
      ensures Valid() && received == old(received) + chunk
      ensures if more then open else !open || |readBuffer| <= 5
    {
      DrainAppend(received, chunk);
      readBuffer := readBuffer + chunk;
      received := received + chunk;
      more := DrainBuffer();
    }

    /** What a first recv result of n bytes amounts to: at most what is there and what fits. */
    static ghost function FirstRecv(received: Bytes, incoming: Bytes, n: nat): nat {
      var left := |Drain(received).rest|;
      Min(n, Min(|incoming|, if left < TCP_READ_BUFFER then TCP_READ_BUFFER - left else 0))
    }

    /** _handleRead on a socket holding `incoming`. Each recv returns as many bytes as `cuts` says, at
        most what is there and what fits; the buffer has room for it every time. The recv that
        returns nothing would block, or, when `fails`, reports an error or the end of the stream. */
    method HandleRead(incoming: Bytes, cuts: seq<nat>, fails: bool)
        returns (consumed: nat, calls: nat, waits: bool)
      requires Valid() && open
      modifies this
      ensures Valid() && wire == old(wire) && failed == (waits && fails)
      ensures consumed <= |incoming| && received == old(received) + incoming[..consumed]
      ensures calls <= |cuts| && calls <= consumed
      ensures cuts != [] ==> FirstRecv(old(received), incoming, cuts[0]) <= consumed
      ensures if waits then consumed == |incoming| || calls == |cuts| || cuts[calls] == 0
              else !open || |readBuffer| <= 5
    {
      consumed, calls, waits := 0, 0, false;
      var more, i := true, 0;
      RoomForMore(received);
      while more
        invariant Valid() && (more ==> open) && wire == old(wire) && !failed
        invariant consumed <= |incoming| && received == old(received) + incoming[..consumed]
        invariant i == calls <= |cuts| && calls <= consumed
        invariant calls == 0 ==> consumed == 0 && more
        invariant calls > 0 ==> FirstRecv(old(received), incoming, cuts[0]) <= consumed
        invariant !more ==> !open || |readBuffer| <= 5
        decreases |cuts| - i, more
      {
        RoomForMore(received);
        var available := TCP_READ_BUFFER - |readBuffer|;
        assert available > 0;
        var n := if i < |cuts| then cuts[i] else 0;
        n := if n > available then available else n;
        n := if n > |incoming| - consumed then |incoming| - consumed else n;
        if n == 0 {
          waits := true;
          if fails {
            open, failed := false, true;
          }
          return;
        }
        more := Take(incoming[consumed..consumed + n]);
        TakeMore(old(received), incoming, consumed, n);
        consumed := consumed + n;
        i, calls := i + 1, calls + 1;
      }
    }
  }

  /** The event loop calls the handler as long as there is something to read: then its first recv returns
      something. `recvs(k)` are the recv results of the k-th call. */
  ghost predicate Readable(recvs: nat -> seq<nat>) {
    forall k {:trigger recvs(k)} :: recvs(k) != [] && recvs(k)[0] > 0
  }

  lemma Further(before: Bytes, incoming: Bytes, at: nat, n: nat)
    requires at + n <= |incoming|
    ensures before + incoming[..at] + incoming[at..][..n] == before + incoming[..at + n]
  {
    assert incoming[at..][..n] == incoming[at..at + n];
    assert incoming[..at] + incoming[at..at + n] == incoming[..at + n];
  }

  /** Handler calls until everything is read or the connection is closed. They come to an end. */
  method ReadAll(c: TcpConnection, incoming: Bytes, recvs: nat -> seq<nat>)
    requires c.Valid() && c.open && Readable(recvs)
    modifies c
    ensures c.Valid() && !c.failed && c.wire == old(c.wire)
    ensures c.received <= old(c.received) + incoming
    ensures c.open ==> c.received == old(c.received) + incoming
  {
    var at, k := 0, 0;
    assert c.received + incoming[..0] == c.received;
    while at < |incoming| && c.open
      invariant at <= |incoming| && c.Valid() && !c.failed && c.wire == old(c.wire)
      invariant c.received == old(c.received) + incoming[..at]
      decreases |incoming| - at
    {
      RoomForMore(c.received);
      var consumed, calls, waits := c.HandleRead(incoming[at..], recvs(k), false);
      Further(old(c.received), incoming, at, consumed);
      at, k := at + consumed, k + 1;
    }
    assert incoming[..|incoming|] == incoming;
  }

  /** A fresh connection that is fed the frames of any packets of 1 to 1994 bytes, in any pieces and over any
      number of handler calls, has passed on exactly these packets in the end and is still open. */
  method ReadStream(ps: seq<Bytes>, recvs: nat -> seq<nat>) returns (c: TcpConnection)
    requires Readable(recvs) && forall p | p in ps :: Transportable(p)
    ensures c.Valid() && c.open && c.delivered == ps && c.readBuffer == []
  {
    c := new TcpConnection();
    ReadAll(c, Stream(ps), recvs);
    assert [] + Stream(ps) == Stream(ps);
    Reassembled(c, ps);
  }

  /** Packets of 1 to 1994 bytes, however they were cut into recv results: once the whole stream has
      arrived, the callbacks have got exactly these packets in order and nothing is left over; at any
      earlier point they have got a prefix of them; and only a failing recv closes the connection. */
  lemma Reassembled(c: TcpConnection, ps: seq<Bytes>)
    requires c.Valid() && (forall p | p in ps :: Transportable(p)) && c.received <= Stream(ps)
    ensures (c.open <==> !c.failed) && c.delivered <= ps && |c.readBuffer| < TCP_READ_BUFFER
    ensures c.received == Stream(ps) ==> c.delivered == ps && c.readBuffer == []
  {
    var done := DrainPrefix(ps, |c.received|);
    assert Stream(ps)[..|c.received|] == c.received;
    RoomForMore(c.received);
    if c.received == Stream(ps) && done < |ps| {
      StreamMonotone(ps, done + 1);
    }
  }

  /** From writer to reader: w has been given the packets ps to write, and r has received some of what w
      put on the wire, cut in any way. r has passed on a prefix of ps, and all of ps once the writes
      have succeeded and everything has arrived. */
  lemma WrittenIsRead(w: TcpConnection, r: TcpConnection, ps: seq<Bytes>, done: nat, k: nat)
    requires (forall p | p in ps :: Transportable(p)) && done <= |ps|
    requires if done == |ps| then w.wire == Stream(ps)
      else k < |Frame(ps[done])| && w.wire == Stream(ps[..done]) + Frame(ps[done])[..k]
    requires r.Valid() && r.received <= w.wire
    ensures (r.open <==> !r.failed) && r.delivered <= ps && |r.readBuffer| < TCP_READ_BUFFER
    ensures r.received == w.wire ==> r.delivered == ps[..done]
  {
    WirePrefix(ps, done, k);
    Reassembled(r, ps);
    if r.received == w.wire {
      if done == |ps| {
        assert ps[..done] == ps;
      } else {
        TornStream(ps[..done], ps[done], k);
      }
    }
  }

  lemma TornStream(ps: seq<Bytes>, p: Bytes, k: nat)
    requires (forall q | q in ps :: Transportable(q)) && Transportable(p) && k < |Frame(p)|
    ensures Drain(Stream(ps) + Frame(p)[..k]) == Drained(ps, Frame(p)[..k], false)
  {
    WholeStream(ps);
    ShortFrame(p, k);
    DrainAppend(Stream(ps), Frame(p)[..k]);
    assert [] + Frame(p)[..k] == Frame(p)[..k];
  }

  lemma WirePrefix(ps: seq<Bytes>, done: nat, k: nat)
    requires done < |ps| ==> k < |Frame(ps[done])|
    requires done <= |ps|
    ensures done < |ps| ==> Stream(ps[..done]) + Frame(ps[done])[..k] <= Stream(ps)
  {
    if done < |ps| {
      StreamSplit(ps, done);
      StreamSplit(ps[done..], 1);
      assert ps[done..][..1] == [ps[done]];
      assert Stream([ps[done]]) == Frame(ps[done]) + Stream([]);
    }
  }

  lemma {:induction false} StreamSplit(ps: seq<Bytes>, n: nat)
    requires n <= |ps|
    ensures Stream(ps) == Stream(ps[..n]) + Stream(ps[n..])
  {
    if n > 0 {
      StreamSplit(ps[1..], n - 1);
      assert ps[..n][1..] == ps[1..][..n - 1] && ps[n..] == ps[1..][n - 1..];
    } else {
      assert ps[..0] == [] && ps[0..] == ps;
    }
  }

  lemma {:induction false} StreamMonotone(ps: seq<Bytes>, k: nat)
    requires k <= |ps|
    ensures |Stream(ps[..k])| <= |Stream(ps)|
    ensures k == |ps| ==> Stream(ps[..k]) == Stream(ps)
    decreases |ps|
  {
    if k > 0 {
      assert ps[..k][1..] == ps[1..][..k - 1];
      StreamMonotone(ps[1..], k - 1);
    }
    if k == |ps| { assert ps[..k] == ps; }
  }
}
