/** Tun, multicast, (compression passes everything through,) security, socket: a packet's whole way
    between two nodes on the direct path. */
module DirectPath {
  import opened Prelude
  import opened AddressNumbers
  import opened SealedPackets
  import opened SealedSession
  import opened SessionTerms
  import H = HeaderElision
  import N = SecurityNode
  import P = PeerMessages
  import R = NgSocketRuns
  import S = NgSocket
  import T = PeerTable
  import V = NgSocketTheorems
  import X = SessionProgress
  import Y = Session
  import Z = SessionTheorems

  /** One end: its id, the state of its security layer and of its socket. */
  datatype End = End(me: Ip, node: N.Node, socket: S.Socket, baseUdp: S.Addr)

  /** The datagram and its destination, if the packet leaves directly. */
  datatype Datagram = Datagram(dest: S.Addr, bytes: Bytes)

  ghost predicate WellFormed(e: End) { T.WellFormed(e.node.table) && S.WellFormed(e.socket) }

  /** A packet handed down by the operating system: None if it is dropped, queued or relayed. */
  ghost function Transmit(e: End, box: Box<Key>, nonce: Bytes, packet: Bytes, now: int): Option<Datagram>
    requires WellFormed(e)
  {
    var down := H.Down(e.me, packet, []);
    if |down| != 1 then None
    else
      var id := Number(down[0].peer);
      var sent := N.OnUpper(N.Ctx(e.node, []), id, down[0].data, true).h;
      if sent == [] || !sent[|sent| - 1].Sent? || !sent[|sent| - 1].pkt.Data? then None
      else
        var h := S.UpperData(e.socket, id, Wire(box, nonce, sent[|sent| - 1].pkt), true, now).h;
        if |h| > 0 && h[|h| - 1].Direct? then
          Some(Datagram(h[|h| - 1].dest, P.SerializeData(h[|h| - 1].data)))
        else None
  }

  /** A datagram from `source`: what the upper end of the stack gets, and from whom. */
  ghost function Receive(e: End, box: Box<Key>, c: P.Crypto, source: S.Addr, bytes: Bytes): Option<H.Passed>
    requires WellFormed(e)
  {
    if source == e.baseUdp then None
    else
      var m := P.Parse(c, bytes);
      if !m.Data? then None
      else
        var h := S.DataReceived(e.socket, source, m.data).h;
        if |h| != |e.socket.h| + 1 || !h[|h| - 1].Up? then None
        else
          var session := Session(e.node, h[|h| - 1].id);
          if session.None? then None
          else
            var plain := Open(box, session.value.rx, h[|h| - 1].data);
            if plain.None? then None else H.Up(e.me, ToBytes(h[|h| - 1].id, 16), plain.value)
  }

  /** The sender has a confirmed target for the receiver, and the receiver has the sender's address in
      its index. */
  ghost predicate Linked(a: End, b: End, source: S.Addr) {
    && WellFormed(a) && WellFormed(b) && a.socket.table.me == Number(a.me)
    && Number(b.me) in a.socket.table.peers
    && a.socket.peers[a.socket.table.peers[Number(b.me)]].connected
    && (var f := S.FindBySource(b.socket, source);
        f.Some? && f.value in b.socket.peers && b.socket.peers[f.value].id == Number(a.me))
    && source != b.baseUdp
  }

  /** Where a sends what it has for b. */
  ghost function Target(a: End, b: End): S.Addr
    requires WellFormed(a) && Number(b.me) in a.socket.table.peers
  {
    assert S.Known(a.socket, Number(b.me), a.socket.table.peers[Number(b.me)]);
    a.socket.peers[a.socket.table.peers[Number(b.me)]].target
  }

  // ---- how two ends come to be linked ----

  /** A HELLO from an address leaves that address indexed under the peer that signed it. */
  lemma HelloIndexes(s: S.Socket, source: S.Addr, m: S.Signed, victim: S.Addr, now: int)
    requires R.IndexInv(s) && m.yourId == s.table.me && R.Legal(s, S.GotHello(source, m, true, victim, now))
    ensures var s' := S.HelloReceived(s, source, m, true, victim, now);
      && S.WellFormed(s') && source in s'.index && s'.index[source] in s'.peers
      && s'.peers[s'.index[source]].id == m.myId
      && |s'.h| > 0 && s'.h[|s'.h| - 1] == S.Replied(source, m.myId, m.cookie)
  {
    S.LookupKnown(s, m.myId, true, true);
    R.LookupIndex(s, m.myId, true, true);
    var s1 := S.Lookup(s, m.myId, true, true).0;
    var r := S.RefOf(s1, m.myId);
    assert S.Known(s1, m.myId, r);
    R.HandleIndex(s, S.GotHello(source, m, true, victim, now));
    AddIndexes(s1, r, source, victim);
    AdoptKeeps(S.Log(S.AddSource(s1, r, source, victim), S.Hello(source, r, m.myId)), r, source, now);
  }

  lemma AddIndexes(s: S.Socket, r: S.Ref, a: S.Addr, victim: S.Addr)
    requires R.IndexInv(s) && r in s.peers
    ensures var s' := S.AddSource(s, r, a, victim);
      a in s'.index && s'.index[a] == r && r in s'.peers && s'.peers[r].id == s.peers[r].id
  {
    if a in s.peers[r].sources { assert R.Owns(s, r, a); }
  }

  lemma AdoptKeeps(s: S.Socket, r: S.Ref, a: S.Addr, now: int)
    requires r in s.peers
    ensures var s' := S.AdoptLinkLocal(s, r, a, now);
      s'.index == s.index && r in s'.peers && s'.peers[r].id == s.peers[r].id
  {
  }

  /** A reply with the cookie of the attempt just made connects the peer to where it came from. */
  lemma ReplyConnects(s: S.Socket, id: nat, source: S.Addr, now: int)
    requires R.IndexInv(s) && T.Ordinary(s.table.me, id) && id in s.table.peers
    ensures var r := s.table.peers[id];
      && r in s.peers
      && var s1 := S.AttemptReestablish(s, r, now);
      && S.WellFormed(s1)
      && var s2 := S.HelloReplyReceived(s1, source, S.Signed(id, s.table.me, s.nextCookie), true);
      && S.WellFormed(s2) && s2.table.me == s.table.me && id in s2.table.peers && s2.table.peers[id] == r
      && r in s2.peers && s2.peers[r].connected && s2.peers[r].target == source && s2.peers[r].id == id
  {
    assert S.Known(s, id, s.table.peers[id]);
    var s1 := S.AttemptReestablish(s, s.table.peers[id], now);
    R.AttemptIndex(s, s.table.peers[id], now);
    R.ReplyIndex(s1, source, S.Signed(id, s.table.me, s.nextCookie), true);
  }

  /** Two ends are linked by one hello exchange, whatever their sockets went through before: a's
      attempt, b's answer to the hello, and a's acceptance of it. */
  lemma HelloExchangeLinks(a: End, b: End, addrA: S.Addr, addrB: S.Addr, victim: S.Addr, now: int)
    requires T.WellFormed(a.node.table) && T.WellFormed(b.node.table)
    requires R.IndexInv(a.socket) && R.IndexInv(b.socket)
    requires a.socket.table.me == Number(a.me) && b.socket.table.me == Number(b.me)
    requires T.Ordinary(Number(a.me), Number(b.me)) && Number(b.me) in a.socket.table.peers
    requires addrA != b.baseUdp
    requires var hello := S.Signed(Number(a.me), Number(b.me), a.socket.nextCookie);
      R.Legal(b.socket, S.GotHello(addrA, hello, true, victim, now))
    ensures var c, r := a.socket.nextCookie, a.socket.table.peers[Number(b.me)];
      r in a.socket.peers &&
      var a1 := S.AttemptReestablish(a.socket, r, now);
      var b1 := S.HelloReceived(b.socket, addrA, S.Signed(Number(a.me), Number(b.me), c), true, victim, now);
      S.WellFormed(a1) && b1.h[|b1.h| - 1] == S.Replied(addrA, Number(a.me), c) &&
      var a2 := S.HelloReplyReceived(a1, addrB, S.Signed(Number(b.me), Number(a.me), c), true);
      Linked(a.(socket := a2), b.(socket := b1), addrA) && Target(a.(socket := a2), b) == addrB
  {
    var hello := S.Signed(Number(a.me), Number(b.me), a.socket.nextCookie);
    HelloIndexes(b.socket, addrA, hello, victim, now);
    ReplyConnects(a.socket, Number(b.me), addrB, now);
  }

  // ---- one packet ----

  /** In a reachable state of the session protocol both ends have negotiated with each other. */
  ghost predicate InSession(cfg: Y.Config, run: seq<Y.System>, k: nat, a: End, b: End) {
    var x, y := Number(a.me), Number(b.me);
    && Y.IsRun(cfg, run) && k < |run| && x in cfg && y in cfg && a.me != b.me
    && Z.Negotiated(run[k], x, y) && Z.Negotiated(run[k], y, x)
    && a.node == run[k].nodes[x] && b.node == run[k].nodes[y]
  }

  /** What the box has to keep apart: the keys of this direction at the two ends, for this payload. */
  ghost predicate KeysSeparate(a: End, b: End, box: Box<Key>, nonce: Bytes, data: Bytes) {
    && Number(b.me) in a.node.table.peers && Number(a.me) in b.node.table.peers
    && Separates(box, a.node.table.peers[Number(b.me)].tx, b.node.table.peers[Number(a.me)].rx, nonce, SeqNum() + data)
  }

  predicate FlagsAgree(cfg: Y.Config, a: End, b: End)
    requires Number(a.me) in cfg && Number(b.me) in cfg
  {
    cfg[Number(a.me)].flags == 0 <==> cfg[Number(b.me)].flags == 0
  }

  /** Each end finds its session with the other, and the sender's key is the receiver's if and only if
      both or neither announce flags. */
  lemma SessionsFound(cfg: Y.Config, run: seq<Y.System>, k: nat, a: End, b: End)
    requires InSession(cfg, run, k, a, b)
    ensures T.WellFormed(a.node.table) && T.WellFormed(b.node.table)
    ensures var p, q := Session(a.node, Number(b.me)), Session(b.node, Number(a.me));
      && p == Some(a.node.table.peers[Number(b.me)]) && q == Some(b.node.table.peers[Number(a.me)])
      && (p.value.tx == q.value.rx <==> FlagsAgree(cfg, a, b))
  {
    var x, y := Number(a.me), Number(b.me);
    DistinctNumbers(a.me, b.me);
    Z.RunInv(cfg, run, k);
    var s := run[k];
    assert Y.GoodNode(cfg, s.history, s.nodes[x]) && Y.GoodNode(cfg, s.history, s.nodes[y]);
    assert Y.GoodPeer(cfg, s.history, x, y, s.nodes[x].table.peers[y]);
    assert Y.GoodPeer(cfg, s.history, y, x, s.nodes[y].table.peers[x]);
    Y.KeysAgreeIff(cfg, x, y);
  }

  lemma TransmitIs(a: End, b: End, source: S.Addr, box: Box<Key>, nonce: Bytes, packet: Bytes, now: int)
    requires Linked(a, b, source) && T.Ordinary(Number(a.me), Number(b.me)) && Session(a.node, Number(b.me)).Some?
    requires H.IsUnicast(packet) && H.Source(packet) == a.me && H.Destination(packet) == b.me
    ensures var sealed := Seal(box, Session(a.node, Number(b.me)).value.tx, nonce, [packet[6]] + packet[40..]);
      Transmit(a, box, nonce, packet, now) ==
      if sealed.None? then None else Some(Datagram(Target(a, b), P.SerializeData(sealed.value)))
  {
    S.LookupKnown(a.socket, Number(b.me), true, true);
    assert S.Known(a.socket, Number(b.me), a.socket.table.peers[Number(b.me)]);
    UpperSeals(box, N.Ctx(a.node, []), Number(b.me), nonce, [packet[6]] + packet[40..]);
  }

  lemma ReceiveIs(a: End, b: End, source: S.Addr, box: Box<Key>, c: P.Crypto, data: Bytes)
    requires Linked(a, b, source) && Session(b.node, Number(a.me)).Some?
    ensures var plain := Open(box, Session(b.node, Number(a.me)).value.rx, data);
      Receive(b, box, c, source, P.SerializeData(data)) ==
      if plain.None? then None else H.Up(b.me, a.me, plain.value)
  {
    P.DataRoundTrip(c, data);
    NumberRoundTrip(a.me);
  }

  /** Between two ends that are linked and, in any reachable state of the session protocol, have
      negotiated with each other: every IPv6 unicast packet goes to the confirmed address and comes
      out with the same addresses, next header and payload, its true length, hop limit 3 and zero class
      and flow label, if and only if it is at most 1989 bytes long, is not the one shape mistaken
      for a multicast message, and both or neither of the ends announce flags. */
  lemma DirectDeliveryIff(
      cfg: Y.Config, run: seq<Y.System>, k: nat, a: End, b: End, source: S.Addr,
      box: Box<Key>, c: P.Crypto, nonce: Bytes, packet: Bytes, now: int)
    requires InSession(cfg, run, k, a, b) && Linked(a, b, source) && Correct(box) && |nonce| == 24
    requires H.IsUnicast(packet) && H.Source(packet) == a.me && H.Destination(packet) == b.me
    requires KeysSeparate(a, b, box, nonce, [packet[6]] + packet[40..])
    ensures var sent := Transmit(a, box, nonce, packet, now);
      (sent.Some? && sent.value.dest == Target(a, b)
       && exists q :: Receive(b, box, c, source, sent.value.bytes) == Some(H.Passed(a.me, q))
            && H.Delivers(q, a.me, b.me, H.NextHeader(packet), H.Payload(packet)))
      <==> |packet| <= 1989 && !H.Mistaken(packet) && FlagsAgree(cfg, a, b)
  {
    var data := [packet[6]] + packet[40..];
    SessionsFound(cfg, run, k, a, b);
    DistinctNumbers(a.me, b.me);
    TransmitIs(a, b, source, box, nonce, packet, now);
    var tx, rx := Session(a.node, Number(b.me)).value.tx, Session(b.node, Number(a.me)).value.rx;
    OpenUndoesSealIff(box, tx, rx, nonce, data);
    var sealed := Seal(box, tx, nonce, data);
    if sealed.Some? {
      ReceiveIs(a, b, source, box, c, sealed.value);
      if |packet| <= 1989 { H.UnicastRoundTripIff(packet); }
    }
  }

  // ---- from boot ----

  lemma SessionFromBoot(cfg: Y.Config, x: Id, y: Id) returns (run: seq<Y.System>)
    requires Y.ValidConfig(cfg) && x in cfg && y in cfg && x != y
    ensures Y.IsRun(cfg, run) && Z.Negotiated(run[|run| - 1], x, y) && Z.Negotiated(run[|run| - 1], y, x)
  {
    var boot := [Y.System(map id | id in cfg :: Y.BootNode(id, cfg[id]), [])];
    assert Y.Init(cfg, boot[0]);
    var more := X.HandshakeCompletes(cfg, boot, x, y, []);
    run := boot + more;
    assert run[|run| - 1] == more[3];
  }

  lemma LinkFromBoot(a: End, b: End, addrA: S.Addr, addrB: S.Addr) returns (a': End, b': End)
    requires T.WellFormed(a.node.table) && T.WellFormed(b.node.table)
    requires a.socket == S.Boot(Number(a.me)) && b.socket == S.Boot(Number(b.me))
    requires T.Ordinary(Number(a.me), Number(b.me)) && addrA != b.baseUdp
    ensures a' == a.(socket := a'.socket) && b' == b.(socket := b'.socket)
    ensures Linked(a', b', addrA) && Target(a', b') == addrB
  {
    V.BootKeeps(Number(a.me));
    V.BootKeeps(Number(b.me));
    R.LookupIndex(a.socket, Number(b.me), true, true);
    var start := a.(socket := S.Lookup(a.socket, Number(b.me), true, true).0);
    HelloExchangeLinks(start, b, addrA, addrB, addrA, 0);
    var cookie, r := start.socket.nextCookie, start.socket.table.peers[Number(b.me)];
    var a1 := S.AttemptReestablish(start.socket, r, 0);
    a' := a.(socket := S.HelloReplyReceived(a1, addrB, S.Signed(Number(b.me), Number(a.me), cookie), true));
    var hello := S.Signed(Number(a.me), Number(b.me), cookie);
    b' := b.(socket := S.HelloReceived(b.socket, addrA, hello, true, addrA, 0));
  }

  /** Any two nodes get there from boot: the handshake and a hello exchange make them the ends of a direct
      path, to any address that answers, and there is a box that meets the laws. So DirectDeliveryIff
      speaks about every packet between them. */
  lemma DirectPathFromBoot(cfg: Y.Config, x: Ip, y: Ip, addrA: S.Addr, addrB: S.Addr, baseUdp: S.Addr)
      returns (run: seq<Y.System>, a: End, b: End, box: Box<Key>)
    requires Y.ValidConfig(cfg) && Number(x) in cfg && Number(y) in cfg && x != y && addrA != baseUdp
    ensures a.me == x && b.me == y && |run| > 0 && InSession(cfg, run, |run| - 1, a, b)
    ensures Linked(a, b, addrA) && Target(a, b) == addrB
    ensures Correct(box) && forall nonce: Bytes, data: Bytes :: KeysSeparate(a, b, box, nonce, data)
  {
    var i, j := Number(x), Number(y);
    DistinctNumbers(x, y);
    run := SessionFromBoot(cfg, i, j);
    var s := run[|run| - 1];
    a, b := End(x, s.nodes[i], S.Boot(i), baseUdp), End(y, s.nodes[j], S.Boot(j), baseUdp);
    SessionsFound(cfg, run, |run| - 1, a, b);
    a, b := LinkFromBoot(a, b, addrA, addrB);
    box := LawsAreMet(a.node.table.peers[j].tx, b.node.table.peers[i].rx);
  }
}
