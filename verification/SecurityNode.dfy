/** The security layer of one node, handler by handler, as functions on its state and on the
    event history. */
module SecurityNode {
  import opened Prelude
  import opened SessionTerms
  import T = PeerTable

  const MAX_QUEUED_PACKETS := 10
  const RENEGOTIATION_TIMEOUT := 120000

  datatype Peer = Peer(
    kx: KxPub, negotiated: bool, rx: Key, tx: Key, flags: nat, queue: seq<seq<byte>>, lastValid: int)

  datatype Node = Node(flags: nat, helloseq: nat, queued: int, table: T.Table<Peer>, nonces: nat)

  /** What happens at a node, in order. `Down`: the upper layer hands a payload for a peer
      (`admitted` unless it is dropped); `Sealed`: the payload reaches doSendDataPacket;
      `Sent`: a packet goes to the lower layer; `Accepted`: a hello 2 or 3 completes a negotiation;
      `Up`: a payload goes to the upper layer. */
  datatype Event =
    | Down(node: Id, peer: Id, data: seq<byte>, admitted: bool)
    | Sealed(node: Id, peer: Id, data: seq<byte>)
    | Sent(node: Id, peer: Id, pkt: Packet)
    | Accepted(node: Id, peer: Id, pkt: Packet)
    | Up(node: Id, peer: Id, data: seq<byte>, pkt: Packet)

  /** A node together with the history of everything that has happened so far anywhere. */
  datatype Ctx = Ctx(n: Node, h: seq<Event>)

  function Me(c: Ctx): Id { c.n.table.me }

  /** The history only grows, and only by events of this node. */
  ghost predicate Grows(c: Ctx, c': Ctx) {
    && c.h <= c'.h && Me(c') == Me(c)
    && forall k {:trigger c'.h[k]} | |c.h| <= k < |c'.h| :: c'.h[k].node == Me(c)
  }

  function Log(c: Ctx, e: Event): Ctx { c.(h := c.h + [e]) }

  function SetPeer(c: Ctx, id: Id, p: Peer): Ctx {
    c.(n := c.n.(table := c.n.table.(peers := c.n.table.peers[id := p])))
  }

  predicate Has(c: Ctx, id: Id) { id in c.n.table.peers }

  function PeerAt(c: Ctx, id: Id): Peer
    requires Has(c, id)
  {
    c.n.table.peers[id]
  }

  /** createPeer: a fresh key-exchange pair, nothing negotiated. */
  function NewPeer(n: Node, id: Id): Peer {
    var gen := if id in n.table.peers && n.table.peers[id].kx.KxPub? then n.table.peers[id].kx.gen + 1 else 0;
    Peer(KxPub(n.table.me, id, gen), false, ZeroKey, ZeroKey, 1, [], 0)
  }

  function Lookup(c: Ctx, id: Id, create: bool, allowed: bool): (Ctx, bool) {
    var r := if create then T.GetOrCreate(c.n.table, id, allowed, NewPeer(c.n, id))
             else T.Get(c.n.table, id, allowed);
    (c.(n := c.n.(table := r.table)), r.present)
  }

  function HelloPacket(c: Ctx, id: Id, num: nat, echo: nat): Packet
    requires Has(c, id)
  {
    var body := HelloBody(num, PubKey(Me(c)), PeerAt(c, id).kx, id, c.n.helloseq, echo, Some(c.n.flags));
    Hello(body, Signature(PubKey(Me(c)), body))
  }

  function SendHello(c: Ctx, id: Id, num: nat, echo: nat): (r: Ctx)
    requires Has(c, id)
    ensures Grows(c, r)
  {
    Log(c, Sent(Me(c), id, HelloPacket(c, id, num, echo)))
  }

  /** doSendDataPacket: a payload that does not fit the 2010-byte cleartext buffer is dropped. */
  function Seal(c: Ctx, id: Id, data: seq<byte>): (r: Ctx)
    requires Has(c, id)
    ensures r.n.table == c.n.table && r.n.helloseq == c.n.helloseq && r.n.flags == c.n.flags
    ensures Grows(c, r)
  {
    var c1 := Log(c, Sealed(Me(c), id, data));
    if |data| + 8 >= 2010 then c1
    else
      var c2 := Log(c1, Sent(Me(c), id, Data(c.n.nonces, PeerAt(c, id).tx, Zeros() + data)));
      c2.(n := c2.n.(nonces := c2.n.nonces + 1))
  }

  /** The loop of finishNegotiation, from the i-th queued packet on. */
  function Flush(c: Ctx, id: Id, queue: seq<seq<byte>>): (r: Ctx)
    requires Has(c, id)
    ensures r.n.table == c.n.table && r.n.helloseq == c.n.helloseq && r.n.flags == c.n.flags
    ensures Grows(c, r)
    decreases |queue|
  {
    if queue == [] then c
    else
      var c1 := Seal(c.(n := c.n.(queued := c.n.queued - 1)), id, queue[0]);
      Flush(c1, id, queue[1..])
  }

  function FinishNegotiation(c: Ctx, id: Id): (r: Ctx)
    requires Has(c, id)
    ensures Has(r, id) && Me(r) == Me(c) && r.n.helloseq == c.n.helloseq && r.n.flags == c.n.flags
    ensures Grows(c, r)
  {
    var c1 := SetPeer(c, id, PeerAt(c, id).(negotiated := true));
    var c2 := Flush(c1, id, PeerAt(c, id).queue);
    SetPeer(c2, id, PeerAt(c2, id).(queue := []))
  }

  function HandleData(c: Ctx, src: Id, pkt: Packet, allowed: bool, now: int): (r: Ctx)
    requires pkt.Data?
    requires T.WellFormed(c.n.table)
    ensures Grows(c, r)
  {
    if |pkt.plain| <= 8 then c
    else
      T.GetOrCreateFrame(c.n.table, src, allowed, NewPeer(c.n, src));
      var (c1, found) := Lookup(c, src, true, allowed);
      if !found then c1
      else if !PeerAt(c1, src).negotiated then SendHello(c1, src, 1, 0)
      else if pkt.key != PeerAt(c1, src).rx then c1
      else
        var c2 := SetPeer(c1, src, PeerAt(c1, src).(lastValid := now));
        Log(c2, Up(Me(c), src, pkt.plain[8..], pkt))
  }

  /** What the key exchange leaves in a peer. When it fails (a low-order point) the old keys stay,
      but the flag mixing below is still applied to them. */
  function DeriveKeys(me: Id, myFlags: nat, src: Id, p: Peer, body: HelloBody): Peer {
    var f := if body.flags.Some? then body.flags.value else 0;
    var ok := body.kx != WeakPoint;
    var rx := if ok then KxRx(me, src, p.kx, body.kx) else p.rx;
    var tx := if ok then KxTx(me, src, p.kx, body.kx) else p.tx;
    p.(flags := f,
       rx := if f != 0 then MixFlags(rx, f, myFlags) else rx,
       tx := if f != 0 then MixFlags(tx, myFlags, f) else tx)
  }

  /** helloseq++ concludes an acceptance. */
  function Advance(c: Ctx, src: Id, pkt: Packet): Ctx {
    var c1 := Log(c, Accepted(Me(c), src, pkt));
    c1.(n := c1.n.(helloseq := Wrap64(c1.n.helloseq + 1)))
  }

  /** The end of an acceptance: a hello 2 is answered with a hello 3. */
  function Conclude(c: Ctx, src: Id, pkt: Packet): (r: Ctx)
    requires pkt.Hello? && Has(c, src)
    ensures Grows(c, r)
  {
    var c1 := Advance(c, src, pkt);
    if pkt.body.num == 2 then SendHello(c1, src, 3, pkt.body.helloseq) else c1
  }

  /** The second half of handleHelloPacket: a verified hello 2 or 3 that echoes our helloseq. */
  function AcceptHello(c: Ctx, src: Id, pkt: Packet): (r: Ctx)
    requires pkt.Hello? && Has(c, src)
    ensures Grows(c, r)
  {
    var c1 := SetPeer(c, src, DeriveKeys(Me(c), c.n.flags, src, PeerAt(c, src), pkt.body));
    if pkt.body.kx == WeakPoint then c1
    else
      Conclude(FinishNegotiation(c1, src), src, pkt)
  }

  function HandleHello(c: Ctx, src: Id, pkt: Packet, allowed: bool): (r: Ctx)
    requires pkt.Hello?
    requires T.WellFormed(c.n.table)
    ensures Grows(c, r)
  {
    T.GetOrCreateFrame(c.n.table, src, allowed, NewPeer(c.n, src));
    var (c1, found) := Lookup(c, src, true, allowed);
    if !found then c1
    else if pkt.body.target != Me(c) then c1
    else if DeviceId(pkt.body.pub) != src then c1
    else if !Verifies(pkt.body.pub, pkt.body, pkt.sig) then c1
    else if pkt.body.num == 1 then SendHello(c1, src, 2, pkt.body.helloseq)
    else if pkt.body.echo != c1.n.helloseq then c1
    else AcceptHello(c1, src, pkt)
  }

  function OnLower(c: Ctx, src: Id, pkt: Packet, allowed: bool, now: int): (r: Ctx)
    requires T.WellFormed(c.n.table)
    ensures Grows(c, r)
  {
    if PacketSize(pkt) >= 2000 then c
    else
      match pkt
      case Data(_, _, _) => HandleData(c, src, pkt, allowed, now)
      case Hello(body, _) => if 1 <= body.num <= 3 then HandleHello(c, src, pkt, allowed) else c
      case Heartbeat(isReply, ident) =>
        if isReply then Lookup(c, src, true, allowed).0
        else Log(c, Sent(Me(c), src, Heartbeat(true, ident)))
      case Other(_) => c
  }

  function OnUpper(c: Ctx, dst: Id, data: seq<byte>, allowed: bool): (r: Ctx)
    requires T.WellFormed(c.n.table)
    ensures Grows(c, r)
  {
    T.GetOrCreateFrame(c.n.table, dst, allowed, NewPeer(c.n, dst));
    var (c1, found) := Lookup(c, dst, true, allowed);
    if !found then Log(c1, Down(Me(c), dst, data, false))
    else if PeerAt(c1, dst).negotiated then
      Seal(Log(c1, Down(Me(c), dst, data, true)), dst, data)
    else if c1.n.queued < MAX_QUEUED_PACKETS then
      var p := PeerAt(c1, dst);
      var c2 := SetPeer(c1, dst, p.(queue := p.queue + [data]));
      var c3 := c2.(n := c2.n.(queued := c2.n.queued + 1));
      SendHello(Log(c3, Down(Me(c), dst, data, true)), dst, 1, 0)
    else
      SendHello(Log(c1, Down(Me(c), dst, data, false)), dst, 1, 0)
  }

  /** getLatency: creates the peer if needed and sends a heartbeat. */
  function Probe(c: Ctx, id: Id, ident: nat, allowed: bool): (r: Ctx)
    requires T.WellFormed(c.n.table)
    ensures Grows(c, r)
  {
    T.GetOrCreateFrame(c.n.table, id, allowed, NewPeer(c.n, id));
    var (c1, found) := Lookup(c, id, true, allowed);
    if found then Log(c1, Sent(Me(c), id, Heartbeat(false, ident))) else c1
  }

  /** The session timeout of periodicPeer. */
  function Expire(c: Ctx, id: Id, now: int): (r: Ctx)
    ensures Grows(c, r)
  {
    if Has(c, id) && PeerAt(c, id).negotiated && PeerAt(c, id).lastValid < now - RENEGOTIATION_TIMEOUT
    then SetPeer(c, id, PeerAt(c, id).(negotiated := false))
    else c
  }

  /** Everything that can happen to a node. `Find` is a lookup made by another layer. */
  datatype Input =
    | FromLower(src: Id, pkt: Packet, allowed: bool, now: int)
    | FromUpper(dst: Id, data: seq<byte>, allowed: bool)
    | Find(id: Id, create: bool, allowed: bool)
    | Latency(id: Id, ident: nat, allowed: bool)
    | Periodic(id: Id, now: int)

  function Handle(c: Ctx, i: Input): (r: Ctx)
    requires T.WellFormed(c.n.table)
    ensures Grows(c, r)
  {
    match i
    case FromLower(src, pkt, allowed, now) => OnLower(c, src, pkt, allowed, now)
    case FromUpper(dst, data, allowed) => OnUpper(c, dst, data, allowed)
    case Find(id, create, allowed) => Lookup(c, id, create, allowed).0
    case Latency(id, ident, allowed) => Probe(c, id, ident, allowed)
    case Periodic(id, now) => Expire(c, id, now)
  }
}
