/** What the handlers of the security layer do, seen from outside: which events they add and what becomes of
    the session. */
module SessionEffects {
  import opened Prelude
  import opened SessionTerms
  import opened SecurityNode
  import opened Session
  import opened SessionTheorems
  import opened SessionProgress
  import opened SessionReplay
  import Q = SessionQueues
  import T = PeerTable

  /** The peer that a lookup of this id finds already there. */
  function PeerFor(n: Node, id: Id, allowed: bool): Option<Peer>
    requires T.WellFormed(n.table)
  {
    if T.Get(n.table, id, allowed).present && id in n.table.peers then Some(n.table.peers[id]) else None
  }

  /** After a getOrCreatePeer that succeeds. */
  lemma Found(c: Ctx, id: Id, allowed: bool)
    requires T.WellFormed(c.n.table)
    ensures var (c1, found) := Lookup(c, id, true, allowed); var p := PeerFor(c.n, id, allowed);
      && T.WellFormed(c1.n.table) && c1.h == c.h && Me(c1) == Me(c)
      && c1.n == c.n.(table := c1.n.table)
      && found == (p.Some? || allowed)
      && (found ==> Has(c1, id) && PeerAt(c1, id) == if p.Some? then p.value else NewPeer(c.n, id))
  {
    T.GetOrCreateFrame(c.n.table, id, allowed, NewPeer(c.n, id));
  }

  // ---- payloads going down ----

  /** A payload for a peer that can be found is taken if and only if there is a session or fewer than ten
      packets wait. With a session it is sealed at once; without, a hello goes out. */
  lemma UpperEffect(c: Ctx, dst: Id, data: seq<byte>, allowed: bool)
    requires T.WellFormed(c.n.table)
    ensures var c' := Handle(c, FromUpper(dst, data, allowed)); var p := PeerFor(c.n, dst, allowed);
      if p.None? && !allowed then c'.h == c.h + [Down(Me(c), dst, data, false)]
      else if p.Some? && p.value.negotiated then
        c'.h == c.h + [Down(Me(c), dst, data, true), Sealed(Me(c), dst, data)]
                    + (if |data| <= 2001 then [Sent(Me(c), dst, Data(c.n.nonces, p.value.tx, Zeros() + data))] else [])
      else
        var q := if p.Some? then p.value else NewPeer(c.n, dst);
        && Has(c', dst) && !PeerAt(c', dst).negotiated
        && PeerAt(c', dst).queue == q.queue + (if c.n.queued < 10 then [data] else [])
        && c'.h == c.h + [Down(Me(c), dst, data, c.n.queued < 10), Sent(Me(c), dst, HelloPacket(c', dst, 1, 0))]
  {
    Found(c, dst, allowed);
  }

  // ---- packets coming up ----

  /** A data packet from a peer without a session is answered with a hello 1; with one, it is handed up if it
      opens, and then counts as a sign of life; otherwise it is dropped. */
  lemma DataEffect(c: Ctx, src: Id, pkt: Packet, allowed: bool, now: int)
    requires T.WellFormed(c.n.table) && pkt.Data? && 8 < |pkt.plain| && PacketSize(pkt) < 2000
    ensures var c' := Handle(c, FromLower(src, pkt, allowed, now)); var p := PeerFor(c.n, src, allowed);
      if p.None? && !allowed then c'.h == c.h
      else if p.None? || !p.value.negotiated then
        Has(c', src) && c'.h == c.h + [Sent(Me(c), src, HelloPacket(c', src, 1, 0))]
      else if pkt.key == p.value.rx then
        && c'.h == c.h + [Up(Me(c), src, pkt.plain[8..], pkt)]
        && c'.n.table.peers == c.n.table.peers[src := p.value.(lastValid := now)]
      else c'.h == c.h && c'.n.table.peers == c.n.table.peers
  {
    Found(c, src, allowed);
  }

  /** The hello names this node, comes under the key of its sender and is signed with it. */
  predicate Genuine(c: Ctx, src: Id, pkt: Packet) {
    && pkt.Hello? && 1 <= pkt.body.num <= 3 && pkt.body.target == Me(c)
    && DeviceId(pkt.body.pub) == src && Verifies(pkt.body.pub, pkt.body, pkt.sig)
  }

  /** Of all hellos only genuine ones from a peer that can be found do anything: a hello 1 is answered with a
      hello 2 that echoes it; a hello 2 or 3 that echoes this node's helloseq, with a usable key,
      completes a negotiation. Any other leaves events, sessions and queues as they were. */
  lemma HelloEffect(c: Ctx, src: Id, pkt: Packet, allowed: bool, now: int)
    requires T.WellFormed(c.n.table) && pkt.Hello? && 1 <= pkt.body.num <= 3
    ensures var c' := Handle(c, FromLower(src, pkt, allowed, now)); var p := PeerFor(c.n, src, allowed);
      if !Genuine(c, src, pkt) || (p.None? && !allowed) || (pkt.body.num > 1 && pkt.body.echo != c.n.helloseq) then
        && c'.h == c.h && c'.n.helloseq == c.n.helloseq && (p.Some? ==> c'.n.table.peers == c.n.table.peers)
      else if pkt.body.num == 1 then
        Has(c', src) && c'.h == c.h + [Sent(Me(c), src, HelloPacket(c', src, 2, pkt.body.helloseq))]
      else Has(c', src) && Concluded(c, c', src, if p.Some? then p.value else NewPeer(c.n, src), pkt)
  {
    Found(c, src, allowed);
    var (c1, found) := Lookup(c, src, true, allowed);
    if Genuine(c, src, pkt) && found && pkt.body.num > 1 && pkt.body.echo == c.n.helloseq {
      assert Handle(c, FromLower(src, pkt, allowed, now)) == AcceptHello(c1, src, pkt);
      AcceptEffect(c1, src, pkt);
      SameStart(c, c1, AcceptHello(c1, src, pkt), src, PeerAt(c1, src), pkt);
    }
  }

  lemma SameStart(c: Ctx, c1: Ctx, c': Ctx, src: Id, p: Peer, pkt: Packet)
    requires pkt.Hello? && Has(c', src) && Concluded(c1, c', src, p, pkt)
    requires c1.h == c.h && c1.n == c.n.(table := c1.n.table) && Me(c1) == Me(c)
    ensures Concluded(c, c', src, p, pkt)
  {
  }

  /** After accepting this hello for peer p: with a usable key there are new keys and a session, nothing waits
      any more, the flags are the announced ones, the helloseq has moved on, and a hello 2 has been
      answered. With an unusable one nothing has changed but the flags, which are still mixed into the
      old keys. */
  ghost predicate Concluded(c: Ctx, c': Ctx, src: Id, p: Peer, pkt: Packet)
    requires pkt.Hello? && Has(c', src)
  {
    var q := PeerAt(c', src);
    && q.flags == (if pkt.body.flags.Some? then pkt.body.flags.value else 0) && q.lastValid == p.lastValid
    && q.rx == (var k := if pkt.body.kx == WeakPoint then p.rx else KxRx(Me(c), src, p.kx, pkt.body.kx);
                if q.flags != 0 then MixFlags(k, q.flags, c.n.flags) else k)
    && q.tx == (var k := if pkt.body.kx == WeakPoint then p.tx else KxTx(Me(c), src, p.kx, pkt.body.kx);
                if q.flags != 0 then MixFlags(k, c.n.flags, q.flags) else k)
    && if pkt.body.kx == WeakPoint then
         && c'.h == c.h && c'.n.helloseq == c.n.helloseq && c'.n.queued == c.n.queued
         && q.negotiated == p.negotiated && q.queue == p.queue && q.kx == p.kx
       else
         && q.negotiated && q.queue == [] && c'.n.queued == c.n.queued - |p.queue|
         && c'.n.helloseq == Wrap64(c.n.helloseq + 1)
         && var hello := Sent(Me(c), src, HelloPacket(c', src, 3, pkt.body.helloseq));
            var answer := if pkt.body.num == 2 then [hello] else [];
            |c'.h| > |c.h| + |answer| &&
            c'.h[|c'.h| - |answer| - 1..] == [Accepted(Me(c), src, pkt)] + answer
  }

  lemma AcceptEffect(c: Ctx, src: Id, pkt: Packet)
    requires pkt.Hello? && Has(c, src)
    ensures var c' := AcceptHello(c, src, pkt); Has(c', src) && Concluded(c, c', src, PeerAt(c, src), pkt)
  {
    var p := DeriveKeys(Me(c), c.n.flags, src, PeerAt(c, src), pkt.body);
    if pkt.body.kx != WeakPoint {
      FinishEffect(SetPeer(c, src, p), src);
    }
  }

  lemma FinishEffect(c: Ctx, id: Id)
    requires Has(c, id)
    ensures var c' := FinishNegotiation(c, id);
      && c'.n.table == c.n.table.(peers := c.n.table.peers[id := PeerAt(c, id).(negotiated := true, queue := [])])
      && c'.n.queued == c.n.queued - |PeerAt(c, id).queue|
  {
    var c1 := SetPeer(c, id, PeerAt(c, id).(negotiated := true));
    Q.FlushCount(c1, id, PeerAt(c, id).queue);
  }

  /** A heartbeat is answered with its ident, whoever sent it. */
  lemma HeartbeatEffect(c: Ctx, src: Id, ident: nat, allowed: bool, now: int)
    requires T.WellFormed(c.n.table)
    ensures Handle(c, FromLower(src, Heartbeat(false, ident), allowed, now)).h
      == c.h + [Sent(Me(c), src, Heartbeat(true, ident))]
    ensures Handle(c, FromLower(src, Heartbeat(true, ident), allowed, now)).h == c.h
  {
  }

  /** getLatency sends one to every peer that can be found. */
  lemma LatencyEffect(c: Ctx, id: Id, ident: nat, allowed: bool)
    requires T.WellFormed(c.n.table)
    ensures Handle(c, Latency(id, ident, allowed)).h == c.h +
      if PeerFor(c.n, id, allowed).Some? || allowed then [Sent(Me(c), id, Heartbeat(false, ident))] else []
  {
    Found(c, id, allowed);
  }
}
