/** Every handler of the security layer keeps the session invariant. */
module SessionProof {
  import opened Prelude
  import opened SessionTerms
  import opened SecurityNode
  import opened Session
  import T = PeerTable

  lemma GoodSetPeer(cfg: Config, c: Ctx, b: Id, p: Peer)
    requires Good(cfg, c) && Has(c, b)
    requires GoodPeer(cfg, c.h, Me(c), b, p)
    ensures Good(cfg, SetPeer(c, b, p))
  {
  }

  lemma GoodLookup(cfg: Config, c: Ctx, b: Id, create: bool, allowed: bool)
    requires Good(cfg, c)
    ensures var (c', found) := Lookup(c, b, create, allowed);
      && Good(cfg, c') && c'.h == c.h && Me(c') == Me(c)
      && c'.n.helloseq == c.n.helloseq && c'.n.flags == c.n.flags
      && (found ==> Has(c', b))
      && (found && b == Me(c) ==> !PeerAt(c', b).negotiated)
  {
    var newPeer := NewPeer(c.n, b);
    T.GetOrCreateFrame(c.n.table, b, allowed, newPeer);
    var (c', found) := Lookup(c, b, create, allowed);
    forall p | p in c'.n.table.peers ensures GoodPeer(cfg, c.h, Me(c), p, c'.n.table.peers[p]) {
      if p in c.n.table.peers {
        assert GoodPeer(cfg, c.h, Me(c), p, c.n.table.peers[p]);
      }
    }
  }

  lemma GoodSendHello(cfg: Config, c: Ctx, b: Id, num: nat, echo: nat)
    requires Good(cfg, c) && Has(c, b) && 1 <= num <= 3
    requires b in cfg && num >= 2 ==> exists j :: HelloSeqAt(c.h, j, b, Me(c), echo)
    ensures Good(cfg, SendHello(c, b, num, echo))
  {
    var c' := SendHello(c, b, num, echo);
    var e := c'.h[|c.h|];
    CountPrefix(c.h, c'.h, |c.h|, Me(c));
    assert GoodPeer(cfg, c.h, Me(c), b, PeerAt(c, b));
    if b in cfg && num >= 2 {
      var j :| HelloSeqAt(c.h, j, b, Me(c), echo);
      assert HelloSeqAt(c'.h, j, b, Me(c), echo);
    }
    GoodLog(cfg, c, e);
  }

  lemma GoodSeal(cfg: Config, c: Ctx, b: Id, data: seq<byte>)
    requires Good(cfg, c) && Has(c, b) && PeerAt(c, b).negotiated
    requires HandedDown(c.h, |c.h|, Me(c), b, data)
    ensures Good(cfg, Seal(c, b, data))
  {
    var e1 := Sealed(Me(c), b, data);
    GoodLog(cfg, c, e1);
    var c1 := Log(c, e1);
    var pkt := Data(c.n.nonces, PeerAt(c, b).tx, Zeros() + data);
    if |data| + 8 < 2010 {
      assert pkt.plain[8..] == data;
      assert GoodPeer(cfg, c.h, Me(c), b, PeerAt(c, b));
      HandedDownExtends(c.h, c1.h + [Sent(Me(c), b, pkt)], Me(c), b, data);
      GoodLog(cfg, c1, Sent(Me(c), b, pkt));
    }
  }

  lemma HandedDownExtends(h: seq<Event>, h': seq<Event>, a: Id, b: Id, data: seq<byte>)
    requires h <= h' && HandedDown(h, |h|, a, b, data)
    ensures forall i | |h| <= i :: HandedDown(h', i, a, b, data)
  {
    var j :| 0 <= j < |h| && h[j].Down? && h[j].node == a && h[j].peer == b && h[j].data == data;
    assert h'[j] == h[j];
  }

  /** The queue counter is no part of the invariant. */
  lemma GoodSetQueued(cfg: Config, c: Ctx, q: int)
    requires Good(cfg, c)
    ensures Good(cfg, c.(n := c.n.(queued := q)))
  {
  }

  ghost predicate AllHandedDown(h: seq<Event>, a: Id, b: Id, queue: seq<seq<byte>>) {
    forall k {:trigger queue[k]} | 0 <= k < |queue| :: HandedDown(h, |h|, a, b, queue[k])
  }

  lemma AllHandedDownTail(h: seq<Event>, h': seq<Event>, a: Id, b: Id, queue: seq<seq<byte>>)
    requires AllHandedDown(h, a, b, queue) && h <= h' && queue != []
    ensures AllHandedDown(h', a, b, queue[1..]) && HandedDown(h, |h|, a, b, queue[0])
  {
    var rest := queue[1..];
    forall k | 0 <= k < |rest| ensures HandedDown(h', |h'|, a, b, rest[k]) {
      assert rest[k] == queue[k + 1];
      HandedDownExtends(h, h', a, b, queue[k + 1]);
    }
  }

  lemma {:induction false} GoodFlush(cfg: Config, c: Ctx, b: Id, queue: seq<seq<byte>>)
    requires Good(cfg, c) && Has(c, b) && PeerAt(c, b).negotiated
    requires AllHandedDown(c.h, Me(c), b, queue)
    ensures Good(cfg, Flush(c, b, queue))
    decreases |queue|
  {
    if queue != [] {
      var c0 := c.(n := c.n.(queued := c.n.queued - 1));
      GoodSetQueued(cfg, c, c.n.queued - 1);
      AllHandedDownTail(c.h, Seal(c0, b, queue[0]).h, Me(c), b, queue);
      GoodSeal(cfg, c0, b, queue[0]);
      GoodFlush(cfg, Seal(c0, b, queue[0]), b, queue[1..]);
    }
  }

  lemma GoodFinish(cfg: Config, c: Ctx, b: Id)
    requires Good(cfg, c) && Has(c, b)
    requires GoodPeer(cfg, c.h, Me(c), b, PeerAt(c, b).(negotiated := true))
    ensures var c' := FinishNegotiation(c, b);
      Good(cfg, c')
  {
    var p := PeerAt(c, b);
    GoodSetPeer(cfg, c, b, p.(negotiated := true));
    var c1 := SetPeer(c, b, p.(negotiated := true));
    GoodFlush(cfg, c1, b, p.queue);
    var c2 := Flush(c1, b, p.queue);
    GoodSetPeer(cfg, c2, b, PeerAt(c2, b).(queue := []));
  }

  /** A verified hello from a node that follows the code was sent by it, to the one it names. */
  lemma HelloOrigin(cfg: Config, h: seq<Event>, a: Id, pkt: Packet)
    requires GoodHistory(cfg, h) && pkt.Hello? && Deliverable(cfg, h, pkt)
    requires UNSET !in cfg
    requires a in cfg && DeviceId(pkt.body.pub) == a && Verifies(pkt.body.pub, pkt.body, pkt.sig)
    ensures exists k: nat :: SentAt(h, k, a, pkt.body.target, pkt) && GoodAt(cfg, h, k)
  {
    assert pkt.sig.signer == PubKey(a);
    var k: nat, x: Id, y: Id, body :| SentAt(h, k, x, y, Hello(body, pkt.sig));
    assert GoodAt(cfg, h, k);
    assert SentAt(h, k, a, pkt.body.target, pkt);
  }

  /** The keys derived from an accepted hello are the expected ones. */
  lemma GoodKeys(cfg: Config, c: Ctx, b: Id, pkt: Packet)
    requires Good(cfg, c) && Has(c, b) && pkt.Hello? && Deliverable(cfg, c.h, pkt)
    requires pkt.body.target == Me(c) && DeviceId(pkt.body.pub) == b && Verifies(pkt.body.pub, pkt.body, pkt.sig)
    ensures var p := DeriveKeys(Me(c), c.n.flags, b, PeerAt(c, b), pkt.body);
      GoodPeer(cfg, c.h, Me(c), b, if pkt.body.kx == WeakPoint then p else p.(negotiated := true))
  {
    var p0 := PeerAt(c, b);
    assert GoodPeer(cfg, c.h, Me(c), b, p0);
    if b in cfg {
      HelloOrigin(cfg, c.h, b, pkt);
      var k: nat :| SentAt(c.h, k, b, Me(c), pkt) && GoodAt(cfg, c.h, k);
    }
    forall k, f1: nat, f2: nat ensures DerivedFrom(MixFlags(k, f1, f2), Me(c), b) == DerivedFrom(k, Me(c), b) {
    }
  }

  lemma GoodAcceptHello(cfg: Config, c: Ctx, b: Id, pkt: Packet)
    requires Good(cfg, c) && Has(c, b) && pkt.Hello? && Deliverable(cfg, c.h, pkt)
    requires pkt.body.target == Me(c) && DeviceId(pkt.body.pub) == b && Verifies(pkt.body.pub, pkt.body, pkt.sig)
    requires 2 <= pkt.body.num <= 3 && pkt.body.echo == c.n.helloseq
    ensures Good(cfg, AcceptHello(c, b, pkt))
  {
    GoodKeys(cfg, c, b, pkt);
    var p := DeriveKeys(Me(c), c.n.flags, b, PeerAt(c, b), pkt.body);
    if pkt.body.kx == WeakPoint {
      GoodSetPeer(cfg, c, b, p);
    } else {
      GoodFinishAfterKeys(cfg, c, b, p);
      if b in cfg {
        HelloOrigin(cfg, c.h, b, pkt);
      }
      GoodConclude(cfg, c.h, FinishNegotiation(SetPeer(c, b, p), b), b, pkt);
    }
  }

  lemma GoodConclude(cfg: Config, h: seq<Event>, c: Ctx, b: Id, pkt: Packet)
    requires Good(cfg, c) && Has(c, b) && pkt.Hello? && 2 <= pkt.body.num <= 3
    requires h <= c.h && pkt.body.echo == c.n.helloseq
    requires b in cfg ==> exists k: nat :: SentAt(h, k, b, Me(c), pkt)
    ensures Good(cfg, Conclude(c, b, pkt))
  {
    if b in cfg {
      var k: nat :| SentAt(h, k, b, Me(c), pkt);
      assert SentAt(c.h, k, b, Me(c), pkt);
    }
    GoodAdvance(cfg, c, b, pkt);
    if pkt.body.num == 2 {
      var c1 := Advance(c, b, pkt);
      assert Me(c1) == Me(c);
      GoodHello3(cfg, h, c1, b, pkt);
    }
  }

  /** A hello 2 is answered with a hello 3 that echoes a helloseq its sender announced. */
  lemma GoodHello3(cfg: Config, h: seq<Event>, c: Ctx, b: Id, pkt: Packet)
    requires Good(cfg, c) && Has(c, b) && pkt.Hello? && h <= c.h
    requires b in cfg ==> exists k: nat :: SentAt(h, k, b, Me(c), pkt)
    ensures Good(cfg, SendHello(c, b, 3, pkt.body.helloseq))
  {
    if b in cfg {
      var k: nat :| SentAt(h, k, b, Me(c), pkt);
      assert HelloSeqAt(c.h, k, b, Me(c), pkt.body.helloseq);
    }
    GoodSendHello(cfg, c, b, 3, pkt.body.helloseq);
  }

  /** finishNegotiation after the new keys were stored. */
  lemma GoodFinishAfterKeys(cfg: Config, c: Ctx, b: Id, p: Peer)
    requires Good(cfg, c) && Has(c, b)
    requires GoodPeer(cfg, c.h, Me(c), b, p.(negotiated := true))
    ensures var c' := FinishNegotiation(SetPeer(c, b, p), b);
      Good(cfg, c')
  {
    var d := SetPeer(c, b, p.(negotiated := true));
    GoodSetPeer(cfg, c, b, p.(negotiated := true));
    GoodFinish(cfg, d, b);
    var c1 := SetPeer(c, b, p);
    assert d == SetPeer(c1, b, p.(negotiated := true));
    SameFinish(c1, d, b);
  }

  /** finishNegotiation marks the peer as negotiated, whether it was so already or not. */
  lemma SameFinish(c: Ctx, d: Ctx, b: Id)
    requires Has(c, b) && d == SetPeer(c, b, PeerAt(c, b).(negotiated := true))
    ensures FinishNegotiation(c, b) == FinishNegotiation(d, b)
  {
    assert d.n.table.peers[b := PeerAt(d, b)] == d.n.table.peers;
  }

  /** Logging an acceptance and advancing helloseq keep the two in step. */
  lemma GoodAdvance(cfg: Config, c: Ctx, b: Id, pkt: Packet)
    requires Good(cfg, c) && Has(c, b) && pkt.Hello? && 2 <= pkt.body.num <= 3
    requires pkt.body.echo == c.n.helloseq
    requires b in cfg ==> exists k: nat :: SentAt(c.h, k, b, Me(c), pkt)
    ensures Good(cfg, Advance(c, b, pkt))
  {
    var e := Accepted(Me(c), b, pkt);
    var h' := c.h + [e];
    CountPrefix(c.h, h', |c.h|, Me(c));
    if b in cfg {
      var k: nat :| SentAt(c.h, k, b, Me(c), pkt);
      assert SentAt(h', k, b, Me(c), pkt);
    }
    GoodAppend(cfg, c.h, e);
    var n' := c.n.(helloseq := Wrap64(c.n.helloseq + 1));
    ModStep(cfg[Me(c)].helloseq + Count(c.h, |c.h|, Me(c)));
    forall x | x in n'.table.peers ensures GoodPeer(cfg, h', Me(c), x, n'.table.peers[x]) {
      var p := n'.table.peers[x];
      assert GoodPeer(cfg, c.h, Me(c), x, p);
      forall k | 0 <= k < |p.queue| ensures HandedDown(h', |h'|, Me(c), x, p.queue[k]) {
        HandedDownExtends(c.h, h', Me(c), x, p.queue[k]);
      }
    }
  }

  lemma ModStep(x: nat)
    ensures Wrap64(Wrap64(x) + 1) == Wrap64(x + 1)
  {
  }

  lemma GoodHandleHello(cfg: Config, c: Ctx, b: Id, pkt: Packet, allowed: bool)
    requires Good(cfg, c) && pkt.Hello? && 1 <= pkt.body.num <= 3 && Deliverable(cfg, c.h, pkt)
    ensures Good(cfg, HandleHello(c, b, pkt, allowed))
  {
    GoodLookup(cfg, c, b, true, allowed);
    var (c1, found) := Lookup(c, b, true, allowed);
    if found && pkt.body.target == Me(c) && DeviceId(pkt.body.pub) == b
       && Verifies(pkt.body.pub, pkt.body, pkt.sig) {
      if pkt.body.num == 1 {
        if b in cfg {
          HelloOrigin(cfg, c.h, b, pkt);
          var k: nat :| SentAt(c.h, k, b, Me(c), pkt);
          assert HelloSeqAt(c1.h, k, b, Me(c), pkt.body.helloseq);
        }
        GoodSendHello(cfg, c1, b, 2, pkt.body.helloseq);
      } else if pkt.body.echo == c1.n.helloseq {
        GoodAcceptHello(cfg, c1, b, pkt);
      }
    }
  }

  /** A box that opens under the key expected from a code-following peer was sent by that peer to us. */
  lemma DataOrigin(cfg: Config, h: seq<Event>, b: Id, a: Id, pkt: Packet)
    requires GoodHistory(cfg, h) && pkt.Data? && Deliverable(cfg, h, pkt)
    requires a in cfg && b in cfg && a != b && pkt.key == RxKey(cfg, b, a)
    ensures exists k :: SentAt(h, k, a, b, pkt)
  {
    assert DerivedFrom(RxKey(cfg, b, a), a, b);
    BasesSeparate(cfg, a, b, a, b, pkt.key);
    var k: nat, x: Id, y: Id :| SentAt(h, k, x, y, pkt);
    assert GoodAt(cfg, h, k);
    BasesSeparate(cfg, a, b, x, y, pkt.key);
    assert (x, y) == (a, b);
  }

  lemma GoodHandleData(cfg: Config, c: Ctx, b: Id, pkt: Packet, allowed: bool, now: int)
    requires Good(cfg, c) && pkt.Data? && PacketSize(pkt) < 2000 && Deliverable(cfg, c.h, pkt)
    ensures Good(cfg, HandleData(c, b, pkt, allowed, now))
  {
    GoodLookup(cfg, c, b, true, allowed);
    var (c1, found) := Lookup(c, b, true, allowed);
    if |pkt.plain| > 8 && found {
      var p := PeerAt(c1, b);
      assert GoodPeer(cfg, c1.h, Me(c), b, p);
      if !p.negotiated {
        GoodSendHello(cfg, c1, b, 1, 0);
      } else if pkt.key == p.rx {
        GoodSetPeer(cfg, c1, b, p.(lastValid := now));
        var c2 := SetPeer(c1, b, p.(lastValid := now));
        var e := Up(Me(c), b, pkt.plain[8..], pkt);
        if b in cfg {
          DataOrigin(cfg, c.h, Me(c), b, pkt);
          var k: nat :| SentAt(c.h, k, b, Me(c), pkt);
          assert SentAt(c2.h + [e], k, b, Me(c), pkt);
        }
        GoodLog(cfg, c2, e);
      }
    }
  }

  lemma GoodOnUpper(cfg: Config, c: Ctx, b: Id, data: seq<byte>, allowed: bool)
    requires Good(cfg, c)
    ensures Good(cfg, OnUpper(c, b, data, allowed))
  {
    GoodLookup(cfg, c, b, true, allowed);
    var (c1, found) := Lookup(c, b, true, allowed);
    if !found {
      GoodLog(cfg, c1, Down(Me(c), b, data, false));
    } else if PeerAt(c1, b).negotiated {
      var e := Down(Me(c), b, data, true);
      GoodLog(cfg, c1, e);
      var c2 := Log(c1, e);
      assert c2.h[|c1.h|] == e;
      GoodSeal(cfg, c2, b, data);
    } else if c1.n.queued < MAX_QUEUED_PACKETS {
      var e := Down(Me(c), b, data, true);
      GoodLog(cfg, c1, e);
      var d := Log(c1, e);
      var p := PeerAt(c1, b);
      assert GoodPeer(cfg, d.h, Me(c), b, p);
      assert d.h[|c1.h|] == e;
      var p' := p.(queue := p.queue + [data]);
      GoodSetPeer(cfg, d, b, p');
      var d' := SetPeer(d, b, p');
      GoodSendHello(cfg, d'.(n := d'.n.(queued := d'.n.queued + 1)), b, 1, 0);
    } else {
      GoodLog(cfg, c1, Down(Me(c), b, data, false));
      GoodSendHello(cfg, Log(c1, Down(Me(c), b, data, false)), b, 1, 0);
    }
  }

  lemma GoodOnLower(cfg: Config, c: Ctx, src: Id, pkt: Packet, allowed: bool, now: int)
    requires Good(cfg, c) && Deliverable(cfg, c.h, pkt)
    ensures Good(cfg, OnLower(c, src, pkt, allowed, now))
  {
    if PacketSize(pkt) < 2000 {
      match pkt
      case Data(_, _, _) => GoodHandleData(cfg, c, src, pkt, allowed, now);
      case Hello(body, _) =>
        if 1 <= body.num <= 3 { GoodHandleHello(cfg, c, src, pkt, allowed); }
      case Heartbeat(isReply, ident) =>
        if isReply { GoodLookup(cfg, c, src, true, allowed); }
        else { GoodLog(cfg, c, Sent(Me(c), src, Heartbeat(true, ident))); }
      case Other(_) =>
    }
  }

  lemma GoodProbe(cfg: Config, c: Ctx, id: Id, ident: nat, allowed: bool)
    requires Good(cfg, c)
    ensures Good(cfg, Probe(c, id, ident, allowed))
  {
    GoodLookup(cfg, c, id, true, allowed);
    var (c1, found) := Lookup(c, id, true, allowed);
    if found { GoodLog(cfg, c1, Sent(Me(c), id, Heartbeat(false, ident))); }
  }

  /** Whatever happens to a node, and whatever the attacker delivers, the invariant is kept. */
  lemma GoodHandle(cfg: Config, c: Ctx, i: Input)
    requires Good(cfg, c) && Enabled(cfg, c.h, i)
    ensures Good(cfg, Handle(c, i))
  {
    match i
    case FromLower(src, pkt, allowed, now) => GoodOnLower(cfg, c, src, pkt, allowed, now);
    case FromUpper(dst, data, allowed) => GoodOnUpper(cfg, c, dst, data, allowed);
    case Find(id, create, allowed) => GoodLookup(cfg, c, id, create, allowed);
    case Latency(id, ident, allowed) => GoodProbe(cfg, c, id, ident, allowed);
    case Periodic(id, now) =>
      if Has(c, id) {
        assert GoodPeer(cfg, c.h, Me(c), id, PeerAt(c, id));
        GoodSetPeer(cfg, c, id, PeerAt(c, id).(negotiated := false));
      }
  }
}
