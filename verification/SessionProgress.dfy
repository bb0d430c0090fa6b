/** From every reachable state, whatever the attacker did before, four steps in order (re)establish a
    session and a fifth delivers the payload: the safety theorems are about a protocol that gets there. */
module SessionProgress {
  import opened Prelude
  import opened SessionTerms
  import opened SecurityNode
  import opened Session
  import opened SessionProof
  import opened SessionTheorems
  import T = PeerTable

  /** The last thing node a did was to send b this hello, from its present state. */
  ghost predicate JustSent(c: Ctx, b: Id, num: nat, echo: nat) {
    && |c.h| > 0 && Has(c, b) && PeerAt(c, b).kx.KxPub?
    && c.h[|c.h| - 1] == Sent(Me(c), b, HelloPacket(c, b, num, echo))
  }

  lemma AskHello(cfg: Config, c: Ctx, b: Id, data: seq<byte>)
    requires Good(cfg, c) && T.Ordinary(Me(c), b)
    requires Has(c, b) ==> !PeerAt(c, b).negotiated
    ensures JustSent(OnUpper(c, b, data, true), b, 1, 0)
  {
    T.GetOrCreateFrame(c.n.table, b, true, NewPeer(c.n, b));
    GoodOnUpper(cfg, c, b, data, true);
    var r := OnUpper(c, b, data, true);
    assert GoodPeer(cfg, r.h, Me(c), b, PeerAt(r, b));
  }

  /** The packet passes every check of handleHelloPacket at node c, coming from a. */
  predicate Addressed(c: Ctx, a: Id, pkt: Packet) {
    && pkt.Hello? && pkt.body.target == Me(c) && pkt.body.flags.Some? && pkt.body.kx.KxPub?
    && pkt.body.pub == PubKey(a) && Verifies(pkt.body.pub, pkt.body, pkt.sig)
  }

  lemma AnswerHello1(cfg: Config, c: Ctx, a: Id, pkt: Packet)
    requires Good(cfg, c) && T.Ordinary(Me(c), a) && Addressed(c, a, pkt) && pkt.body.num == 1
    requires Deliverable(cfg, c.h, pkt)
    ensures var r := OnLower(c, a, pkt, true, 0);
      JustSent(r, a, 2, pkt.body.helloseq) && r.n.helloseq == c.n.helloseq
  {
    T.GetOrCreateFrame(c.n.table, a, true, NewPeer(c.n, a));
    GoodLookup(cfg, c, a, true, true);
    var (c1, found) := Lookup(c, a, true, true);
    assert GoodPeer(cfg, c1.h, Me(c), a, PeerAt(c1, a));
  }

  lemma AcceptIt(cfg: Config, c: Ctx, b: Id, pkt: Packet)
    requires Good(cfg, c) && T.Ordinary(Me(c), b) && Addressed(c, b, pkt) && 2 <= pkt.body.num <= 3
    requires pkt.body.echo == c.n.helloseq && Deliverable(cfg, c.h, pkt)
    ensures var r := OnLower(c, b, pkt, true, 0);
      && Has(r, b) && PeerAt(r, b).negotiated
      && (pkt.body.num == 2 ==> JustSent(r, b, 3, pkt.body.helloseq))
  {
    T.GetOrCreateFrame(c.n.table, b, true, NewPeer(c.n, b));
    GoodOnLower(cfg, c, b, pkt, true, 0);
    var r := OnLower(c, b, pkt, true, 0);
    var (c1, found) := Lookup(c, b, true, true);
    GoodLookup(cfg, c, b, true, true);
    assert r == AcceptHello(c1, b, pkt);
    assert Has(r, b);
    assert GoodPeer(cfg, r.h, Me(c), b, PeerAt(r, b));
  }

  // ---- what waits for the session goes out with it ----

  /** a has sent b a data packet with this payload. */
  ghost predicate Shipped(h: seq<Event>, a: Id, b: Id, data: seq<byte>) {
    exists i, nonce, key :: SentAt(h, i, a, b, Data(nonce, key, Zeros() + data))
  }

  lemma StillShipped(h: seq<Event>, h': seq<Event>, a: Id, b: Id, data: seq<byte>)
    requires Shipped(h, a, b, data) && h <= h'
    ensures Shipped(h', a, b, data)
  {
    var i, nonce, key :| SentAt(h, i, a, b, Data(nonce, key, Zeros() + data));
    assert SentAt(h', i, a, b, Data(nonce, key, Zeros() + data));
  }

  lemma SealShips(c: Ctx, id: Id, data: seq<byte>)
    requires Has(c, id) && |data| <= 1950
    ensures Shipped(Seal(c, id, data).h, Me(c), id, data)
  {
    var h := Seal(c, id, data).h;
    assert SentAt(h, |h| - 1, Me(c), id, Data(c.n.nonces, PeerAt(c, id).tx, Zeros() + data));
  }

  lemma {:induction false} FlushShips(c: Ctx, id: Id, queue: seq<seq<byte>>, data: seq<byte>)
    requires Has(c, id) && data in queue && |data| <= 1950
    ensures Shipped(Flush(c, id, queue).h, Me(c), id, data)
    decreases |queue|
  {
    var c0 := c.(n := c.n.(queued := c.n.queued - 1));
    var c1 := Seal(c0, id, queue[0]);
    if queue[0] == data {
      SealShips(c0, id, data);
      StillShipped(c1.h, Flush(c1, id, queue[1..]).h, Me(c), id, data);
    } else {
      FlushShips(c1, id, queue[1..], data);
    }
  }

  /** Accepting a hello sends everything that was waiting for the session. */
  lemma AcceptShips(cfg: Config, c: Ctx, b: Id, pkt: Packet, data: seq<byte>)
    requires Good(cfg, c) && T.Ordinary(Me(c), b) && Addressed(c, b, pkt) && 2 <= pkt.body.num <= 3
    requires pkt.body.echo == c.n.helloseq && Deliverable(cfg, c.h, pkt)
    requires Has(c, b) && data in PeerAt(c, b).queue && |data| <= 1950
    ensures Shipped(OnLower(c, b, pkt, true, 0).h, Me(c), b, data)
  {
    T.GetOrCreateFrame(c.n.table, b, true, NewPeer(c.n, b));
    var c1 := Lookup(c, b, true, true).0;
    var p := DeriveKeys(Me(c1), c1.n.flags, b, PeerAt(c1, b), pkt.body);
    var c2 := SetPeer(c1, b, p);
    FlushShips(SetPeer(c2, b, p.(negotiated := true)), b, p.queue, data);
    var c3 := FinishNegotiation(c2, b);
    assert OnLower(c, b, pkt, true, 0) == Conclude(c3, b, pkt);
    StillShipped(c3.h, Conclude(c3, b, pkt).h, Me(c), b, data);
  }

  // ---- steps of the system ----

  /** Each of these states is a step away from the one before, the first from s. */
  ghost predicate Follow(cfg: Config, s: System, more: seq<System>) {
    forall k | 0 <= k < |more| :: Into(cfg, s, more, k)
  }

  ghost predicate Into(cfg: Config, s: System, more: seq<System>, k: int)
    requires 0 <= k < |more|
  {
    Step(cfg, if k == 0 then s else more[k - 1], more[k])
  }

  function After(s: System, a: Id, i: Input): System
    requires a in s.nodes && T.WellFormed(s.nodes[a].table)
  {
    var c := Handle(Ctx(s.nodes[a], s.history), i);
    System(s.nodes[a := c.n], c.h)
  }

  lemma TakeStep(cfg: Config, s: System, a: Id, i: Input) returns (s': System)
    requires Inv(cfg, s) && a in cfg && Enabled(cfg, s.history, i)
    ensures a in s.nodes && T.WellFormed(s.nodes[a].table) && s' == After(s, a, i)
    ensures Inv(cfg, s') && Step(cfg, s, s') && s.history <= s'.history
  {
    assert GoodNode(cfg, s.history, s.nodes[a]);
    s' := After(s, a, i);
    assert StepAt(cfg, s, s', a, i);
    InvStep(cfg, s, s', a, i);
  }

  lemma LastIsDeliverable(cfg: Config, h: seq<Event>)
    requires |h| > 0 && h[|h| - 1].Sent?
    ensures Deliverable(cfg, h, h[|h| - 1].pkt)
  {
    var i := |h| - 1;
    var Sent(a, b, pkt) := h[i];
    assert SentAt(h, i, a, b, pkt);
    if pkt.Hello? { assert SentAt(h, i, a, b, Hello(pkt.body, pkt.sig)); }
  }

  /** a's last action, and the system's, was this hello to b. */
  ghost predicate Pending(s: System, a: Id, b: Id, num: nat, echo: nat) {
    && a in s.nodes && s.nodes[a].table.me == a && JustSent(Ctx(s.nodes[a], s.history), b, num, echo)
  }

  /** The payload waits at a for a session with b. */
  ghost predicate Waits(s: System, a: Id, b: Id, data: seq<byte>) {
    a in s.nodes && b in s.nodes[a].table.peers && data in s.nodes[a].table.peers[b].queue
  }

  ghost predicate HasRoom(s: System, a: Id) { a in s.nodes && s.nodes[a].queued < MAX_QUEUED_PACKETS }

  lemma Ask(cfg: Config, s: System, a: Id, b: Id, data: seq<byte>) returns (s': System)
    requires Inv(cfg, s) && a in cfg && b in cfg && a != b && |data| < 10240 && !Negotiated(s, a, b)
    ensures Inv(cfg, s') && Step(cfg, s, s') && Pending(s', a, b, 1, 0)
    ensures HasRoom(s, a) ==> Waits(s', a, b, data)
  {
    s' := TakeStep(cfg, s, a, FromUpper(b, data, true));
    var c := Ctx(s.nodes[a], s.history);
    AskHello(cfg, c, b, data);
    T.GetOrCreateFrame(c.n.table, b, true, NewPeer(c.n, b));
  }

  lemma Answer(cfg: Config, s: System, a: Id, b: Id) returns (s': System)
    requires Inv(cfg, s) && a in cfg && b in cfg && a != b && Pending(s, a, b, 1, 0)
    ensures Inv(cfg, s') && Step(cfg, s, s') && s'.nodes[a] == s.nodes[a]
    ensures Pending(s', b, a, 2, s'.nodes[a].helloseq)
  {
    LastIsDeliverable(cfg, s.history);
    var hello := s.history[|s.history| - 1].pkt;
    s' := TakeStep(cfg, s, b, FromLower(a, hello, true, 0));
    AnswerHello1(cfg, Ctx(s.nodes[b], s.history), a, hello);
  }

  /** b's pending hello 2 or 3 echoes a's helloseq: a accepts it. */
  lemma Accept(cfg: Config, s: System, a: Id, b: Id, num: nat) returns (s': System)
    requires Inv(cfg, s) && a in cfg && b in cfg && a != b && 2 <= num <= 3
    requires Pending(s, b, a, num, s.nodes[a].helloseq)
    ensures Inv(cfg, s') && Step(cfg, s, s') && s'.nodes[b] == s.nodes[b] && Negotiated(s', a, b)
    ensures num == 2 ==> Pending(s', a, b, 3, s'.nodes[b].helloseq)
    ensures s.history <= s'.history
    ensures forall data | Waits(s, a, b, data) && |data| <= 1950 :: Shipped(s'.history, a, b, data)
  {
    LastIsDeliverable(cfg, s.history);
    var hello := s.history[|s.history| - 1].pkt;
    s' := TakeStep(cfg, s, a, FromLower(b, hello, true, 0));
    var c := Ctx(s.nodes[a], s.history);
    AcceptIt(cfg, c, b, hello);
    forall data | Waits(s, a, b, data) && |data| <= 1950 ensures Shipped(s'.history, a, b, data) {
      AcceptShips(cfg, c, b, hello, data);
    }
  }

  lemma BothAccept(cfg: Config, s: System, a: Id, b: Id, data: seq<byte>) returns (s1: System, s2: System)
    requires Inv(cfg, s) && a in cfg && b in cfg && a != b && Pending(s, b, a, 2, s.nodes[a].helloseq)
    ensures Step(cfg, s, s1) && Step(cfg, s1, s2) && Inv(cfg, s2) && Negotiated(s2, a, b) && Negotiated(s2, b, a)
    ensures Waits(s, a, b, data) && |data| <= 1950 ==> Shipped(s2.history, a, b, data)
  {
    s1 := Accept(cfg, s, a, b, 2);
    s2 := Accept(cfg, s1, b, a, 3);
    if Waits(s, a, b, data) && |data| <= 1950 { StillShipped(s1.history, s2.history, a, b, data); }
  }

  lemma Exchange(cfg: Config, s: System, a: Id, b: Id, data: seq<byte>) returns (more: seq<System>)
    requires Inv(cfg, s) && a in cfg && b in cfg && a != b && |data| < 10240 && !Negotiated(s, a, b)
    ensures |more| == 4 && Follow(cfg, s, more) && Inv(cfg, more[3])
    ensures Negotiated(more[3], a, b) && Negotiated(more[3], b, a)
    ensures HasRoom(s, a) && |data| <= 1950 ==> Shipped(more[3].history, a, b, data)
  {
    var s1 := Ask(cfg, s, a, b, data);
    var s2 := Answer(cfg, s1, a, b);
    var s3, s4 := BothAccept(cfg, s2, a, b, data);
    more := [s1, s2, s3, s4];
    FourSteps(cfg, s, s1, s2, s3, s4);
  }

  lemma FourSteps(cfg: Config, s: System, s1: System, s2: System, s3: System, s4: System)
    requires Step(cfg, s, s1) && Step(cfg, s1, s2) && Step(cfg, s2, s3) && Step(cfg, s3, s4)
    ensures Follow(cfg, s, [s1, s2, s3, s4])
  {
    assert Into(cfg, s, [s1], 0);
    OneMore(cfg, s, [s1], s2);
    OneMore(cfg, s, [s1, s2], s3);
    OneMore(cfg, s, [s1, s2, s3], s4);
    assert [s1] + [s2] == [s1, s2] && [s1, s2] + [s3] == [s1, s2, s3];
    assert [s1, s2, s3] + [s4] == [s1, s2, s3, s4];
  }

  lemma OneMore(cfg: Config, s: System, more: seq<System>, last: System)
    requires |more| > 0 && Follow(cfg, s, more) && Step(cfg, more[|more| - 1], last)
    ensures Follow(cfg, s, more + [last])
  {
    forall k | 0 <= k < |more| + 1 ensures Into(cfg, s, more + [last], k) {
      if k < |more| { assert Into(cfg, s, more, k); }
    }
  }

  lemma ExtendRun(cfg: Config, run: seq<System>, more: seq<System>)
    requires IsRun(cfg, run) && Follow(cfg, run[|run| - 1], more)
    ensures IsRun(cfg, run + more)
  {
    var run' := run + more;
    forall k | 0 < k < |run'| ensures StepsTo(cfg, run', k) {
      if k < |run| { assert StepsTo(cfg, run, k); } else { assert Into(cfg, run[|run| - 1], more, k - |run|); }
    }
  }

  /** Any reachable state in which a has no session with b can be continued by four steps, a packet
      handed down at a and three deliveries, into one where both have negotiated with each other. */
  lemma HandshakeCompletes(cfg: Config, run: seq<System>, a: Id, b: Id, data: seq<byte>)
      returns (more: seq<System>)
    requires IsRun(cfg, run) && a in cfg && b in cfg && a != b && |data| < 10240
    requires !Negotiated(run[|run| - 1], a, b)
    ensures |more| == 4 && IsRun(cfg, run + more)
    ensures Negotiated(more[3], a, b) && Negotiated(more[3], b, a)
  {
    RunInv(cfg, run, |run| - 1);
    more := Exchange(cfg, run[|run| - 1], a, b, data);
    ExtendRun(cfg, run, more);
  }

  /** A packet that a sent to b is opened there, now that b has a session and the flags agree. */
  lemma Deliver(cfg: Config, s: System, a: Id, b: Id, data: seq<byte>) returns (s': System, pkt: Packet)
    requires Inv(cfg, s) && a in cfg && b in cfg && a != b && Negotiated(s, b, a)
    requires Shipped(s.history, a, b, data) && 0 < |data| <= 1950
    requires cfg[a].flags == 0 <==> cfg[b].flags == 0
    ensures Step(cfg, s, s') && s'.history == s.history + [Up(b, a, data, pkt)] && Negotiated(s', b, a)
  {
    var i, nonce, key :| SentAt(s.history, i, a, b, Data(nonce, key, Zeros() + data));
    pkt := Data(nonce, key, Zeros() + data);
    assert GoodAt(cfg, s.history, i);
    KeysAgreeIff(cfg, a, b);
    assert GoodNode(cfg, s.history, s.nodes[b]);
    assert GoodPeer(cfg, s.history, b, a, s.nodes[b].table.peers[a]);
    assert Deliverable(cfg, s.history, pkt);
    s' := TakeStep(cfg, s, b, FromLower(a, pkt, true, 0));
    assert (Zeros() + data)[8..] == data;
  }

  /** What the sessions are for: whatever the attacker did before, a payload of 1 to 1950 bytes handed
      down at a for b, with no session yet and room in the queues, can reach b's upper layer in five
      steps: it waits, the hellos are exchanged, it is sealed when the session is there, and opened. */
  lemma PayloadArrives(cfg: Config, run: seq<System>, a: Id, b: Id, data: seq<byte>)
      returns (more: seq<System>, pkt: Packet)
    requires IsRun(cfg, run) && a in cfg && b in cfg && a != b && 0 < |data| <= 1950
    requires !Negotiated(run[|run| - 1], a, b) && HasRoom(run[|run| - 1], a)
    requires cfg[a].flags == 0 <==> cfg[b].flags == 0
    ensures |more| == 5 && IsRun(cfg, run + more)
    ensures more[4].history == more[3].history + [Up(b, a, data, pkt)] && Negotiated(more[4], b, a)
  {
    RunInv(cfg, run, |run| - 1);
    var first := Exchange(cfg, run[|run| - 1], a, b, data);
    var last, p := Deliver(cfg, first[3], a, b, data);
    more, pkt := first + [last], p;
    OneMore(cfg, run[|run| - 1], first, last);
    ExtendRun(cfg, run, more);
  }
}
