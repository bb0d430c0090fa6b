/** A session from its negotiation to its end: it delivers, it is forgotten only when nothing has been heard
    for two minutes, the next packet brings it back, and no nonce is used twice in it. */
module SessionLife {
  import opened Prelude
  import opened SessionTerms
  import opened SecurityNode
  import opened Session
  import opened SessionProof
  import opened SessionTheorems
  import opened SessionProgress
  import opened SessionReplay
  import opened SessionEffects
  import T = PeerTable

  // ---- it delivers ----

  lemma HandDown(cfg: Config, s: System, a: Id, b: Id, data: seq<byte>) returns (s': System, pkt: Packet)
    requires Inv(cfg, s) && a in cfg && a != b && b != UNSET && Negotiated(s, a, b) && 0 < |data| <= 1950
    ensures Step(cfg, s, s') && Inv(cfg, s') && Negotiated(s', a, b)
    ensures forall x | x in s.nodes && x != a :: x in s'.nodes && s'.nodes[x] == s.nodes[x]
    ensures s'.history == s.history + [Down(a, b, data, true), Sealed(a, b, data), Sent(a, b, pkt)]
    ensures pkt == Data(s.nodes[a].nonces, s.nodes[a].table.peers[b].tx, Zeros() + data)
  {
    s' := TakeStep(cfg, s, a, FromUpper(b, data, true));
    var c := Ctx(s.nodes[a], s.history);
    UpperEffect(c, b, data, true);
    T.GetOrCreateFrame(c.n.table, b, true, NewPeer(c.n, b));
    pkt := Data(s.nodes[a].nonces, s.nodes[a].table.peers[b].tx, Zeros() + data);
  }

  /** What a session is for: from every reachable state in which both have negotiated and the flags agree, a
      payload of 1 to 1950 bytes handed down at a is sealed and sent in that step, and delivering the
      packet hands it up at b. */
  lemma SessionDelivers(cfg: Config, run: seq<System>, a: Id, b: Id, data: seq<byte>)
      returns (s1: System, s2: System, pkt: Packet)
    requires IsRun(cfg, run) && a in cfg && b in cfg && a != b && 0 < |data| <= 1950
    requires Negotiated(run[|run| - 1], a, b) && Negotiated(run[|run| - 1], b, a)
    requires cfg[a].flags == 0 <==> cfg[b].flags == 0
    ensures IsRun(cfg, run + [s1] + [s2])
    ensures var h := run[|run| - 1].history;
      s1.history == h + [Down(a, b, data, true), Sealed(a, b, data), Sent(a, b, pkt)]
    ensures s2.history == s1.history + [Up(b, a, data, pkt)]
  {
    var s := run[|run| - 1];
    RunInv(cfg, run, |run| - 1);
    s1, pkt := HandDown(cfg, s, a, b, data);
    OneStepLonger(cfg, run, s1);
    assert SentAt(s1.history, |s1.history| - 1, a, b, Data(pkt.nonce, pkt.key, Zeros() + data));
    s2 := TakeUp(cfg, s1, a, b, pkt);
    assert pkt.plain[8..] == data;
    OneStepLonger(cfg, run + [s1], s2);
  }

  lemma TakeUp(cfg: Config, s: System, a: Id, b: Id, pkt: Packet) returns (s': System)
    requires Inv(cfg, s) && a in cfg && b in cfg && a != b && Negotiated(s, b, a)
    requires s.history != [] && s.history[|s.history| - 1] == Sent(a, b, pkt)
    requires pkt.Data? && 8 < |pkt.plain| <= 1958
    requires cfg[a].flags == 0 <==> cfg[b].flags == 0
    ensures Step(cfg, s, s') && s'.history == s.history + [Up(b, a, pkt.plain[8..], pkt)]
  {
    var i := |s.history| - 1;
    assert SentAt(s.history, i, a, b, pkt);
    assert GoodAt(cfg, s.history, i);
    KeysAgreeIff(cfg, a, b);
    assert GoodNode(cfg, s.history, s.nodes[b]);
    assert GoodPeer(cfg, s.history, b, a, s.nodes[b].table.peers[a]);
    s' := TakeStep(cfg, s, b, FromLower(a, pkt, true, 0));
    DataEffect(Ctx(s.nodes[b], s.history), a, pkt, true, 0);
  }

  // ---- it comes back ----

  /** b, which has no session, answers a data packet with a hello 1. */
  lemma AskBack(cfg: Config, s: System, a: Id, b: Id, pkt: Packet) returns (s': System)
    requires Inv(cfg, s) && a in cfg && b in cfg && a != b && !Negotiated(s, b, a)
    requires s.history != [] && s.history[|s.history| - 1] == Sent(a, b, pkt)
    requires pkt.Data? && 8 < |pkt.plain| <= 1958
    ensures Step(cfg, s, s') && Inv(cfg, s') && Pending(s', b, a, 1, 0) && s'.nodes[a] == s.nodes[a]
  {
    LastIsDeliverable(cfg, s.history);
    s' := TakeStep(cfg, s, b, FromLower(a, pkt, true, 0));
    var c := Ctx(s.nodes[b], s.history);
    DataEffect(c, a, pkt, true, 0);
    T.GetOrCreateFrame(c.n.table, a, true, NewPeer(c.n, a));
    assert GoodNode(cfg, s'.history, s'.nodes[b]);
    assert GoodPeer(cfg, s'.history, b, a, s'.nodes[b].table.peers[a]);
  }

  /** A session that only one end still has is negotiated again by the next payload this end sends, in five
      steps: b answers what it cannot open with a hello 1, and the exchange takes its course. */
  lemma LostSessionReturns(cfg: Config, run: seq<System>, a: Id, b: Id, data: seq<byte>)
      returns (more: seq<System>)
    requires IsRun(cfg, run) && a in cfg && b in cfg && a != b && 0 < |data| <= 1950
    requires Negotiated(run[|run| - 1], a, b) && !Negotiated(run[|run| - 1], b, a)
    ensures |more| == 5 && IsRun(cfg, run + more)
    ensures Negotiated(more[4], a, b) && Negotiated(more[4], b, a)
  {
    RunInv(cfg, run, |run| - 1);
    more := Renegotiate(cfg, run[|run| - 1], a, b, data);
    ExtendRun(cfg, run, more);
  }

  lemma Renegotiate(cfg: Config, s: System, a: Id, b: Id, data: seq<byte>) returns (more: seq<System>)
    requires Inv(cfg, s) && a in cfg && b in cfg && a != b && 0 < |data| <= 1950
    requires Negotiated(s, a, b) && !Negotiated(s, b, a)
    ensures |more| == 5 && Follow(cfg, s, more) && Negotiated(more[4], a, b) && Negotiated(more[4], b, a)
  {
    var s1, s2, s3 := UntilHello2(cfg, s, a, b, data);
    var s4, s5 := BothAccept(cfg, s3, b, a, []);
    FourSteps(cfg, s1, s2, s3, s4, s5);
    FollowCons(cfg, s, s1, [s2, s3, s4, s5]);
    more := [s1] + [s2, s3, s4, s5];
  }

  lemma FollowCons(cfg: Config, s: System, s1: System, more: seq<System>)
    requires Step(cfg, s, s1) && Follow(cfg, s1, more)
    ensures Follow(cfg, s, [s1] + more)
  {
    forall k | 0 <= k < |more| + 1 ensures Into(cfg, s, [s1] + more, k) {
      if k > 0 { assert Into(cfg, s1, more, k - 1); }
    }
  }

  lemma UntilHello2(cfg: Config, s: System, a: Id, b: Id, data: seq<byte>)
      returns (s1: System, s2: System, s3: System)
    requires Inv(cfg, s) && a in cfg && b in cfg && a != b && 0 < |data| <= 1950
    requires Negotiated(s, a, b) && !Negotiated(s, b, a)
    ensures Step(cfg, s, s1) && Step(cfg, s1, s2) && Step(cfg, s2, s3) && Inv(cfg, s3)
    ensures b in s3.nodes && Pending(s3, a, b, 2, s3.nodes[b].helloseq)
  {
    var pkt;
    s1, pkt := HandDown(cfg, s, a, b, data);
    s2 := AskBack(cfg, s1, a, b, pkt);
    s3 := Answer(cfg, s2, b, a);
  }

  // ---- it is forgotten ----

  /** The node is given a data packet from b that opens. */
  predicate HearsFrom(n: Node, i: Input, b: Id) { i.FromLower? && Opens(n, i, b, i.pkt) }

  /** The visit that forgets b: nothing has been heard for two minutes. */
  predicate Forgets(p: Peer, i: Input, b: Id) {
    i.Periodic? && i.id == b && p.lastValid < i.now - 120000
  }

  /** From p, what b is to a node, to q: when it was last heard, and whether there is a session. */
  predicate Lives(n: Node, i: Input, b: Id, p: Peer, q: Peer) {
    && q.lastValid == (if HearsFrom(n, i, b) then i.now else p.lastValid)
    && (p.negotiated ==> (q.negotiated <==> !Forgets(p, i, b)))
  }

  /** No handler does more or less to the peer of an ordinary id. */
  lemma HandleLives(c: Ctx, i: Input, b: Id)
    requires T.WellFormed(c.n.table) && T.Ordinary(Me(c), b)
    ensures var n' := Handle(c, i).n;
      && (b in c.n.table.peers ==> b in n'.table.peers)
      && (b in n'.table.peers ==>
            Lives(c.n, i, b, if b in c.n.table.peers then c.n.table.peers[b] else NewPeer(c.n, b), n'.table.peers[b]))
  {
    match i
    case FromLower(src, pkt, allowed, now) => LowerLives(c, src, pkt, allowed, now, b);
    case FromUpper(dst, data, allowed) => T.GetOrCreateFrame(c.n.table, dst, allowed, NewPeer(c.n, dst));
    case Find(id, create, allowed) => T.GetOrCreateFrame(c.n.table, id, allowed, NewPeer(c.n, id));
    case Latency(id, ident, allowed) => T.GetOrCreateFrame(c.n.table, id, allowed, NewPeer(c.n, id));
    case Periodic(id, now) =>
  }

  lemma LowerLives(c: Ctx, src: Id, pkt: Packet, allowed: bool, now: int, b: Id)
    requires T.WellFormed(c.n.table) && T.Ordinary(Me(c), b)
    ensures var i, n' := FromLower(src, pkt, allowed, now), OnLower(c, src, pkt, allowed, now).n;
      && (b in c.n.table.peers ==> b in n'.table.peers)
      && (b in n'.table.peers ==>
            Lives(c.n, i, b, if b in c.n.table.peers then c.n.table.peers[b] else NewPeer(c.n, b), n'.table.peers[b]))
  {
    T.GetOrCreateFrame(c.n.table, src, allowed, NewPeer(c.n, src));
    if pkt.Hello? { HelloLives(c, src, pkt, allowed, b); }
  }

  lemma HelloLives(c: Ctx, src: Id, pkt: Packet, allowed: bool, b: Id)
    requires T.WellFormed(c.n.table) && T.Ordinary(Me(c), b) && pkt.Hello?
    ensures var n' := HandleHello(c, src, pkt, allowed).n;
      var p := if b in c.n.table.peers then c.n.table.peers[b] else NewPeer(c.n, b);
      && (b in c.n.table.peers ==> b in n'.table.peers)
      && (b in n'.table.peers ==>
            var q := n'.table.peers[b]; q.lastValid == p.lastValid && (p.negotiated ==> q.negotiated))
  {
    T.GetOrCreateFrame(c.n.table, src, allowed, NewPeer(c.n, src));
    var (c1, found) := Lookup(c, src, true, allowed);
    HelloNode(c, src, pkt, allowed);
    if found { AcceptLives(c1, src, pkt); }
  }

  lemma HelloNode(c: Ctx, src: Id, pkt: Packet, allowed: bool)
    requires T.WellFormed(c.n.table) && pkt.Hello?
    ensures var (c1, found) := Lookup(c, src, true, allowed); var n' := HandleHello(c, src, pkt, allowed).n;
      n' == c1.n || (found && Has(c1, src) && n' == AcceptHello(c1, src, pkt).n)
  {
    T.GetOrCreateFrame(c.n.table, src, allowed, NewPeer(c.n, src));
  }

  lemma AcceptLives(c: Ctx, src: Id, pkt: Packet)
    requires pkt.Hello? && Has(c, src)
    ensures var n' := AcceptHello(c, src, pkt).n; var p := PeerAt(c, src);
      && n'.table.peers.Keys == c.n.table.peers.Keys
      && (forall x | x in c.n.table.peers && x != src :: n'.table.peers[x] == c.n.table.peers[x])
      && n'.table.peers[src].lastValid == p.lastValid && (p.negotiated ==> n'.table.peers[src].negotiated)
  {
    var p := DeriveKeys(Me(c), c.n.flags, src, PeerAt(c, src), pkt.body);
    FinishEffect(SetPeer(c, src, p), src);
  }

  /** When a last opened a packet from b in the first k steps; 0 before that. */
  ghost function LastHeard(run: seq<System>, acts: seq<Act>, k: nat, a: Id, b: Id): int
    requires k <= |acts| < |run|
  {
    if k == 0 then 0
    else if acts[k - 1].node == a && a in run[k - 1].nodes && HearsFrom(run[k - 1].nodes[a], acts[k - 1].input, b)
    then acts[k - 1].input.now
    else LastHeard(run, acts, k - 1, a, b)
  }

  lemma StepLives(cfg: Config, run: seq<System>, acts: seq<Act>, k: nat, a: Id, b: Id)
    requires IsRunOf(cfg, run, acts) && k < |acts| && a in cfg && T.Ordinary(a, b)
    ensures a in run[k].nodes && a in run[k + 1].nodes && run[k].nodes[a].table.me == a
    ensures var n, n' := run[k].nodes[a], run[k + 1].nodes[a];
      if acts[k].node != a then n' == n
      else
        && (b in n.table.peers ==> b in n'.table.peers)
        && (b in n'.table.peers ==> Lives(n, acts[k].input, b,
              if b in n.table.peers then n.table.peers[b] else NewPeer(n, b), n'.table.peers[b]))
  {
    RunOfIsRun(cfg, run, acts);
    RunInv(cfg, run, k);
    assert Acted(cfg, run, acts, k);
    if acts[k].node == a { HandleLives(Ctx(run[k].nodes[a], run[k].history), acts[k].input, b); }
  }

  lemma {:induction false} LastValidIsLastHeard(cfg: Config, run: seq<System>, acts: seq<Act>, k: nat, a: Id, b: Id)
    requires IsRunOf(cfg, run, acts) && k < |run| && a in cfg && T.Ordinary(a, b)
    ensures a in run[k].nodes
    ensures b in run[k].nodes[a].table.peers ==>
      run[k].nodes[a].table.peers[b].lastValid == LastHeard(run, acts, k, a, b)
    ensures b !in run[k].nodes[a].table.peers ==> LastHeard(run, acts, k, a, b) == 0
  {
    if k > 0 {
      LastValidIsLastHeard(cfg, run, acts, k - 1, a, b);
      StepLives(cfg, run, acts, k - 1, a, b);
    }
  }

  /** In every run, a step ends the session that a has with b if and only if it is a's periodic visit to b and
      a has not opened a packet from b in the two minutes before. (A session over which nothing has
      come yet counts as last heard at time 0.) */
  lemma ForgottenIff(cfg: Config, run: seq<System>, acts: seq<Act>, k: nat, a: Id, b: Id)
    requires IsRunOf(cfg, run, acts) && k < |acts| && a in cfg && T.Ordinary(a, b) && Negotiated(run[k], a, b)
    ensures !Negotiated(run[k + 1], a, b) <==>
      && acts[k].node == a && acts[k].input.Periodic? && acts[k].input.id == b
      && LastHeard(run, acts, k, a, b) < acts[k].input.now - 120000
  {
    LastValidIsLastHeard(cfg, run, acts, k, a, b);
    StepLives(cfg, run, acts, k, a, b);
  }

  // ---- its nonces ----

  predicate DataAt(h: seq<Event>, i: int, a: Id) {
    0 <= i < |h| && h[i].Sent? && h[i].node == a && h[i].pkt.Data?
  }

  /** The data packets that a has sent so far carry nonces below n, each a different one. */
  ghost predicate NoncesBelow(h: seq<Event>, a: Id, n: nat) {
    && (forall i | DataAt(h, i, a) :: h[i].pkt.nonce < n)
    && (forall i, j | DataAt(h, i, a) && DataAt(h, j, a) && i < j :: h[i].pkt.nonce != h[j].pkt.nonce)
  }

  /** Events without data packets of a. */
  lemma NoncesKept(h: seq<Event>, h': seq<Event>, a: Id, n: nat)
    requires NoncesBelow(h, a, n) && h <= h' && forall i | |h| <= i < |h'| :: !DataAt(h', i, a)
    ensures NoncesBelow(h', a, n)
  {
    forall i | DataAt(h', i, a) ensures DataAt(h, i, a) { }
  }

  lemma SealNonces(c: Ctx, id: Id, data: seq<byte>)
    requires Has(c, id) && NoncesBelow(c.h, Me(c), c.n.nonces)
    ensures var c' := Seal(c, id, data); NoncesBelow(c'.h, Me(c), c'.n.nonces)
  {
    var c' := Seal(c, id, data);
    forall i | DataAt(c'.h, i, Me(c)) && i < |c'.h| - 1 ensures DataAt(c.h, i, Me(c)) { }
  }

  lemma {:induction false} FlushNonces(c: Ctx, id: Id, queue: seq<seq<byte>>)
    requires Has(c, id) && NoncesBelow(c.h, Me(c), c.n.nonces)
    ensures var c' := Flush(c, id, queue); NoncesBelow(c'.h, Me(c), c'.n.nonces)
    decreases |queue|
  {
    if queue != [] {
      var c0 := c.(n := c.n.(queued := c.n.queued - 1));
      SealNonces(c0, id, queue[0]);
      FlushNonces(Seal(c0, id, queue[0]), id, queue[1..]);
    }
  }

  lemma AcceptNonces(c: Ctx, src: Id, pkt: Packet)
    requires pkt.Hello? && Has(c, src) && NoncesBelow(c.h, Me(c), c.n.nonces)
    ensures var c' := AcceptHello(c, src, pkt); NoncesBelow(c'.h, Me(c), c'.n.nonces)
  {
    var c1 := SetPeer(c, src, DeriveKeys(Me(c), c.n.flags, src, PeerAt(c, src), pkt.body));
    if pkt.body.kx != WeakPoint {
      FlushNonces(SetPeer(c1, src, PeerAt(c1, src).(negotiated := true)), src, PeerAt(c1, src).queue);
      var c2 := FinishNegotiation(c1, src);
      NoncesKept(c2.h, Conclude(c2, src, pkt).h, Me(c), c2.n.nonces);
    }
  }

  lemma UpperNonces(c: Ctx, dst: Id, data: seq<byte>, allowed: bool)
    requires T.WellFormed(c.n.table) && NoncesBelow(c.h, Me(c), c.n.nonces)
    ensures var c' := OnUpper(c, dst, data, allowed); NoncesBelow(c'.h, Me(c), c'.n.nonces)
  {
    Found(c, dst, allowed);
    var (c1, found) := Lookup(c, dst, true, allowed);
    if found && PeerAt(c1, dst).negotiated {
      var c2 := Log(c1, Down(Me(c), dst, data, true));
      NoncesKept(c.h, c2.h, Me(c), c.n.nonces);
      SealNonces(c2, dst, data);
    } else {
      NoncesKept(c.h, OnUpper(c, dst, data, allowed).h, Me(c), c.n.nonces);
    }
  }

  lemma HelloNonces(c: Ctx, src: Id, pkt: Packet, allowed: bool)
    requires T.WellFormed(c.n.table) && NoncesBelow(c.h, Me(c), c.n.nonces) && pkt.Hello?
    ensures var c' := HandleHello(c, src, pkt, allowed); NoncesBelow(c'.h, Me(c), c'.n.nonces)
  {
    Found(c, src, allowed);
    var (c1, found) := Lookup(c, src, true, allowed);
    if found {
      AcceptNonces(c1, src, pkt);
      NoncesKept(c1.h, SendHello(c1, src, 2, pkt.body.helloseq).h, Me(c), c.n.nonces);
    }
  }

  lemma DataNonces(c: Ctx, src: Id, pkt: Packet, allowed: bool, now: int)
    requires T.WellFormed(c.n.table) && NoncesBelow(c.h, Me(c), c.n.nonces) && pkt.Data?
    ensures var c' := HandleData(c, src, pkt, allowed, now); NoncesBelow(c'.h, Me(c), c'.n.nonces)
  {
    Found(c, src, allowed);
    NoncesKept(c.h, HandleData(c, src, pkt, allowed, now).h, Me(c), c.n.nonces);
  }

  lemma HandleNonces(c: Ctx, i: Input)
    requires T.WellFormed(c.n.table) && NoncesBelow(c.h, Me(c), c.n.nonces)
    ensures var c' := Handle(c, i); NoncesBelow(c'.h, Me(c), c'.n.nonces)
  {
    match i
    case FromUpper(dst, data, allowed) => UpperNonces(c, dst, data, allowed);
    case FromLower(src, pkt, allowed, now) =>
      match pkt {
        case Hello(_, _) => HelloNonces(c, src, pkt, allowed);
        case Data(_, _, _) => DataNonces(c, src, pkt, allowed, now);
        case Heartbeat(_, ident) =>
          HeartbeatEffect(c, src, ident, allowed, now);
          NoncesKept(c.h, Handle(c, i).h, Me(c), c.n.nonces);
        case Other(_) =>
      }
    case Latency(id, ident, allowed) =>
      LatencyEffect(c, id, ident, allowed);
      NoncesKept(c.h, Handle(c, i).h, Me(c), c.n.nonces);
    case Find(id, create, allowed) =>
    case Periodic(id, now) =>
  }

  lemma {:induction false} RunNonces(cfg: Config, run: seq<System>, k: nat, a: Id)
    requires IsRun(cfg, run) && k < |run| && a in cfg
    ensures a in run[k].nodes && NoncesBelow(run[k].history, a, run[k].nodes[a].nonces)
  {
    RunInv(cfg, run, k);
    if k > 0 {
      RunNonces(cfg, run, k - 1, a);
      NextNonces(cfg, run, k, a);
    }
  }

  lemma NextNonces(cfg: Config, run: seq<System>, k: nat, a: Id)
    requires IsRun(cfg, run) && 0 < k < |run| && a in cfg && a in run[k - 1].nodes && a in run[k].nodes
    requires NoncesBelow(run[k - 1].history, a, run[k - 1].nodes[a].nonces)
    ensures NoncesBelow(run[k].history, a, run[k].nodes[a].nonces)
  {
    RunInv(cfg, run, k - 1);
    assert StepsTo(cfg, run, k);
    var x: Id, i :| StepAt(cfg, run[k - 1], run[k], x, i);
    StepNonces(cfg, run[k - 1], run[k], x, i, a);
  }

  lemma StepNonces(cfg: Config, s: System, s': System, x: Id, i: Input, a: Id)
    requires StepAt(cfg, s, s', x, i) && a in s.nodes && s.nodes[x].table.me == x
    requires NoncesBelow(s.history, a, s.nodes[a].nonces)
    ensures NoncesBelow(s'.history, a, s'.nodes[a].nonces)
  {
    var c := Ctx(s.nodes[x], s.history);
    assert Grows(c, Handle(c, i));
    if x == a {
      HandleNonces(c, i);
    } else {
      NoncesKept(s.history, s'.history, a, s.nodes[a].nonces);
    }
  }

  /** In every run, two data packets sent under one key, by nodes that follow the code and to such nodes, carry
      different nonces. */
  lemma NonceUsedOnce(cfg: Config, run: seq<System>, n: nat, i: nat, j: nat, a: Id, b: Id, x: Id, y: Id,
                      key: Key, nonce: nat, plain: seq<byte>, nonce': nat, plain': seq<byte>)
    requires IsRun(cfg, run) && n < |run| && i < j && {a, b, x, y} <= cfg.Keys && a != b && x != y
    requires SentAt(run[n].history, i, a, b, Data(nonce, key, plain))
    requires SentAt(run[n].history, j, x, y, Data(nonce', key, plain'))
    ensures nonce != nonce'
  {
    var h := run[n].history;
    assert a in cfg && b in cfg && x in cfg && y in cfg;
    RunInv(cfg, run, n);
    assert GoodAt(cfg, h, i) && GoodAt(cfg, h, j);
    SameDirection(cfg, a, b, x, y);
    RunNonces(cfg, run, n, a);
    assert DataAt(h, i, a) && DataAt(h, j, a);
  }

  /** Two sending keys are the same only for the same sender and receiver. */
  lemma SameDirection(cfg: Config, a: Id, b: Id, x: Id, y: Id)
    requires a in cfg && b in cfg && x in cfg && y in cfg && a != b && x != y
    requires TxKey(cfg, a, b) == TxKey(cfg, x, y)
    ensures (a, b) == (x, y)
  {
  }
}
