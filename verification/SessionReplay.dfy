/** Data packets all carry sequence number zero, so nothing but the session itself stands between a
    replayed packet and the upper layer: how often a packet is handed up, over every run. */
module SessionReplay {
  import opened Prelude
  import opened SessionTerms
  import opened SecurityNode
  import opened Session
  import opened SessionTheorems
  import opened SessionProgress
  import T = PeerTable

  /** The node is given this packet from a while it finds a session with a whose key opens it. */
  predicate Opens(n: Node, i: Input, a: Id, pkt: Packet) {
    && i.FromLower? && i.src == a && i.pkt == pkt
    && pkt.Data? && |pkt.plain| > 8 && PacketSize(pkt) < 2000
    && T.Get(n.table, a, i.allowed).present && a in n.table.peers
    && n.table.peers[a].negotiated && n.table.peers[a].rx == pkt.key
  }

  predicate HandsUp(e: Event, b: Id, a: Id, pkt: Packet) { e.Up? && e.node == b && e.peer == a && e.pkt == pkt }

  /** How often b has handed up this packet as coming from a, in the first i events. */
  function Ups(h: seq<Event>, i: nat, b: Id, a: Id, pkt: Packet): nat
    requires i <= |h|
  {
    if i == 0 then 0 else Ups(h, i - 1, b, a, pkt) + if HandsUp(h[i - 1], b, a, pkt) then 1 else 0
  }

  // ---- one handler ----

  /** The history grew, by nothing that goes up. */
  ghost predicate Quiet(h: seq<Event>, h': seq<Event>) {
    h <= h' && forall k | |h| <= k < |h'| :: !h'[k].Up?
  }

  lemma {:induction false} FlushQuiet(c: Ctx, id: Id, queue: seq<seq<byte>>)
    requires Has(c, id)
    ensures Quiet(c.h, Flush(c, id, queue).h)
    decreases |queue|
  {
    if queue != [] {
      FlushQuiet(Seal(c.(n := c.n.(queued := c.n.queued - 1)), id, queue[0]), id, queue[1..]);
    }
  }

  lemma AcceptQuiet(c: Ctx, src: Id, pkt: Packet)
    requires pkt.Hello? && Has(c, src)
    ensures Quiet(c.h, AcceptHello(c, src, pkt).h)
  {
    var c1 := SetPeer(c, src, DeriveKeys(Me(c), c.n.flags, src, PeerAt(c, src), pkt.body));
    if pkt.body.kx != WeakPoint {
      FlushQuiet(SetPeer(c1, src, PeerAt(c1, src).(negotiated := true)), src, PeerAt(c1, src).queue);
      var c2 := FinishNegotiation(c1, src);
      assert Quiet(c.h, c2.h);
      assert Quiet(c2.h, Conclude(c2, src, pkt).h);
    }
  }

  lemma LowerIsQuiet(c: Ctx, src: Id, pkt: Packet, allowed: bool, now: int)
    requires T.WellFormed(c.n.table) && !pkt.Data?
    ensures Quiet(c.h, OnLower(c, src, pkt, allowed, now).h)
  {
    if PacketSize(pkt) < 2000 && pkt.Hello? && 1 <= pkt.body.num <= 3 {
      T.GetOrCreateFrame(c.n.table, src, allowed, NewPeer(c.n, src));
      var (c1, found) := Lookup(c, src, true, allowed);
      if found { AcceptQuiet(c1, src, pkt); }
    }
  }

  /** A handler hands up the packet it is given, once, if it opens; and nothing else ever goes up. */
  lemma HandleUp(c: Ctx, i: Input, a: Id, pkt: Packet)
    requires T.WellFormed(c.n.table)
    ensures var h := Handle(c, i).h;
      if Opens(c.n, i, a, pkt) then h == c.h + [Up(Me(c), a, pkt.plain[8..], pkt)]
      else c.h <= h && forall k | |c.h| <= k < |h| :: !HandsUp(h[k], Me(c), a, pkt)
  {
    if i.FromLower? && i.pkt.Data? {
      T.GetOrCreateFrame(c.n.table, i.src, i.allowed, NewPeer(c.n, i.src));
    } else if i.FromLower? {
      LowerIsQuiet(c, i.src, i.pkt, i.allowed, i.now);
    }
  }

  // ---- whole runs ----

  lemma {:induction false} UpsPrefix(h: seq<Event>, h': seq<Event>, i: nat, b: Id, a: Id, pkt: Packet)
    requires i <= |h| && h <= h'
    ensures Ups(h, i, b, a, pkt) == Ups(h', i, b, a, pkt)
  {
    if i > 0 { UpsPrefix(h, h', i - 1, b, a, pkt); }
  }

  lemma {:induction false} UpsKept(h: seq<Event>, h': seq<Event>, i: nat, b: Id, a: Id, pkt: Packet)
    requires h <= h' && |h| <= i <= |h'|
    requires forall k | |h| <= k < |h'| :: !HandsUp(h'[k], b, a, pkt)
    ensures Ups(h', i, b, a, pkt) == Ups(h, |h|, b, a, pkt)
    decreases i
  {
    if i == |h| { UpsPrefix(h, h', i, b, a, pkt); } else { UpsKept(h, h', i - 1, b, a, pkt); }
  }

  /** Step k of the run is b being given the packet from a and opening it. */
  ghost predicate OpensAt(run: seq<System>, acts: seq<Act>, k: nat, b: Id, a: Id, pkt: Packet)
    requires k < |acts| < |run|
  {
    acts[k].node == b && b in run[k].nodes && Opens(run[k].nodes[b], acts[k].input, a, pkt)
  }

  ghost function Openings(run: seq<System>, acts: seq<Act>, k: nat, b: Id, a: Id, pkt: Packet): nat
    requires k <= |acts| < |run|
  {
    if k == 0 then 0
    else Openings(run, acts, k - 1, b, a, pkt) + if OpensAt(run, acts, k - 1, b, a, pkt) then 1 else 0
  }

  lemma StepUps(cfg: Config, run: seq<System>, acts: seq<Act>, k: nat, b: Id, a: Id, pkt: Packet)
    requires IsRunOf(cfg, run, acts) && k < |acts| && b in cfg
    ensures Ups(run[k + 1].history, |run[k + 1].history|, b, a, pkt)
      == Ups(run[k].history, |run[k].history|, b, a, pkt) + if OpensAt(run, acts, k, b, a, pkt) then 1 else 0
  {
    RunOfIsRun(cfg, run, acts);
    RunInv(cfg, run, k);
    assert Acted(cfg, run, acts, k);
    var Act(x, i) := acts[k];
    var h, h' := run[k].history, run[k + 1].history;
    HandleUp(Ctx(run[k].nodes[x], h), i, a, pkt);
    if OpensAt(run, acts, k, b, a, pkt) {
      UpsPrefix(h, h', |h|, b, a, pkt);
    } else {
      UpsKept(h, h', |h'|, b, a, pkt);
    }
  }

  /** In every run, a node has handed up a packet exactly as often as it was given it while it had a
      session whose key opens it. */
  lemma {:induction false} HandedUpPerOpening(
      cfg: Config, run: seq<System>, acts: seq<Act>, k: nat, b: Id, a: Id, pkt: Packet)
    requires IsRunOf(cfg, run, acts) && k < |run| && b in cfg
    ensures Ups(run[k].history, |run[k].history|, b, a, pkt) == Openings(run, acts, k, b, a, pkt)
  {
    if k > 0 {
      HandedUpPerOpening(cfg, run, acts, k - 1, b, a, pkt);
      StepUps(cfg, run, acts, k - 1, b, a, pkt);
    }
  }

  lemma {:induction false} NeverOpenedIff(run: seq<System>, acts: seq<Act>, k: nat, b: Id, a: Id, pkt: Packet)
    requires k <= |acts| < |run|
    ensures Openings(run, acts, k, b, a, pkt) == 0 <==> forall j: nat | j < k :: !OpensAt(run, acts, j, b, a, pkt)
  {
    if k > 0 { NeverOpenedIff(run, acts, k - 1, b, a, pkt); }
  }

  lemma {:induction false} OpenedOnceIff(run: seq<System>, acts: seq<Act>, k: nat, b: Id, a: Id, pkt: Packet)
    requires k <= |acts| < |run|
    ensures Openings(run, acts, k, b, a, pkt) <= 1 <==>
      forall j: nat, m: nat | j < m < k :: !(OpensAt(run, acts, j, b, a, pkt) && OpensAt(run, acts, m, b, a, pkt))
  {
    if k > 0 {
      OpenedOnceIff(run, acts, k - 1, b, a, pkt);
      NeverOpenedIff(run, acts, k - 1, b, a, pkt);
    }
  }

  /** So a packet has been handed up at most once if and only if, of the steps that give it to the
      node, no two find such a session. */
  lemma HandedUpOnceIff(cfg: Config, run: seq<System>, acts: seq<Act>, k: nat, b: Id, a: Id, pkt: Packet)
    requires IsRunOf(cfg, run, acts) && k < |run| && b in cfg
    ensures Ups(run[k].history, |run[k].history|, b, a, pkt) <= 1 <==>
      forall j: nat, m: nat | j < m < k :: !(OpensAt(run, acts, j, b, a, pkt) && OpensAt(run, acts, m, b, a, pkt))
  {
    HandedUpPerOpening(cfg, run, acts, k, b, a, pkt);
    OpenedOnceIff(run, acts, k, b, a, pkt);
  }

  // ---- a replayed packet ----

  /** A packet that b once handed up as coming from the code-following node a opens again, in any later
      state and after any renegotiation, if and only if b then has a session with a and finds it: a is
      allowed or the cached peer. The attacker can always deliver it again. */
  lemma ReplayedIff(cfg: Config, run: seq<System>, k: nat, e: nat, allowed: bool, now: int)
    requires IsRun(cfg, run) && k < |run| && e < |run[k].history| && run[k].history[e].Up?
    requires run[k].history[e].peer in cfg
    ensures var Up(b, a, data, pkt) := run[k].history[e];
      var i := FromLower(a, pkt, allowed, now);
      && b in run[k].nodes && T.WellFormed(run[k].nodes[b].table) && Enabled(cfg, run[k].history, i)
      && (After(run[k], b, i).history == run[k].history + [Up(b, a, data, pkt)]
          <==> Negotiated(run[k], b, a) && (allowed || run[k].nodes[b].table.cache == Some(a)))
  {
    RunInv(cfg, run, k);
    var s := run[k];
    var Up(b, a, data, pkt) := s.history[e];
    assert GoodAt(cfg, s.history, e);
    var j: nat :| SentAt(s.history, j, a, b, pkt);
    assert GoodNode(cfg, s.history, s.nodes[b]);
    var i := FromLower(a, pkt, allowed, now);
    HandleUp(Ctx(s.nodes[b], s.history), i, a, pkt);
    if a in s.nodes[b].table.peers { assert GoodPeer(cfg, s.history, b, a, s.nodes[b].table.peers[a]); }
    var h' := After(s, b, i).history;
    if h' == s.history + [Up(b, a, data, pkt)] {
      assert HandsUp(h'[|s.history|], b, a, pkt);
      assert Opens(s.nodes[b], i, a, pkt);
    } else {
      assert !Opens(s.nodes[b], i, a, pkt);
    }
  }

  /** The last state of the run has handed up event e from a code-following node, and keeps the session. */
  ghost predicate Replayable(cfg: Config, run: seq<System>, e: Event) {
    && IsRun(cfg, run) && e in run[|run| - 1].history && e.Up? && e.peer in cfg
    && Negotiated(run[|run| - 1], e.node, e.peer)
  }

  /** Giving b the packet again changes nothing that would stop it from opening once more. */
  lemma Replay(cfg: Config, s: System, e: Event) returns (s': System)
    requires Inv(cfg, s) && e in s.history && e.Up? && e.peer in cfg && Negotiated(s, e.node, e.peer)
    ensures Step(cfg, s, s') && s'.history == s.history + [e] && Negotiated(s', e.node, e.peer)
  {
    var Up(b, a, data, pkt) := e;
    var k: nat :| k < |s.history| && s.history[k] == e;
    assert GoodAt(cfg, s.history, k);
    var j: nat :| SentAt(s.history, j, a, b, pkt);
    assert GoodNode(cfg, s.history, s.nodes[b]);
    assert GoodPeer(cfg, s.history, b, a, s.nodes[b].table.peers[a]);
    s' := TakeStep(cfg, s, b, FromLower(a, pkt, true, 0));
  }

  lemma OneStepLonger(cfg: Config, run: seq<System>, s: System)
    requires IsRun(cfg, run) && Step(cfg, run[|run| - 1], s)
    ensures IsRun(cfg, run + [s])
  {
    assert Into(cfg, run[|run| - 1], [s], 0);
    ExtendRun(cfg, run, [s]);
  }

  lemma ReplayedAgain(cfg: Config, run: seq<System>, e: Event) returns (s: System)
    requires Replayable(cfg, run, e)
    ensures s.history == run[|run| - 1].history + [e] && Replayable(cfg, run + [s], e)
  {
    RunInv(cfg, run, |run| - 1);
    s := Replay(cfg, run[|run| - 1], e);
    OneStepLonger(cfg, run, s);
  }

  /** n copies of an event. */
  function Copies(e: Event, n: nat): seq<Event> { seq(n, _ => e) }

  /** The failing input, for every number of times: once b has handed up a packet from a and still has
      the session, delivering that packet n more times hands it up n more times. */
  lemma {:induction false} ReplayedAtWill(cfg: Config, run: seq<System>, e: Event, n: nat)
      returns (run': seq<System>)
    requires Replayable(cfg, run, e)
    ensures run <= run' && |run'| == |run| + n && Replayable(cfg, run', e)
    ensures run'[|run'| - 1].history == run[|run| - 1].history + Copies(e, n)
  {
    if n == 0 {
      run' := run;
    } else {
      var before := ReplayedAtWill(cfg, run, e, n - 1);
      var s := ReplayedAgain(cfg, before, e);
      run' := before + [s];
    }
  }

  /** And there always is such a packet: from any state that PayloadArrives starts from, a payload handed
      down once can be handed up any number of times. */
  lemma HandedDownOnceUpOften(cfg: Config, run: seq<System>, a: Id, b: Id, data: seq<byte>, n: nat)
      returns (run': seq<System>, pkt: Packet)
    requires IsRun(cfg, run) && a in cfg && b in cfg && a != b && 0 < |data| <= 1950
    requires !Negotiated(run[|run| - 1], a, b) && HasRoom(run[|run| - 1], a)
    requires cfg[a].flags == 0 <==> cfg[b].flags == 0
    ensures IsRun(cfg, run') && run <= run' && |run'| == |run| + 5 + n
    ensures run'[|run'| - 1].history == run'[|run| + 3].history + Copies(Up(b, a, data, pkt), n + 1)
  {
    var more, p := PayloadArrives(cfg, run, a, b, data);
    pkt := p;
    var e := Up(b, a, data, pkt);
    var arrived := run + more;
    assert arrived[|arrived| - 1] == more[4] && more[4].history[|more[3].history|] == e;
    run' := ReplayedAtWill(cfg, arrived, e, n);
    assert run'[|run| + 3] == more[3];
    assert [e] + Copies(e, n) == Copies(e, n + 1);
  }
}
