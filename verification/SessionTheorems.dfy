/** What holds in every state of every run of the secure-session protocol. */
module SessionTheorems {
  import opened Prelude
  import opened SessionTerms
  import opened SecurityNode
  import opened Session
  import opened SessionProof
  import T = PeerTable

  // ---- the invariant holds in every run ----

  lemma InvInit(cfg: Config, s: System)
    requires ValidConfig(cfg) && Init(cfg, s)
    ensures Inv(cfg, s)
  {
    forall a | a in s.nodes ensures GoodNode(cfg, [], s.nodes[a]) {
      assert cfg[a].helloseq < U64;
    }
  }

  /** Nothing another node does adds to the acceptances of x. */
  lemma {:induction false} CountOthers(h: seq<Event>, h': seq<Event>, i: nat, x: Id)
    requires h <= h' && |h| <= i <= |h'|
    requires forall k | |h| <= k < |h'| :: h'[k].node != x
    ensures Count(h', i, x) == Count(h, |h|, x)
    decreases i
  {
    if i == |h| { CountPrefix(h, h', i, x); } else { CountOthers(h, h', i - 1, x); }
  }

  lemma InvStep(cfg: Config, s: System, s': System, a: Id, i: Input)
    requires Inv(cfg, s) && StepAt(cfg, s, s', a, i)
    ensures Inv(cfg, s') && s.history <= s'.history
  {
    var c := Ctx(s.nodes[a], s.history);
    GoodHandle(cfg, c, i);
    forall x | x in s'.nodes ensures s'.nodes[x].table.me == x && GoodNode(cfg, s'.history, s'.nodes[x]) {
      if x != a {
        CountOthers(s.history, s'.history, |s'.history|, x);
        GoodNodeExtends(cfg, s.history, s'.history, s.nodes[x]);
      }
    }
  }

  lemma {:induction false} RunInv(cfg: Config, run: seq<System>, k: nat)
    requires IsRun(cfg, run) && k < |run|
    ensures Inv(cfg, run[k])
  {
    if k == 0 {
      InvInit(cfg, run[0]);
    } else {
      RunInv(cfg, run, k - 1);
      assert StepsTo(cfg, run, k);
      var a: Id, i :| StepAt(cfg, run[k - 1], run[k], a, i);
      InvStep(cfg, run[k - 1], run[k], a, i);
    }
  }

  // ---- key agreement ----

  ghost predicate Negotiated(s: System, a: Id, b: Id) {
    a in s.nodes && b in s.nodes[a].table.peers && s.nodes[a].table.peers[b].negotiated
  }

  /** In every reachable state, two nodes that have negotiated with each other hold matching keys,
      tx against rx in both directions, if and only if both or neither of them announce flags. */
  lemma KeyAgreement(cfg: Config, run: seq<System>, k: nat, a: Id, b: Id)
    requires IsRun(cfg, run) && k < |run| && a in cfg && b in cfg && a != b
    requires Negotiated(run[k], a, b) && Negotiated(run[k], b, a)
    ensures var pa, pb := run[k].nodes[a].table.peers[b], run[k].nodes[b].table.peers[a];
      (pa.tx == pb.rx && pb.tx == pa.rx) <==> (cfg[a].flags == 0 <==> cfg[b].flags == 0)
  {
    RunInv(cfg, run, k);
    var s := run[k];
    assert GoodPeer(cfg, s.history, a, b, s.nodes[a].table.peers[b]);
    assert GoodPeer(cfg, s.history, b, a, s.nodes[b].table.peers[a]);
    KeysAgreeIff(cfg, a, b);
    KeysAgreeIff(cfg, b, a);
  }

  /** What agreement is for: in such a state, whatever one of the two seals the other opens, and hands
      up as coming from it. */
  lemma SealedIsOpened(cfg: Config, run: seq<System>, k: nat, a: Id, b: Id, nonce: nat, data: seq<byte>, now: int)
    requires IsRun(cfg, run) && k < |run| && a in cfg && b in cfg && a != b
    requires Negotiated(run[k], a, b) && Negotiated(run[k], b, a)
    requires (cfg[a].flags == 0 <==> cfg[b].flags == 0) && 0 < |data| <= 1950
    ensures var pkt := Data(nonce, run[k].nodes[a].table.peers[b].tx, Zeros() + data);
      var c := Ctx(run[k].nodes[b], run[k].history);
      T.WellFormed(c.n.table) && OnLower(c, a, pkt, true, now).h == c.h + [Up(b, a, data, pkt)]
  {
    KeyAgreement(cfg, run, k, a, b);
    RunInv(cfg, run, k);
    var c := Ctx(run[k].nodes[b], run[k].history);
    assert GoodNode(cfg, run[k].history, run[k].nodes[b]);
    assert (Zeros() + data)[8..] == data;
  }

  /** In every reachable state the session keys between two such nodes are unknown to the attacker,
      and differ between directions. */
  lemma KeySecrecy(cfg: Config, run: seq<System>, k: nat, a: Id, b: Id)
    requires IsRun(cfg, run) && k < |run| && a != b && b in cfg && Negotiated(run[k], a, b)
    ensures var p := run[k].nodes[a].table.peers[b];
      !Known(cfg, p.rx) && !Known(cfg, p.tx) && Base(p.rx) != Base(p.tx)
  {
    RunInv(cfg, run, k);
    PeerSecrecy(cfg, run[k].history, a, b, run[k].nodes[a].table.peers[b]);
  }

  lemma PeerSecrecy(cfg: Config, h: seq<Event>, a: Id, b: Id, p: Peer)
    requires a in cfg && b in cfg && a != b && GoodPeer(cfg, h, a, b, p) && p.negotiated
    ensures !Known(cfg, p.rx) && !Known(cfg, p.tx) && Base(p.rx) != Base(p.tx)
  {
  }

  // ---- payload authenticity ----

  /** Every payload that b hands up as coming from a code-following peer a was handed down earlier
      at a for b, in a packet that a sent to b and that b never sent to anyone. No node hands up
      anything as coming from itself. */
  lemma PayloadAuthenticity(cfg: Config, run: seq<System>, n: nat, i: nat)
    requires IsRun(cfg, run) && n < |run| && i < |run[n].history| && run[n].history[i].Up?
    ensures var h := run[n].history; var Up(b, a, data, pkt) := h[i];
      && a != b
      && (a in cfg ==>
            && HandedDown(h, i, a, b, data)
            && (exists k: nat :: k < i && SentAt(h, k, a, b, pkt))
            && (forall k: nat, x: Id :: !SentAt(h, k, b, x, pkt)))
  {
    RunInv(cfg, run, n);
    var h := run[n].history;
    var Up(b, a, data, pkt) := h[i];
    assert GoodAt(cfg, h, i);
    if a in cfg {
      var k: nat :| k < i && SentAt(h, k, a, b, pkt);
      assert GoodAt(cfg, h, k);
      var j :| 0 <= j < k && h[j].Down? && h[j].node == a && h[j].peer == b && h[j].data == data;
      assert HandedDown(h, i, a, b, data);
      forall k: nat, x: Id | SentAt(h, k, b, x, pkt) ensures false {
        assert GoodAt(cfg, h, k);
        BasesSeparate(cfg, a, b, b, x, pkt.key);
      }
    }
  }

  // ---- handshake freshness ----

  /** Equal helloseq values of one node less than 2^64 acceptances apart mean no acceptance in between. */
  lemma SameSeq(cfg: Config, h: seq<Event>, i: nat, j: nat, a: Id)
    requires a in cfg && i <= j <= |h| && SeqAt(cfg, h, i, a) == SeqAt(cfg, h, j, a)
    requires Count(h, j, a) < U64
    ensures forall k | i <= k < j :: !(h[k].Accepted? && h[k].node == a)
  {
    CountMonotone(h, i, j, a);
  }

  /** Packet pkt, sent by a as event k and accepted by b as event i, answers a hello from b to a
      (event j) carrying the helloseq that b still had at event i: b accepted nothing in between. */
  ghost predicate Answers(cfg: Config, h: seq<Event>, j: nat, k: nat, i: nat) {
    && j < k < i < |h| && h[i].Accepted? && h[i].pkt.Hello? && h[i].node in cfg
    && var Accepted(b, a, pkt) := h[i];
      && SentAt(h, k, a, b, pkt) && HelloSeqAt(h, j, b, a, pkt.body.echo)
      && pkt.body.echo == SeqAt(cfg, h, i, b)
      && forall m {:trigger h[m]} | j <= m < i :: !(h[m].Accepted? && h[m].node == b)
  }

  /** Every hello 2 or 3 that b accepts from a code-following node a was sent by a to b, and each time
      a sent it, that was after b's previous acceptance from anyone, in answer to a hello from b to
      a that carried the helloseq b still had when it accepted. */
  lemma HandshakeFreshness(cfg: Config, run: seq<System>, n: nat, i: nat)
    requires IsRun(cfg, run) && n < |run| && i < |run[n].history| && run[n].history[i].Accepted?
    requires run[n].history[i].peer in cfg && Count(run[n].history, i, run[n].history[i].node) < U64
    ensures var h := run[n].history; var Accepted(b, a, pkt) := h[i];
      && (exists k: nat :: k < i && SentAt(h, k, a, b, pkt))
      && forall k: nat :: k < i && SentAt(h, k, a, b, pkt) ==> exists j: nat :: Answers(cfg, h, j, k, i)
  {
    RunInv(cfg, run, n);
    var h := run[n].history;
    var Accepted(b, a, pkt) := h[i];
    assert GoodAt(cfg, h, i);
    forall k: nat | k < i && SentAt(h, k, a, b, pkt) ensures exists j: nat :: Answers(cfg, h, j, k, i) {
      assert GoodAt(cfg, h, k);
      var j: nat :| j < k && HelloSeqAt(h, j, b, a, pkt.body.echo);
      assert GoodAt(cfg, h, j);
      SameSeq(cfg, h, j, i, b);
      assert Answers(cfg, h, j, k, i);
    }
  }

  /** No hello 2 or 3, from anyone, is accepted twice by the same node in one boot. */
  lemma AcceptedOnce(cfg: Config, run: seq<System>, n: nat, i: nat, j: nat)
    requires IsRun(cfg, run) && n < |run| && i < j < |run[n].history|
    requires run[n].history[i].Accepted? && run[n].history[j].Accepted?
    requires run[n].history[i].node == run[n].history[j].node
    requires Count(run[n].history, j, run[n].history[j].node) < U64
    ensures run[n].history[i].pkt != run[n].history[j].pkt
  {
    RunInv(cfg, run, n);
    var h := run[n].history;
    assert GoodAt(cfg, h, i);
    assert GoodAt(cfg, h, j);
    if h[i].pkt == h[j].pkt {
      SameSeq(cfg, h, i, j, h[i].node);
    }
  }
}
