/** The queue bookkeeping in every state of every run. */
module SessionQueueTheorems {
  import opened Prelude
  import opened SecurityNode
  import opened Session
  import opened SessionTheorems
  import opened SessionQueues
  import T = PeerTable

  /** What other nodes do leaves a node's books alone. */
  lemma {:induction false} BooksOthers(h: seq<Event>, h': seq<Event>, i: nat, a: Id, b: Id)
    requires h <= h' && |h| <= i <= |h'|
    requires forall k | |h| <= k < |h'| :: h'[k].node != a
    ensures Admitted(h', i, a, b) == Admitted(h, |h|, a, b) && SealedFor(h', i, a, b) == SealedFor(h, |h|, a, b)
    decreases i
  {
    if i == |h| { BooksPrefix(h, h', i, a, b); } else { BooksOthers(h, h', i - 1, a, b); }
  }

  /** A step of the system, seen from node a: its own handler ran, or only the history grew. */
  lemma StepSeenFrom(cfg: Config, s: System, s': System, x: Id, i: Input, a: Id)
    requires Inv(cfg, s) && StepAt(cfg, s, s', x, i) && a in cfg
    ensures a in s.nodes && a in s'.nodes && s.nodes[a].table.me == a && T.WellFormed(s.nodes[a].table)
    ensures s.history <= s'.history
    ensures x == a ==> Ctx(s'.nodes[a], s'.history) == Handle(Ctx(s.nodes[a], s.history), i)
    ensures x != a ==> s'.nodes[a] == s.nodes[a]
    ensures x != a ==> forall k | |s.history| <= k < |s'.history| :: s'.history[k].node != a
  {
    assert GoodNode(cfg, s.history, s.nodes[a]);
    assert Grows(Ctx(s.nodes[x], s.history), Handle(Ctx(s.nodes[x], s.history), i));
  }

  lemma QueuesSeenFrom(cfg: Config, s: System, s': System, x: Id, i: Input, a: Id)
    requires Inv(cfg, s) && StepAt(cfg, s, s', x, i) && a in cfg
    requires a in s.nodes && QueuesOk(Ctx(s.nodes[a], s.history))
    ensures a in s'.nodes && QueuesOk(Ctx(s'.nodes[a], s'.history))
  {
    StepSeenFrom(cfg, s, s', x, i, a);
    if x == a {
      QueuesStep(Ctx(s.nodes[a], s.history), i);
    } else {
      forall b | T.Ordinary(a, b)
        ensures BooksOf(Ctx(s.nodes[a], s'.history), b) == BooksOf(Ctx(s.nodes[a], s.history), b)
      {
        BooksOthers(s.history, s'.history, |s'.history|, a, b);
      }
    }
  }

  lemma {:induction false} RunQueues(cfg: Config, run: seq<System>, k: nat, a: Id)
    requires IsRun(cfg, run) && k < |run| && a in cfg
    ensures a in run[k].nodes && QueuesOk(Ctx(run[k].nodes[a], run[k].history))
  {
    if k == 0 {
      BootQueues(cfg, run[0], a);
    } else {
      RunQueues(cfg, run, k - 1, a);
      NextQueues(cfg, run, k, a);
    }
  }

  lemma BootQueues(cfg: Config, s: System, a: Id)
    requires Init(cfg, s) && a in cfg
    ensures a in s.nodes && QueuesOk(Ctx(s.nodes[a], s.history))
  {
  }

  lemma NextQueues(cfg: Config, run: seq<System>, k: nat, a: Id)
    requires IsRun(cfg, run) && 0 < k < |run| && a in cfg
    requires a in run[k - 1].nodes && QueuesOk(Ctx(run[k - 1].nodes[a], run[k - 1].history))
    ensures a in run[k].nodes && QueuesOk(Ctx(run[k].nodes[a], run[k].history))
  {
    RunInv(cfg, run, k - 1);
    assert StepsTo(cfg, run, k);
    var x: Id, i :| StepAt(cfg, run[k - 1], run[k], x, i);
    QueuesSeenFrom(cfg, run[k - 1], run[k], x, i, a);
  }

  /** In every run, for every node and every peer other than itself and the unset address: the payloads
      passed to doSendDataPacket followed by the queue are exactly the admitted payloads, in order,
      across session timeouts and renegotiations; a negotiated peer's queue is empty; and the queue
      counter stays between the number of queued packets and 10. */
  lemma QueuedPacketsConserved(cfg: Config, run: seq<System>, k: nat, a: Id, b: Id)
    requires IsRun(cfg, run) && k < |run| && a in cfg && T.Ordinary(a, b)
    ensures a in run[k].nodes
    ensures var n, h := run[k].nodes[a], run[k].history;
      && Admitted(h, |h|, a, b) == SealedFor(h, |h|, a, b) + QueueOf(n, b)
      && (b in n.table.peers && n.table.peers[b].negotiated ==> n.table.peers[b].queue == [])
      && 0 <= Total(n.table.peers) <= n.queued <= 10
  {
    RunInv(cfg, run, k);
    RunQueues(cfg, run, k, a);
    assert Balanced(BooksOf(Ctx(run[k].nodes[a], run[k].history), b));
  }

  /** The packets that step k threw away with a replaced peer of node a. */
  ghost function LostIn(run: seq<System>, acts: seq<Act>, k: nat, a: Id): nat
    requires k < |acts| < |run|
  {
    if acts[k].node == a && a in run[k].nodes then Discarded(run[k].nodes[a], acts[k].input) else 0
  }

  ghost function Lost(run: seq<System>, acts: seq<Act>, k: nat, a: Id): nat
    requires k <= |acts| < |run|
  {
    if k == 0 then 0 else Lost(run, acts, k - 1, a) + LostIn(run, acts, k - 1, a)
  }

  lemma {:induction false} LostIsZeroIff(run: seq<System>, acts: seq<Act>, k: nat, a: Id)
    requires k <= |acts| < |run|
    ensures Lost(run, acts, k, a) == 0 <==> forall j: nat | j < k :: LostIn(run, acts, j, a) == 0
  {
    if k > 0 { LostIsZeroIff(run, acts, k - 1, a); }
  }

  lemma LeakSeenFrom(cfg: Config, s: System, s': System, x: Id, i: Input, a: Id)
    requires Inv(cfg, s) && StepAt(cfg, s, s', x, i) && a in cfg
    requires a in s.nodes && s.nodes[a].queued <= MAX_QUEUED_PACKETS
    ensures a in s'.nodes && Leak(s'.nodes[a]) == Leak(s.nodes[a]) + if x == a then Discarded(s.nodes[a], i) else 0
  {
    StepSeenFrom(cfg, s, s', x, i, a);
    if x == a { HandleLeak(Ctx(s.nodes[a], s.history), i); }
  }

  /** In every state of every run, queuedPackets exceeds the sum of the queue lengths by exactly the
      packets that have been thrown away with replaced peers so far. */
  lemma {:induction false} CounterDrift(cfg: Config, run: seq<System>, acts: seq<Act>, k: nat, a: Id)
    requires IsRunOf(cfg, run, acts) && k < |run| && a in cfg
    ensures a in run[k].nodes
    ensures run[k].nodes[a].queued == Total(run[k].nodes[a].table.peers) + Lost(run, acts, k, a)
  {
    if k > 0 {
      CounterDrift(cfg, run, acts, k - 1, a);
      StepDrift(cfg, run, acts, k - 1, a);
    }
  }

  lemma StepDrift(cfg: Config, run: seq<System>, acts: seq<Act>, k: nat, a: Id)
    requires IsRunOf(cfg, run, acts) && k < |acts| && a in cfg
    ensures a in run[k].nodes && a in run[k + 1].nodes
    ensures Leak(run[k + 1].nodes[a]) == Leak(run[k].nodes[a]) + LostIn(run, acts, k, a)
  {
    RunOfIsRun(cfg, run, acts);
    RunInv(cfg, run, k);
    RunQueues(cfg, run, k, a);
    assert Acted(cfg, run, acts, k);
    LeakSeenFrom(cfg, run[k], run[k + 1], acts[k].node, acts[k].input, a);
  }

  /** So the counter is exact in a state of a run if and only if no step of the node up to there
      replaced a peer that had packets waiting. */
  lemma CounterExactIff(cfg: Config, run: seq<System>, acts: seq<Act>, k: nat, a: Id)
    requires IsRunOf(cfg, run, acts) && k < |run| && a in cfg
    ensures a in run[k].nodes
    ensures run[k].nodes[a].queued == Total(run[k].nodes[a].table.peers)
      <==> forall j: nat | j < k :: LostIn(run, acts, j, a) == 0
  {
    CounterDrift(cfg, run, acts, k, a);
    LostIsZeroIff(run, acts, k, a);
  }

  /** Nothing was handed down at a for its own id or for the unset address. */
  ghost predicate OnlyOrdinaryTraffic(h: seq<Event>, a: Id) {
    forall j | 0 <= j < |h| :: h[j].Down? && h[j].node == a ==> T.Ordinary(a, h[j].peer)
  }

  lemma CounterSeenFrom(cfg: Config, s: System, s': System, x: Id, i: Input, a: Id)
    requires Inv(cfg, s) && StepAt(cfg, s, s', x, i) && a in cfg && OnlyOrdinaryTraffic(s'.history, a)
    requires a in s.nodes && s.nodes[a].queued == Total(s.nodes[a].table.peers) <= MAX_QUEUED_PACKETS
    ensures a in s'.nodes && s'.nodes[a].queued == Total(s'.nodes[a].table.peers)
  {
    StepSeenFrom(cfg, s, s', x, i, a);
    if x == a {
      var c := Ctx(s.nodes[a], s.history);
      TrafficPrefix(s.history, s'.history, a);
      HandleLeak(c, i);
      NothingToDiscard(cfg, c, i);
    }
  }

  lemma TrafficPrefix(h: seq<Event>, h': seq<Event>, a: Id)
    requires h <= h' && OnlyOrdinaryTraffic(h', a)
    ensures OnlyOrdinaryTraffic(h, a)
  {
    forall j | 0 <= j < |h| && h[j].Down? && h[j].node == a ensures T.Ordinary(a, h[j].peer) {
      assert h[j] == h'[j];
    }
  }

  /** In every run in which a node's upper layer addresses only ordinary peers, queuedPackets is the
      sum of the queue lengths in every state. */
  lemma {:induction false} CounterExact(cfg: Config, run: seq<System>, k: nat, a: Id)
    requires IsRun(cfg, run) && k < |run| && a in cfg && OnlyOrdinaryTraffic(run[k].history, a)
    ensures a in run[k].nodes && run[k].nodes[a].queued == Total(run[k].nodes[a].table.peers)
  {
    if k > 0 {
      RunInv(cfg, run, k - 1);
      RunQueues(cfg, run, k - 1, a);
      assert StepsTo(cfg, run, k);
      var x: Id, i :| StepAt(cfg, run[k - 1], run[k], x, i);
      StepSeenFrom(cfg, run[k - 1], run[k], x, i, a);
      TrafficPrefix(run[k - 1].history, run[k].history, a);
      CounterExact(cfg, run, k - 1, a);
      CounterSeenFrom(cfg, run[k - 1], run[k], x, i, a);
    }
  }

  lemma NothingToDiscard(cfg: Config, c: Ctx, i: Input)
    requires Good(cfg, c) && OnlyOrdinaryTraffic(c.h, Me(c))
    ensures Discarded(c.n, i) == 0
  {
    var id := LooksUp(i);
    if id.Some? && T.Replaces(c.n.table, id.value, AllowedIn(i)) {
      var p := c.n.table.peers[id.value];
      assert GoodPeer(cfg, c.h, Me(c), id.value, p);
      assert p.queue != [] ==> HandedDown(c.h, |c.h|, Me(c), id.value, p.queue[0]);
    }
  }

  /** Packets handed down for the node's own id do leak: the second one discards the first, and the
      counter stays one too high for good. */
  lemma OwnIdLeaks(cfg: Config, a: Id, d1: seq<byte>, d2: seq<byte>)
    requires ValidConfig(cfg) && a in cfg
    ensures var c0 := Ctx(BootNode(a, cfg[a]), []);
      var c1 := Handle(c0, FromUpper(a, d1, true));
      T.WellFormed(c1.n.table) &&
      var c2 := Handle(c1, FromUpper(a, d2, true));
      c2.n.queued == 2 && Total(c2.n.table.peers) == 1
  {
    var c0 := Ctx(BootNode(a, cfg[a]), []);
    var c1 := Handle(c0, FromUpper(a, d1, true));
    HandleLeak(c0, FromUpper(a, d1, true));
    HandleLeak(c1, FromUpper(a, d2, true));
  }
}
