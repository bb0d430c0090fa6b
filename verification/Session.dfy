/** All nodes together, over a network controlled by an attacker who sees everything, drops,
    reorders, duplicates and replays, and builds whatever the terms it knows allow. */
module Session {
  import opened Prelude
  import opened SessionTerms
  import opened SecurityNode
  import T = PeerTable

  /** Per node and boot: its flag word and the initial helloseq. */
  datatype Boot = Boot(flags: nat, helloseq: nat)

  /** The nodes that follow the code; every other id may be the attacker's. */
  type Config = map<Id, Boot>

  ghost predicate ValidConfig(cfg: Config) {
    && UNSET !in cfg
    && forall a | a in cfg :: cfg[a].flags < U64 && cfg[a].helloseq < U64
  }

  datatype System = System(nodes: map<Id, Node>, history: seq<Event>)

  function BootNode(id: Id, b: Boot): Node {
    Node(b.flags, b.helloseq, 0, T.Table(id, map[], None), 0)
  }

  ghost predicate Init(cfg: Config, s: System) {
    s == System(map a | a in cfg :: BootNode(a, cfg[a]), [])
  }

  // ---- the attacker ----

  predicate Foreign(cfg: Config, pub: KxPub) { pub.WeakPoint? || pub.owner !in cfg }

  /** Keys the attacker can compute: it needs one of the two secrets. */
  predicate Known(cfg: Config, k: Key) {
    match k
    case ZeroKey => true
    case SessionKey(c, s, _) => Foreign(cfg, c) || Foreign(cfg, s)
    case MixedKey(b, _, _) => Known(cfg, b)
  }

  predicate SentAt(h: seq<Event>, i: int, a: Id, b: Id, pkt: Packet) {
    0 <= i < |h| && h[i] == Sent(a, b, pkt)
  }

  /** Packets that can be delivered: replays, packets assembled around a signature that is junk,
      replayed or by an attacker's key, boxes under keys the attacker knows, and anything unprotected. */
  ghost predicate Deliverable(cfg: Config, h: seq<Event>, pkt: Packet) {
    match pkt
    case Data(_, k, _) => Known(cfg, k) || exists i, a, b :: SentAt(h, i, a, b, pkt)
    case Hello(_, sig) =>
      || sig.BadSignature? || sig.signer.UnusablePubKey? || sig.signer.id !in cfg
      || exists i, a, b, body :: SentAt(h, i, a, b, Hello(body, sig))
    case Heartbeat(_, _) => true
    case Other(_) => true
  }

  ghost predicate Enabled(cfg: Config, h: seq<Event>, i: Input) {
    && (i.FromLower? ==> Deliverable(cfg, h, i.pkt))
    && (i.FromUpper? ==> |i.data| < 10240)
  }

  /** One handler runs at one node, atomically. The source id of a delivery is the attacker's choice. */
  ghost predicate StepAt(cfg: Config, s: System, s': System, a: Id, i: Input) {
    && a in s.nodes && T.WellFormed(s.nodes[a].table) && Enabled(cfg, s.history, i)
    && var c := Handle(Ctx(s.nodes[a], s.history), i);
       s' == System(s.nodes[a := c.n], c.h)
  }

  ghost predicate Step(cfg: Config, s: System, s': System) {
    exists a, i :: StepAt(cfg, s, s', a, i)
  }

  ghost predicate StepsTo(cfg: Config, run: seq<System>, k: int)
    requires 0 < k < |run|
  {
    Step(cfg, run[k - 1], run[k])
  }

  ghost predicate IsRun(cfg: Config, run: seq<System>) {
    && ValidConfig(cfg)
    && |run| > 0 && Init(cfg, run[0])
    && forall k | 0 < k < |run| :: StepsTo(cfg, run, k)
  }

  /** Which node took a step, and on what. */
  datatype Act = Act(node: Id, input: Input)

  ghost predicate Acted(cfg: Config, run: seq<System>, acts: seq<Act>, k: int)
    requires 0 <= k < |acts| < |run|
  {
    StepAt(cfg, run[k], run[k + 1], acts[k].node, acts[k].input)
  }

  /** A run together with what happened in each of its steps. */
  ghost predicate IsRunOf(cfg: Config, run: seq<System>, acts: seq<Act>) {
    && ValidConfig(cfg) && |run| == |acts| + 1 && Init(cfg, run[0])
    && forall k | 0 <= k < |acts| :: Acted(cfg, run, acts, k)
  }

  lemma RunOfIsRun(cfg: Config, run: seq<System>, acts: seq<Act>)
    requires IsRunOf(cfg, run, acts)
    ensures IsRun(cfg, run)
  {
    forall k | 0 < k < |run| ensures StepsTo(cfg, run, k) { assert Acted(cfg, run, acts, k - 1); }
  }

  /** Every run is one. */
  lemma {:induction false} ActsOf(cfg: Config, run: seq<System>) returns (acts: seq<Act>)
    requires IsRun(cfg, run)
    ensures IsRunOf(cfg, run, acts)
    decreases |run|
  {
    if |run| == 1 {
      acts := [];
    } else {
      var n := |run| - 1;
      var before := run[..n];
      forall k | 0 < k < n ensures StepsTo(cfg, before, k) { assert StepsTo(cfg, run, k); }
      var earlier := ActsOf(cfg, before);
      assert StepsTo(cfg, run, n);
      var a: Id, i :| StepAt(cfg, run[n - 1], run[n], a, i);
      acts := earlier + [Act(a, i)];
      forall k | 0 <= k < n ensures Acted(cfg, run, acts, k) {
        if k < n - 1 { assert Acted(cfg, before, earlier, k); }
      }
    }
  }

  // ---- counting acceptances ----

  /** How many negotiations node `a` has completed in the first i events. */
  function Count(h: seq<Event>, i: nat, a: Id): (r: nat)
    requires i <= |h|
    ensures r <= i
  {
    if i == 0 then 0
    else Count(h, i - 1, a) + (if h[i - 1].Accepted? && h[i - 1].node == a then 1 else 0)
  }

  lemma {:induction false} CountPrefix(h: seq<Event>, h': seq<Event>, i: nat, a: Id)
    requires i <= |h| && h <= h'
    ensures Count(h, i, a) == Count(h', i, a)
  {
    if i > 0 { CountPrefix(h, h', i - 1, a); }
  }

  lemma {:induction false} CountMonotone(h: seq<Event>, i: nat, j: nat, a: Id)
    requires i <= j <= |h|
    ensures Count(h, i, a) <= Count(h, j, a)
    ensures Count(h, i, a) == Count(h, j, a) ==>
              forall k | i <= k < j :: !(h[k].Accepted? && h[k].node == a)
    decreases j
  {
    if i < j { CountMonotone(h, i, j - 1, a); }
  }

  function SeqAt(cfg: Config, h: seq<Event>, i: nat, a: Id): nat
    requires a in cfg && i <= |h|
  {
    Wrap64(cfg[a].helloseq + Count(h, i, a))
  }

  // ---- expected keys ----

  /** The key of messages from a to b, as a derives it (it mixes flags when b announced some). */
  function TxKey(cfg: Config, a: Id, b: Id): Key
    requires a in cfg && b in cfg
  {
    var k := KxTx(a, b, KxPub(a, b, 0), KxPub(b, a, 0));
    if cfg[b].flags != 0 then MixFlags(k, cfg[a].flags, cfg[b].flags) else k
  }

  /** The key of messages from b to a, as a derives it. */
  function RxKey(cfg: Config, a: Id, b: Id): Key
    requires a in cfg && b in cfg
  {
    var k := KxRx(a, b, KxPub(a, b, 0), KxPub(b, a, 0));
    if cfg[b].flags != 0 then MixFlags(k, cfg[b].flags, cfg[a].flags) else k
  }

  /** Role choice by id order and flag mixing in opposite argument order give both ends the same
      key per direction, exactly when both or neither announce flags. */
  lemma KeysAgreeIff(cfg: Config, a: Id, b: Id)
    requires a in cfg && b in cfg && a != b
    ensures TxKey(cfg, a, b) == RxKey(cfg, b, a) <==> (cfg[a].flags == 0 <==> cfg[b].flags == 0)
  {
  }

  /** In the exchange, the node with the larger id is the client, at both ends. */
  lemma LargerIdIsClient(a: Id, b: Id, mine: KxPub, theirs: KxPub)
    requires b < a
    ensures KxTx(a, b, mine, theirs) == KxRx(b, a, theirs, mine) == SessionKey(mine, theirs, false)
    ensures KxRx(a, b, mine, theirs) == KxTx(b, a, theirs, mine) == SessionKey(mine, theirs, true)
  {
  }

  /** Only a's sending key and b's receiving key have this base; it separates directions and pairs. */
  lemma BasesSeparate(cfg: Config, a: Id, b: Id, x: Id, y: Id, k: Key)
    requires a in cfg && b in cfg && a != b
    requires Base(k) == Base(RxKey(cfg, b, a)) && DerivedFrom(k, x, y)
    ensures (x, y) == (a, b) || (x, y) == (b, a)
    ensures Base(TxKey(cfg, b, a)) != Base(k)
    ensures !Known(cfg, k)
  {
    KnownBase(cfg, k);
  }

  lemma {:induction false} KnownBase(cfg: Config, k: Key)
    ensures Known(cfg, k) == Known(cfg, Base(k))
  {
    if k.MixedKey? { KnownBase(cfg, k.base); }
  }

  // ---- the invariant ----

  ghost predicate HandedDown(h: seq<Event>, i: int, a: Id, b: Id, data: seq<byte>) {
    exists j :: 0 <= j < i && j < |h| && h[j].Down? && h[j].node == a && h[j].peer == b && h[j].data == data
  }

  /** Event j is a hello from a to b that carries this helloseq. */
  predicate HelloSeqAt(h: seq<Event>, j: int, a: Id, b: Id, q: nat) {
    && 0 <= j < |h| && h[j].Sent? && h[j].node == a && h[j].peer == b
    && h[j].pkt.Hello? && h[j].pkt.body.helloseq == q
  }

  ghost predicate GoodHello(cfg: Config, h: seq<Event>, i: nat, a: Id, b: Id, body: HelloBody, sig: Signature)
    requires a in cfg && i <= |h|
  {
    && body.pub == PubKey(a) && sig == Signature(PubKey(a), body)
    && body.target == b && 1 <= body.num <= 3
    && body.helloseq == SeqAt(cfg, h, i, a)
    && body.flags == Some(cfg[a].flags)
    && (b in cfg && b != a ==> body.kx == KxPub(a, b, 0))
    && (b in cfg && body.num >= 2 ==> exists j :: j < i && HelloSeqAt(h, j, b, a, body.echo))
  }

  ghost predicate GoodData(cfg: Config, h: seq<Event>, i: nat, a: Id, b: Id, key: Key, plain: seq<byte>)
    requires a in cfg
  {
    && DerivedFrom(key, a, b)
    && (b in cfg && b != a ==> key == TxKey(cfg, a, b))
    && |plain| >= 8 && HandedDown(h, i, a, b, plain[8..])
  }

  ghost predicate GoodAccept(cfg: Config, h: seq<Event>, i: nat, b: Id, a: Id, pkt: Packet)
    requires b in cfg && i <= |h|
  {
    && pkt.Hello? && 2 <= pkt.body.num <= 3
    && pkt.body.echo == SeqAt(cfg, h, i, b)
    && (a in cfg ==> exists k :: k < i && SentAt(h, k, a, b, pkt))
  }

  ghost predicate GoodUp(cfg: Config, h: seq<Event>, i: nat, b: Id, a: Id, data: seq<byte>, pkt: Packet)
    requires b in cfg
  {
    && a != b && pkt.Data? && |pkt.plain| > 8 && data == pkt.plain[8..] && PacketSize(pkt) < 2000
    && (a in cfg ==> pkt.key == RxKey(cfg, b, a) && exists k :: k < i && SentAt(h, k, a, b, pkt))
  }

  /** What is true of the i-th event, given the events before it. */
  ghost predicate GoodAt(cfg: Config, h: seq<Event>, i: nat)
    requires i < |h|
  {
    && h[i].node in cfg
    && match h[i]
       case Sent(a, b, Hello(body, sig)) => GoodHello(cfg, h, i, a, b, body, sig)
       case Sent(a, b, Data(_, key, plain)) => GoodData(cfg, h, i, a, b, key, plain)
       case Accepted(b, a, pkt) => GoodAccept(cfg, h, i, b, a, pkt)
       case Up(b, a, data, pkt) => GoodUp(cfg, h, i, b, a, data, pkt)
       case _ => true
  }

  ghost predicate GoodHistory(cfg: Config, h: seq<Event>) {
    forall i {:trigger GoodAt(cfg, h, i)} | 0 <= i < |h| :: GoodAt(cfg, h, i)
  }

  ghost predicate GoodPeer(cfg: Config, h: seq<Event>, a: Id, b: Id, p: Peer)
    requires a in cfg
  {
    && p.kx.KxPub? && p.kx.owner == a && p.kx.peer == b
    && (T.Ordinary(a, b) ==> p.kx.gen == 0)
    && (p.negotiated ==> DerivedFrom(p.tx, a, b))
    && (p.negotiated && b in cfg && b != a ==> p.tx == TxKey(cfg, a, b) && p.rx == RxKey(cfg, a, b))
    && (forall k {:trigger p.queue[k]} | 0 <= k < |p.queue| :: HandedDown(h, |h|, a, b, p.queue[k]))
  }

  ghost predicate GoodNode(cfg: Config, h: seq<Event>, n: Node) {
    var a := n.table.me;
    && a in cfg && n.flags == cfg[a].flags && T.WellFormed(n.table)
    && n.helloseq == SeqAt(cfg, h, |h|, a)
    && forall b | b in n.table.peers :: GoodPeer(cfg, h, a, b, n.table.peers[b])
  }

  ghost predicate Good(cfg: Config, c: Ctx) {
    ValidConfig(cfg) && GoodHistory(cfg, c.h) && GoodNode(cfg, c.h, c.n)
  }

  ghost predicate Inv(cfg: Config, s: System) {
    && ValidConfig(cfg) && s.nodes.Keys == cfg.Keys && GoodHistory(cfg, s.history)
    && forall a | a in s.nodes :: s.nodes[a].table.me == a && GoodNode(cfg, s.history, s.nodes[a])
  }

  // ---- growing the history ----

  lemma GoodAtExtends(cfg: Config, h: seq<Event>, h': seq<Event>, i: nat)
    requires i < |h| && h <= h' && GoodAt(cfg, h, i)
    ensures GoodAt(cfg, h', i)
  {
    CountPrefix(h, h', i, h[i].node);
    match h[i] {
      case Sent(a, b, Hello(body, sig)) =>
        if b in cfg && body.num >= 2 {
          var j :| j < i && HelloSeqAt(h, j, b, a, body.echo);
          assert HelloSeqAt(h', j, b, a, body.echo);
        }
      case Accepted(b, a, pkt) =>
        if a in cfg {
          var k :| k < i && SentAt(h, k, a, b, pkt);
          assert SentAt(h', k, a, b, pkt);
        }
      case Up(b, a, data, pkt) =>
        if a in cfg {
          var k :| k < i && SentAt(h, k, a, b, pkt);
          assert SentAt(h', k, a, b, pkt);
        }
      case _ =>
    }
  }

  /** Appending one good event keeps the history good. */
  lemma GoodAppend(cfg: Config, h: seq<Event>, e: Event)
    requires GoodHistory(cfg, h)
    requires GoodAt(cfg, h + [e], |h|)
    ensures GoodHistory(cfg, h + [e])
  {
    forall i | 0 <= i < |h| ensures GoodAt(cfg, h + [e], i) {
      GoodAtExtends(cfg, h, h + [e], i);
    }
  }

  /** A node that did not accept anything in between stays good when the history grows. */
  lemma GoodNodeExtends(cfg: Config, h: seq<Event>, h': seq<Event>, n: Node)
    requires GoodNode(cfg, h, n) && h <= h'
    requires Count(h', |h'|, n.table.me) == Count(h, |h|, n.table.me)
    ensures GoodNode(cfg, h', n)
  {
    var a := n.table.me;
    forall b | b in n.table.peers ensures GoodPeer(cfg, h', a, b, n.table.peers[b]) {
      var p := n.table.peers[b];
      assert GoodPeer(cfg, h, a, b, p);
      forall k | 0 <= k < |p.queue| ensures HandedDown(h', |h'|, a, b, p.queue[k]) {
        assert HandedDown(h, |h|, a, b, p.queue[k]);
      }
    }
  }

  /** Logging a good event that is not an acceptance. */
  lemma GoodLog(cfg: Config, c: Ctx, e: Event)
    requires Good(cfg, c) && !e.Accepted?
    requires GoodAt(cfg, c.h + [e], |c.h|)
    ensures Good(cfg, Log(c, e))
  {
    GoodAppend(cfg, c.h, e);
    CountPrefix(c.h, c.h + [e], |c.h|, Me(c));
    GoodNodeExtends(cfg, c.h, c.h + [e], c.n);
  }
}
