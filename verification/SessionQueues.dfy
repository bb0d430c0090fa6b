/** The queues of packets that wait for a key: counting, bounds and order. */
module SessionQueues {
  import opened Prelude
  import opened SessionTerms
  import opened SecurityNode
  import T = PeerTable

  // ---- order: admitted packets against sealed and queued ones ----

  predicate IsAdmission(e: Event, a: Id, b: Id) { e.Down? && e.admitted && e.node == a && e.peer == b }

  predicate IsSealing(e: Event, a: Id, b: Id) { e.Sealed? && e.node == a && e.peer == b }

  /** Payloads that node a admitted for b in the first i events, in order. */
  function Admitted(h: seq<Event>, i: nat, a: Id, b: Id): seq<seq<byte>>
    requires i <= |h|
  {
    if i == 0 then []
    else if IsAdmission(h[i - 1], a, b) then Admitted(h, i - 1, a, b) + [h[i - 1].data]
    else Admitted(h, i - 1, a, b)
  }

  /** Payloads that node a passed to doSendDataPacket for b in the first i events, in order. */
  function SealedFor(h: seq<Event>, i: nat, a: Id, b: Id): seq<seq<byte>>
    requires i <= |h|
  {
    if i == 0 then []
    else if IsSealing(h[i - 1], a, b) then SealedFor(h, i - 1, a, b) + [h[i - 1].data]
    else SealedFor(h, i - 1, a, b)
  }

  lemma {:induction false} BooksPrefix(h: seq<Event>, h': seq<Event>, i: nat, a: Id, b: Id)
    requires i <= |h| && h <= h'
    ensures Admitted(h, i, a, b) == Admitted(h', i, a, b) && SealedFor(h, i, a, b) == SealedFor(h', i, a, b)
  {
    if i > 0 { BooksPrefix(h, h', i - 1, a, b); }
  }

  function QueueOf(n: Node, b: Id): seq<seq<byte>> {
    if b in n.table.peers then n.table.peers[b].queue else []
  }

  /** What has been admitted for b, what has been sealed, and what waits. */
  datatype Books = Books(admitted: seq<seq<byte>>, sealed: seq<seq<byte>>, queue: seq<seq<byte>>)

  function BooksOf(c: Ctx, b: Id): Books {
    Books(Admitted(c.h, |c.h|, Me(c), b), SealedFor(c.h, |c.h|, Me(c), b), QueueOf(c.n, b))
  }

  /** Sealed packets followed by the queue are exactly the admitted packets, in order. */
  predicate Balanced(k: Books) { k.admitted == k.sealed + k.queue }

  function Entered(k: Books, e: Event, a: Id, b: Id): Books {
    if IsAdmission(e, a, b) then k.(admitted := k.admitted + [e.data])
    else if IsSealing(e, a, b) then k.(sealed := k.sealed + [e.data])
    else k
  }

  lemma LogBooks(c: Ctx, e: Event, b: Id)
    ensures BooksOf(Log(c, e), b) == Entered(BooksOf(c, b), e, Me(c), b)
  {
    BooksPrefix(c.h, c.h + [e], |c.h|, Me(c), b);
  }

  lemma SetPeerBooks(c: Ctx, id: Id, p: Peer, b: Id)
    ensures BooksOf(SetPeer(c, id, p), b) == if id == b then BooksOf(c, b).(queue := p.queue) else BooksOf(c, b)
  {
  }

  lemma SealBooks(c: Ctx, id: Id, data: seq<byte>, b: Id)
    requires Has(c, id)
    ensures var k := BooksOf(c, b);
      BooksOf(Seal(c, id, data), b) == if id == b then k.(sealed := k.sealed + [data]) else k
    ensures Seal(c, id, data).n.queued == c.n.queued
  {
    var e1 := Sealed(Me(c), id, data);
    LogBooks(c, e1, b);
    LogBooks(Log(c, e1), Sent(Me(c), id, Data(c.n.nonces, PeerAt(c, id).tx, Zeros() + data)), b);
  }

  lemma {:induction false} FlushBooks(c: Ctx, id: Id, queue: seq<seq<byte>>, b: Id)
    requires Has(c, id)
    ensures var k := BooksOf(c, b);
      BooksOf(Flush(c, id, queue), b) == if id == b then k.(sealed := k.sealed + queue) else k
    decreases |queue|
  {
    if queue != [] {
      var c0 := c.(n := c.n.(queued := c.n.queued - 1));
      SealBooks(c0, id, queue[0], b);
      FlushBooks(Seal(c0, id, queue[0]), id, queue[1..], b);
      HeadThenTail(BooksOf(c, b).sealed, queue);
    }
  }

  lemma HeadThenTail(before: seq<seq<byte>>, queue: seq<seq<byte>>)
    requires queue != []
    ensures before + [queue[0]] + queue[1..] == before + queue
  {
  }

  lemma {:induction false} FlushCount(c: Ctx, id: Id, queue: seq<seq<byte>>)
    requires Has(c, id)
    ensures Flush(c, id, queue).n.queued == c.n.queued - |queue|
    decreases |queue|
  {
    if queue != [] {
      FlushCount(Seal(c.(n := c.n.(queued := c.n.queued - 1)), id, queue[0]), id, queue[1..]);
    }
  }

  lemma FinishBooks(c: Ctx, id: Id, b: Id)
    requires Has(c, id)
    ensures var k := BooksOf(c, b);
      BooksOf(FinishNegotiation(c, id), b) == if id == b then Books(k.admitted, k.sealed + k.queue, []) else k
  {
    var p := PeerAt(c, id);
    var c1 := SetPeer(c, id, p.(negotiated := true));
    SetPeerBooks(c, id, p.(negotiated := true), b);
    FlushBooks(c1, id, p.queue, b);
    var c2 := Flush(c1, id, p.queue);
    SetPeerBooks(c2, id, PeerAt(c2, id).(queue := []), b);
  }

  lemma ConcludeBooks(c: Ctx, src: Id, pkt: Packet, b: Id)
    requires pkt.Hello? && Has(c, src)
    ensures BooksOf(Conclude(c, src, pkt), b) == BooksOf(c, b)
  {
    LogBooks(c, Accepted(Me(c), src, pkt), b);
    var c1 := Advance(c, src, pkt);
    LogBooks(c1, Sent(Me(c), src, HelloPacket(c1, src, 3, pkt.body.helloseq)), b);
  }

  lemma AcceptBooks(c: Ctx, src: Id, pkt: Packet, b: Id)
    requires pkt.Hello? && Has(c, src) && Balanced(BooksOf(c, b))
    ensures Balanced(BooksOf(AcceptHello(c, src, pkt), b))
  {
    var p := DeriveKeys(Me(c), c.n.flags, src, PeerAt(c, src), pkt.body);
    SetPeerBooks(c, src, p, b);
    var c1 := SetPeer(c, src, p);
    if pkt.body.kx != WeakPoint {
      FinishBooks(c1, src, b);
      ConcludeBooks(FinishNegotiation(c1, src), src, pkt, b);
    }
  }

  /** A lookup never touches the queue of an ordinary peer. */
  lemma LookupBooks(c: Ctx, id: Id, create: bool, allowed: bool, b: Id)
    requires T.WellFormed(c.n.table) && T.Ordinary(Me(c), b)
    ensures BooksOf(Lookup(c, id, create, allowed).0, b) == BooksOf(c, b)
  {
    T.GetOrCreateFrame(c.n.table, id, allowed, NewPeer(c.n, id));
  }

  lemma HandleDataBooks(c: Ctx, src: Id, pkt: Packet, allowed: bool, now: int, b: Id)
    requires T.WellFormed(c.n.table) && T.Ordinary(Me(c), b) && pkt.Data?
    ensures BooksOf(HandleData(c, src, pkt, allowed, now), b) == BooksOf(c, b)
  {
    LookupBooks(c, src, true, allowed, b);
    T.GetOrCreateFrame(c.n.table, src, allowed, NewPeer(c.n, src));
    var (c1, found) := Lookup(c, src, true, allowed);
    if |pkt.plain| > 8 && found {
      LogBooks(c1, Sent(Me(c), src, HelloPacket(c1, src, 1, 0)), b);
      SetPeerBooks(c1, src, PeerAt(c1, src).(lastValid := now), b);
      LogBooks(SetPeer(c1, src, PeerAt(c1, src).(lastValid := now)), Up(Me(c), src, pkt.plain[8..], pkt), b);
    }
  }

  lemma HandleHelloBooks(c: Ctx, src: Id, pkt: Packet, allowed: bool, b: Id)
    requires T.WellFormed(c.n.table) && T.Ordinary(Me(c), b) && pkt.Hello? && Balanced(BooksOf(c, b))
    ensures Balanced(BooksOf(HandleHello(c, src, pkt, allowed), b))
  {
    LookupBooks(c, src, true, allowed, b);
    T.GetOrCreateFrame(c.n.table, src, allowed, NewPeer(c.n, src));
    var (c1, found) := Lookup(c, src, true, allowed);
    if found {
      LogBooks(c1, Sent(Me(c), src, HelloPacket(c1, src, 2, pkt.body.helloseq)), b);
      AcceptBooks(c1, src, pkt, b);
    }
  }

  ghost predicate Flushed(n: Node) {
    forall b | b in n.table.peers :: n.table.peers[b].negotiated ==> n.table.peers[b].queue == []
  }

  lemma OnUpperBooks(c: Ctx, dst: Id, data: seq<byte>, allowed: bool, b: Id)
    requires T.WellFormed(c.n.table) && T.Ordinary(Me(c), b) && Balanced(BooksOf(c, b)) && Flushed(c.n)
    ensures Balanced(BooksOf(OnUpper(c, dst, data, allowed), b))
  {
    LookupBooks(c, dst, true, allowed, b);
    T.GetOrCreateFrame(c.n.table, dst, allowed, NewPeer(c.n, dst));
    var (c1, found) := Lookup(c, dst, true, allowed);
    if !found {
      LogBooks(c1, Down(Me(c), dst, data, false), b);
    } else if PeerAt(c1, dst).negotiated {
      var e := Down(Me(c), dst, data, true);
      LogBooks(c1, e, b);
      SealBooks(Log(c1, e), dst, data, b);
    } else {
      QueueBooks(c1, dst, data, b);
    }
  }

  /** A packet for a peer without a session is queued or dropped, with a hello 1 either way. */
  lemma QueueBooks(c: Ctx, dst: Id, data: seq<byte>, b: Id)
    requires Has(c, dst)
    ensures var k := BooksOf(c, b);
      var p := PeerAt(c, dst);
      var c2 := SetPeer(c, dst, p.(queue := p.queue + [data]));
      var c3 := c2.(n := c2.n.(queued := c2.n.queued + 1));
      && BooksOf(SendHello(Log(c3, Down(Me(c), dst, data, true)), dst, 1, 0), b)
         == (if dst == b then k.(admitted := k.admitted + [data], queue := k.queue + [data]) else k)
      && BooksOf(SendHello(Log(c, Down(Me(c), dst, data, false)), dst, 1, 0), b) == k
  {
    var p := PeerAt(c, dst);
    SetPeerBooks(c, dst, p.(queue := p.queue + [data]), b);
    var c2 := SetPeer(c, dst, p.(queue := p.queue + [data]));
    var c3 := c2.(n := c2.n.(queued := c2.n.queued + 1));
    LogBooks(c3, Down(Me(c), dst, data, true), b);
    var c4 := Log(c3, Down(Me(c), dst, data, true));
    LogBooks(c4, Sent(Me(c), dst, HelloPacket(c4, dst, 1, 0)), b);
    LogBooks(c, Down(Me(c), dst, data, false), b);
    var d := Log(c, Down(Me(c), dst, data, false));
    LogBooks(d, Sent(Me(c), dst, HelloPacket(d, dst, 1, 0)), b);
  }

  /** Every handler keeps the books of every ordinary peer balanced. */
  lemma HandleBooks(c: Ctx, i: Input, b: Id)
    requires T.WellFormed(c.n.table) && T.Ordinary(Me(c), b) && Balanced(BooksOf(c, b)) && Flushed(c.n)
    ensures Balanced(BooksOf(Handle(c, i), b))
  {
    match i
    case FromLower(src, pkt, allowed, now) =>
      if pkt.Data? { HandleDataBooks(c, src, pkt, allowed, now, b); }
      else if pkt.Hello? { HandleHelloBooks(c, src, pkt, allowed, b); }
      else if pkt.Heartbeat? {
        LookupBooks(c, src, true, allowed, b);
        LogBooks(c, Sent(Me(c), src, Heartbeat(true, pkt.ident)), b);
      }
    case FromUpper(dst, data, allowed) => OnUpperBooks(c, dst, data, allowed, b);
    case Find(id, create, allowed) => LookupBooks(c, id, create, allowed, b);
    case Latency(id, ident, allowed) =>
      LookupBooks(c, id, true, allowed, b);
      LogBooks(Lookup(c, id, true, allowed).0, Sent(Me(c), id, Heartbeat(false, ident)), b);
    case Periodic(id, now) =>
      if Has(c, id) { SetPeerBooks(c, id, PeerAt(c, id).(negotiated := false), b); }
  }

  // ---- counting ----

  /** The sum of all queue lengths. */
  ghost function Total(peers: map<Id, Peer>): nat
    decreases |peers|
  {
    if peers == map[] then 0
    else
      var k :| k in peers;
      |peers[k].queue| + Total(peers - {k})
  }

  lemma {:induction false} TotalSplit(peers: map<Id, Peer>, k: Id)
    requires k in peers
    ensures Total(peers) == |peers[k].queue| + Total(peers - {k})
    decreases |peers|
  {
    var m :| m in peers && Total(peers) == |peers[m].queue| + Total(peers - {m});
    if m != k {
      TotalSplit(peers - {m}, k);
      TotalSplit(peers - {k}, m);
      assert peers - {m} - {k} == peers - {k} - {m};
    }
  }

  lemma TotalUpdate(peers: map<Id, Peer>, k: Id, p: Peer)
    ensures Total(peers[k := p]) == Total(peers) + |p.queue| - (if k in peers then |peers[k].queue| else 0)
  {
    TotalSplit(peers[k := p], k);
    assert peers[k := p] - {k} == peers - {k};
    if k in peers {
      TotalSplit(peers, k);
    } else {
      assert peers - {k} == peers;
    }
  }

  /** How far queuedPackets exceeds the packets that are really queued. */
  ghost function Leak(n: Node): int { n.queued - Total(n.table.peers) }

  /** The lookups a handler makes that may create a peer: of which id, if any. */
  function LooksUp(i: Input): Option<Id> {
    match i
    case FromLower(src, pkt, _, _) =>
      if PacketSize(pkt) >= 2000 then None
      else (match pkt
            case Data(_, _, plain) => if |plain| <= 8 then None else Some(src)
            case Hello(body, _) => if 1 <= body.num <= 3 then Some(src) else None
            case Heartbeat(isReply, _) => if isReply then Some(src) else None
            case Other(_) => None)
    case FromUpper(dst, _, _) => Some(dst)
    case Find(id, create, _) => if create then Some(id) else None
    case Latency(id, _, _) => Some(id)
    case Periodic(_, _) => None
  }

  predicate AllowedIn(i: Input) { !i.Periodic? && i.allowed }

  /** The queued packets that a handler throws away together with a replaced peer. */
  function Discarded(n: Node, i: Input): nat {
    var id := LooksUp(i);
    if id.Some? && T.Replaces(n.table, id.value, AllowedIn(i)) then |QueueOf(n, id.value)| else 0
  }

  lemma LookupLeak(c: Ctx, id: Id, allowed: bool)
    requires T.WellFormed(c.n.table)
    ensures var (c', found) := Lookup(c, id, true, allowed);
      && c'.n.queued == c.n.queued && (found ==> Has(c', id))
      && Leak(c'.n) == Leak(c.n) + (if T.Replaces(c.n.table, id, allowed) then |QueueOf(c.n, id)| else 0)
  {
    TotalUpdate(c.n.table.peers, id, NewPeer(c.n, id));
    T.GetOrCreateFrame(c.n.table, id, allowed, NewPeer(c.n, id));
  }

  lemma FinishLeak(c: Ctx, id: Id)
    requires Has(c, id)
    ensures Leak(FinishNegotiation(c, id).n) == Leak(c.n)
  {
    var p := PeerAt(c, id);
    var c1 := SetPeer(c, id, p.(negotiated := true));
    TotalUpdate(c.n.table.peers, id, p.(negotiated := true));
    FlushCount(c1, id, p.queue);
    var c2 := Flush(c1, id, p.queue);
    TotalUpdate(c2.n.table.peers, id, PeerAt(c2, id).(queue := []));
  }

  lemma AcceptLeak(c: Ctx, src: Id, pkt: Packet)
    requires pkt.Hello? && Has(c, src)
    ensures Leak(AcceptHello(c, src, pkt).n) == Leak(c.n)
  {
    var p := DeriveKeys(Me(c), c.n.flags, src, PeerAt(c, src), pkt.body);
    TotalUpdate(c.n.table.peers, src, p);
    FinishLeak(SetPeer(c, src, p), src);
  }

  lemma OnUpperLeak(c: Ctx, dst: Id, data: seq<byte>, allowed: bool)
    requires T.WellFormed(c.n.table) && c.n.queued <= MAX_QUEUED_PACKETS
    ensures var r := OnUpper(c, dst, data, allowed).n;
      Leak(r) == Leak(c.n) + Discarded(c.n, FromUpper(dst, data, allowed)) && r.queued <= MAX_QUEUED_PACKETS
  {
    LookupLeak(c, dst, allowed);
    var (c1, found) := Lookup(c, dst, true, allowed);
    if found {
      var p := PeerAt(c1, dst);
      TotalUpdate(c1.n.table.peers, dst, p.(queue := p.queue + [data]));
    }
  }

  lemma OnLowerLeak(c: Ctx, src: Id, pkt: Packet, allowed: bool, now: int)
    requires T.WellFormed(c.n.table) && c.n.queued <= MAX_QUEUED_PACKETS
    ensures var r := OnLower(c, src, pkt, allowed, now).n;
      Leak(r) == Leak(c.n) + Discarded(c.n, FromLower(src, pkt, allowed, now)) && r.queued <= MAX_QUEUED_PACKETS
  {
    LookupLeak(c, src, allowed);
    var (c1, found) := Lookup(c, src, true, allowed);
    if found {
      TotalUpdate(c1.n.table.peers, src, PeerAt(c1, src).(lastValid := now));
      if pkt.Hello? {
        AcceptLeak(c1, src, pkt);
        AcceptQueued(c1, src, pkt);
      }
    }
  }

  lemma AcceptQueued(c: Ctx, src: Id, pkt: Packet)
    requires pkt.Hello? && Has(c, src)
    ensures AcceptHello(c, src, pkt).n.queued <= c.n.queued
  {
    var p := DeriveKeys(Me(c), c.n.flags, src, PeerAt(c, src), pkt.body);
    FlushCount(SetPeer(SetPeer(c, src, p), src, p.(negotiated := true)), src, p.queue);
  }

  /** Every handler changes the leak by exactly the packets it discards, and never queues beyond 10. */
  lemma HandleLeak(c: Ctx, i: Input)
    requires T.WellFormed(c.n.table) && c.n.queued <= MAX_QUEUED_PACKETS
    ensures Leak(Handle(c, i).n) == Leak(c.n) + Discarded(c.n, i)
    ensures Handle(c, i).n.queued <= MAX_QUEUED_PACKETS
  {
    match i
    case FromLower(src, pkt, allowed, now) => OnLowerLeak(c, src, pkt, allowed, now);
    case FromUpper(dst, data, allowed) => OnUpperLeak(c, dst, data, allowed);
    case Find(id, create, allowed) => LookupLeak(c, id, allowed);
    case Latency(id, ident, allowed) => LookupLeak(c, id, allowed);
    case Periodic(id, now) =>
      if Has(c, id) { TotalUpdate(c.n.table.peers, id, PeerAt(c, id).(negotiated := false)); }
  }

  lemma LookupFlushed(c: Ctx, id: Id, create: bool, allowed: bool)
    requires T.WellFormed(c.n.table) && Flushed(c.n)
    ensures var (c', found) := Lookup(c, id, create, allowed); Flushed(c'.n) && (found ==> Has(c', id))
  {
    T.GetOrCreateFrame(c.n.table, id, allowed, NewPeer(c.n, id));
  }

  lemma AcceptFlushed(c: Ctx, src: Id, pkt: Packet)
    requires pkt.Hello? && Has(c, src) && Flushed(c.n)
    ensures Flushed(AcceptHello(c, src, pkt).n)
  {
  }

  lemma OnLowerFlushed(c: Ctx, src: Id, pkt: Packet, allowed: bool, now: int)
    requires T.WellFormed(c.n.table) && Flushed(c.n)
    ensures Flushed(OnLower(c, src, pkt, allowed, now).n)
  {
    LookupFlushed(c, src, true, allowed);
    var (c1, found) := Lookup(c, src, true, allowed);
    if found && pkt.Hello? {
      AcceptFlushed(c1, src, pkt);
    }
  }

  lemma HandleFlushed(c: Ctx, i: Input)
    requires T.WellFormed(c.n.table) && Flushed(c.n)
    ensures Flushed(Handle(c, i).n)
  {
    match i
    case FromLower(src, pkt, allowed, now) => OnLowerFlushed(c, src, pkt, allowed, now);
    case FromUpper(dst, _, allowed) => LookupFlushed(c, dst, true, allowed);
    case Find(id, create, allowed) => LookupFlushed(c, id, create, allowed);
    case Latency(id, _, allowed) => LookupFlushed(c, id, true, allowed);
    case Periodic(_, _) =>
  }

  // ---- all of it ----

  /** A negotiated peer's queue is empty, the counter is between the number of waiting packets and 10,
      and for every ordinary peer what was sealed and what waits is what was admitted. */
  ghost predicate QueuesOk(c: Ctx) {
    && Flushed(c.n) && 0 <= Leak(c.n) && c.n.queued <= MAX_QUEUED_PACKETS
    && forall b | T.Ordinary(Me(c), b) :: Balanced(BooksOf(c, b))
  }

  lemma QueuesStep(c: Ctx, i: Input)
    requires T.WellFormed(c.n.table) && QueuesOk(c)
    ensures QueuesOk(Handle(c, i))
  {
    HandleLeak(c, i);
    HandleFlushed(c, i);
    forall b | T.Ordinary(Me(c), b) ensures Balanced(BooksOf(Handle(c, i), b)) {
      HandleBooks(c, i, b);
    }
  }
}
