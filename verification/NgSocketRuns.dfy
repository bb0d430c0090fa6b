/** What every run of NgSocket keeps: the source address index and the cookie protocol. */
module NgSocketRuns {
  import opened Prelude
  import opened NgSocket

  /** The random choice in addSourceAddress falls on one of the peer's old addresses. */
  ghost predicate Legal(s: Socket, i: Input)
    requires WellFormed(s)
  {
    i.GotHello? ==>
      var (s1, found) := Lookup(s, i.msg.myId, true, i.allowed);
      (found && i.msg.myId in s1.table.peers && s1.table.peers[i.msg.myId] in s1.peers) ==>
        var p := s1.peers[s1.table.peers[i.msg.myId]];
        Full(p, i.source) ==> i.victim in p.sources
  }

  ghost predicate StepsTo(s: Socket, i: Input, s': Socket) {
    WellFormed(s) && Legal(s, i) && s' == Handle(s, i)
  }


  // ---- the index ----

  ghost predicate Owns(s: Socket, r: Ref, a: Addr) { r in s.peers && a in s.peers[r].sources }

  /** The index is the inverse of the peers' source address sets. */
  ghost predicate Inverse(s: Socket) {
    forall r, a :: Owns(s, r, a) <==> (a in s.index && s.index[a] == r)
  }

  ghost predicate Bounded(s: Socket) {
    forall r | r in s.peers :: |s.peers[r].sources| <= MAX_SOURCE_ADDRESSES
  }

  ghost predicate HelloAt(h: seq<Event>, k: int, a: Addr, r: Ref, id: Id) {
    0 <= k < |h| && h[k] == Hello(a, r, id)
  }

  /** The last HELLO credited from `a` was signed by `id` and went to its object `r`. */
  ghost predicate MostRecent(h: seq<Event>, a: Addr, r: Ref, id: Id) {
    exists k :: HelloAt(h, k, a, r, id) && forall j, q, i | HelloAt(h, j, a, q, i) :: j <= k
  }

  ghost predicate Recent(s: Socket) {
    forall a | a in s.index && s.index[a] in s.peers :: MostRecent(s.h, a, s.index[a], s.peers[s.index[a]].id)
  }

  ghost predicate IndexInv(s: Socket) { WellFormed(s) && Inverse(s) && Bounded(s) && Recent(s) }

  lemma LogRecent(h: seq<Event>, e: Event, a: Addr, r: Ref, id: Id)
    requires MostRecent(h, a, r, id)
    requires !(e.Hello? && e.source == a)
    ensures MostRecent(h + [e], a, r, id)
  {
    var k :| HelloAt(h, k, a, r, id) && forall j, q, i | HelloAt(h, j, a, q, i) :: j <= k;
    assert HelloAt(h + [e], k, a, r, id);
    forall j, q, i | HelloAt(h + [e], j, a, q, i) ensures j <= k {
      assert HelloAt(h, j, a, q, i);
    }
  }

  lemma LogHelloRecent(h: seq<Event>, a: Addr, r: Ref, id: Id)
    ensures MostRecent(h + [Hello(a, r, id)], a, r, id)
  {
    assert HelloAt(h + [Hello(a, r, id)], |h|, a, r, id);
  }

  /** Only a HELLO, or a change of a source set, matters to the index. */
  lemma LogIndex(s: Socket, e: Event)
    requires IndexInv(s) && !e.Hello?
    ensures IndexInv(Log(s, e))
  {
    forall a | a in s.index && s.index[a] in s.peers
      ensures MostRecent(s.h + [e], a, s.index[a], s.peers[s.index[a]].id)
    {
      LogRecent(s.h, e, a, s.index[a], s.peers[s.index[a]].id);
    }
    assert forall r, a :: Owns(Log(s, e), r, a) == Owns(s, r, a);
  }

  lemma SetIndex(s: Socket, r: Ref, p: Peer)
    requires IndexInv(s) && r in s.peers && p.id == s.peers[r].id && p.sources == s.peers[r].sources
    ensures IndexInv(Set(s, r, p)) && Set(s, r, p).table == s.table
  {
    assert Set(s, r, p).peers.Keys == s.peers.Keys;
    SameSize(s.peers, Set(s, r, p).peers);
    assert forall q, a :: Owns(Set(s, r, p), q, a) == Owns(s, q, a);
  }

  lemma SameSize<K, V>(m: map<K, V>, m': map<K, V>)
    requires m.Keys == m'.Keys
    ensures |m| == |m'|
  {
    assert |m| == |m.Keys| && |m'| == |m'.Keys|;
  }

  lemma CookieIndex(s: Socket, c: nat)
    requires IndexInv(s)
    ensures IndexInv(s.(nextCookie := c))
  {
    assert forall r, a :: Owns(s.(nextCookie := c), r, a) == Owns(s, r, a);
  }

  lemma AttemptIndex(s: Socket, r: Ref, now: int)
    requires IndexInv(s) && r in s.peers
    ensures var s' := AttemptReestablish(s, r, now);
      IndexInv(s') && s'.table == s.table && s'.peers.Keys == s.peers.Keys
  {
    var p := s.peers[r];
    var p' := p.(failedEstablishments := p.failedEstablishments + 1, lastReestablish := now,
                 reestablishing := true, cookie := s.nextCookie);
    var s1 := Set(s, r, p');
    var s2 := s1.(nextCookie := s.nextCookie + 1);
    assert IndexInv(s2) by {
      SetIndex(s, r, p');
      CookieIndex(s1, s.nextCookie + 1);
    }
    LogIndex(s2, Attempt(p.id, s.nextCookie, Candidates(p)));
  }

  lemma LookupIndex(s: Socket, id: Id, create: bool, allowed: bool)
    requires IndexInv(s)
    ensures IndexInv(Lookup(s, id, create, allowed).0)
  {
    LookupKnown(s, id, create, allowed);
    var s' := Lookup(s, id, create, allowed).0;
    assert forall r, a :: Owns(s', r, a) == Owns(s, r, a);
    assert forall a | a in s.index :: Owns(s, s.index[a], a);
  }

  lemma RemoveShape(s: Socket, r: Ref, v: Addr)
    requires Inverse(s) && r in s.peers && v in s.peers[r].sources
    ensures var s' := RemoveSource(s, r, v);
      Inverse(s') && forall q, b :: Owns(s', q, b) <==> Owns(s, q, b) && b != v
  {
    assert Owns(s, r, v);
    var s' := RemoveSource(s, r, v);
    forall q, b ensures Owns(s', q, b) <==> Owns(s, q, b) && b != v {
      if q != r && b == v { assert !Owns(s, q, v); }
    }
  }

  lemma InsertShape(s: Socket, r: Ref, a: Addr)
    requires Inverse(s) && r in s.peers && a !in s.peers[r].sources
    ensures var s' := InsertSource(s, r, a);
      Inverse(s') && forall q, b :: Owns(s', q, b) <==> if b == a then q == r else Owns(s, q, b)
  {
    assert !Owns(s, r, a);
    if a in s.index { assert Owns(s, s.index[a], a); }
    var s' := InsertSource(s, r, a);
    forall q, b ensures Owns(s', q, b) <==> if b == a then q == r else Owns(s, q, b) {
      if b == a && Owns(s, q, a) { assert s.index[a] == q; }
    }
  }

  /** Two sockets that differ in source sets and index only. */
  ghost predicate SameButSources(s: Socket, s': Socket) {
    && s'.peers.Keys == s.peers.Keys && s'.table == s.table && s'.h == s.h && s'.nextCookie == s.nextCookie
    && (forall q | q in s.peers :: s'.peers[q] == s.peers[q].(sources := s'.peers[q].sources))
  }

  lemma AddSourceFrame(s: Socket, r: Ref, a: Addr, victim: Addr)
    requires r in s.peers
    ensures SameButSources(s, AddSource(s, r, a, victim))
  {
    if a !in s.peers[r].sources {
      if Full(s.peers[r], a) {
        var s1 := RemoveSource(s, r, victim);
        InsertFrame(s1, r, a);
        SameTransitive(s, s1, InsertSource(s1, r, a));
      } else {
        InsertFrame(s, r, a);
      }
    }
  }

  lemma InsertFrame(s: Socket, r: Ref, a: Addr)
    requires r in s.peers
    ensures SameButSources(s, InsertSource(s, r, a))
  {
  }

  lemma SameTransitive(s0: Socket, s1: Socket, s2: Socket)
    requires SameButSources(s0, s1) && SameButSources(s1, s2)
    ensures SameButSources(s0, s2)
  {
  }

  lemma AddSourceShape(s: Socket, r: Ref, a: Addr, victim: Addr)
    requires Inverse(s) && r in s.peers
    requires Full(s.peers[r], a) ==> victim in s.peers[r].sources
    ensures var s' := AddSource(s, r, a, victim);
      && Inverse(s')
      && (forall q, b :: Owns(s', q, b) <==>
            if b == a then q == r else Owns(s, q, b) && !(Full(s.peers[r], a) && b == victim))
  {
    if a in s.peers[r].sources {
      assert Owns(s, r, a);
    } else if Full(s.peers[r], a) {
      RemoveShape(s, r, victim);
      InsertShape(RemoveSource(s, r, victim), r, a);
    } else {
      InsertShape(s, r, a);
    }
  }

  lemma AddSourceBounded(s: Socket, r: Ref, a: Addr, victim: Addr)
    requires Inverse(s) && Bounded(s) && r in s.peers
    requires Full(s.peers[r], a) ==> victim in s.peers[r].sources
    ensures Bounded(AddSource(s, r, a, victim))
  {
    var s' := AddSource(s, r, a, victim);
    AddSourceShape(s, r, a, victim);
    AddSourceFrame(s, r, a, victim);
    forall q | q in s'.peers ensures |s'.peers[q].sources| <= MAX_SOURCE_ADDRESSES {
      var old_, new_ := s.peers[q].sources, s'.peers[q].sources;
      assert forall b :: b in new_ <==> Owns(s', q, b);
      assert forall b :: b in old_ <==> Owns(s, q, b);
      if q != r {
        Subset(new_, old_);
      } else if a in old_ {
        assert new_ == old_ by { assert !Full(s.peers[r], a); }
      } else if Full(s.peers[r], a) {
        assert new_ == (old_ - {victim}) + {a};
      } else {
        assert new_ == old_ + {a};
      }
    }
  }

  lemma Subset<X>(x: set<X>, y: set<X>)
    requires x <= y
    ensures |x| <= |y|
  {
    assert y == x + (y - x);
  }

  lemma AddSourceIndex(s: Socket, r: Ref, a: Addr, victim: Addr, id: Id)
    requires IndexInv(s) && r in s.peers && s.peers[r].id == id
    requires Full(s.peers[r], a) ==> victim in s.peers[r].sources
    ensures IndexInv(Log(AddSource(s, r, a, victim), Hello(a, r, id)))
  {
    var s1 := AddSource(s, r, a, victim);
    var s' := Log(s1, Hello(a, r, id));
    AddSourceShape(s, r, a, victim);
    AddSourceFrame(s, r, a, victim);
    AddSourceBounded(s, r, a, victim);
    SameSize(s.peers, s1.peers);
    assert WellFormed(s');
    forall b | b in s'.index && s'.index[b] in s'.peers
      ensures MostRecent(s'.h, b, s'.index[b], s'.peers[s'.index[b]].id)
    {
      assert Owns(s1, s1.index[b], b);
      if b == a {
        LogHelloRecent(s.h, a, r, id);
      } else {
        assert Owns(s, s1.index[b], b);
        LogRecent(s.h, Hello(a, r, id), b, s.index[b], s.peers[s.index[b]].id);
      }
    }
    assert forall q, b :: Owns(s', q, b) == Owns(s1, q, b);
  }

  lemma AdoptIndex(s: Socket, r: Ref, source: Addr, now: int)
    requires IndexInv(s) && r in s.peers
    ensures IndexInv(AdoptLinkLocal(s, r, source, now))
  {
    var s' := Set(s, r, s.peers[r].(linkLocal := source));
    SetIndex(s, r, s.peers[r].(linkLocal := source));
    AttemptIndex(s', r, now);
  }

  lemma HelloIndex(s: Socket, source: Addr, m: Signed, allowed: bool, victim: Addr, now: int)
    requires IndexInv(s) && Legal(s, GotHello(source, m, allowed, victim, now))
    ensures IndexInv(HelloReceived(s, source, m, allowed, victim, now))
  {
    LookupIndex(s, m.myId, true, allowed);
    LookupKnown(s, m.myId, true, allowed);
    var (s1, found) := Lookup(s, m.myId, true, allowed);
    if m.yourId == s.table.me && found {
      var r := RefOf(s1, m.myId);
      var s2 := Log(AddSource(s1, r, source, victim), Hello(source, r, m.myId));
      AddSourceIndex(s1, r, source, victim, m.myId);
      AddSourceFrame(s1, r, source, victim);
      AdoptIndex(s2, r, source, now);
      LogIndex(AdoptLinkLocal(s2, r, source, now), Replied(source, m.myId, m.cookie));
    }
  }

  lemma ReplyIndex(s: Socket, source: Addr, m: Signed, allowed: bool)
    requires IndexInv(s)
    ensures IndexInv(HelloReplyReceived(s, source, m, allowed))
  {
    LookupIndex(s, m.myId, false, allowed);
    LookupKnown(s, m.myId, false, allowed);
    var (s1, found) := Lookup(s, m.myId, false, allowed);
    if found {
      var r := RefOf(s1, m.myId);
      var p := s1.peers[r].(target := source, connected := true, failedEstablishments := 0, reestablishing := false);
      SetIndex(s1, r, p);
      LogIndex(Set(s1, r, p), Confirmed(source, m));
    }
  }

  lemma SendIndex(s: Socket, r: Ref, data: seq<byte>, now: int)
    requires IndexInv(s) && r in s.peers
    ensures IndexInv(SendDataToPeer(s, r, data, now))
  {
    var p := s.peers[r];
    AttemptIndex(s, r, now);
    var s1 := AttemptReestablish(s, r, now);
    LogIndex(s, Direct(p.target, p.id, data));
    LogIndex(s, Relayed(p.id, data));
    LogIndex(s1, Relayed(p.id, data));
    SetIndex(Log(s, Direct(p.target, p.id, data)), r, p.(lastPacket := now));
    SetIndex(Log(s, Relayed(p.id, data)), r, p.(lastPacket := now));
    SetIndex(Log(s1, Relayed(p.id, data)), r, s1.peers[r].(lastPacket := now));
  }

  /** A changed address list or link-local address starts an attempt. */
  lemma RetargetIndex(s: Socket, r: Ref, p: Peer, now: int)
    requires IndexInv(s) && r in s.peers && p.id == s.peers[r].id && p.sources == s.peers[r].sources
    ensures IndexInv(AttemptReestablish(Set(s, r, p), r, now))
  {
    SetIndex(s, r, p);
    AttemptIndex(Set(s, r, p), r, now);
  }

  lemma AddressIndex(s: Socket, id: Id, addrs: multiset<Addr>, a: Addr, allowed: bool, now: int)
    requires IndexInv(s)
    ensures IndexInv(TargetsReceived(s, id, addrs, allowed, now))
    ensures IndexInv(Announced(s, id, a, allowed, now))
  {
    LookupIndex(s, id, false, allowed);
    LookupKnown(s, id, false, allowed);
    var (s1, found) := Lookup(s, id, false, allowed);
    if found {
      var r := RefOf(s1, id);
      RetargetIndex(s1, r, s1.peers[r].(targets := addrs), now);
      RetargetIndex(s1, r, s1.peers[r].(linkLocal := a), now);
    }
  }

  lemma PeriodicIndex(s: Socket, r: Ref, expired: bool, now: int)
    requires IndexInv(s) && r in s.peers
    ensures IndexInv(PeriodicPeer(s, r, expired, now))
  {
    var p := s.peers[r];
    SetIndex(s, r, p.(connected := false));
    RetargetIndex(s, r, p.(connected := false), now);
    RetargetIndex(s, r, p, now);
  }

  lemma UpperIndex(s: Socket, id: Id, data: seq<byte>, allowed: bool, now: int)
    requires IndexInv(s)
    ensures IndexInv(UpperData(s, id, data, allowed, now))
  {
    LookupIndex(s, id, true, allowed);
    LookupKnown(s, id, true, allowed);
    var (s1, found) := Lookup(s, id, true, allowed);
    if found { SendIndex(s1, RefOf(s1, id), data, now); }
  }

  lemma HandleIndex(s: Socket, i: Input)
    requires IndexInv(s) && Legal(s, i)
    ensures IndexInv(Handle(s, i))
  {
    match i
    case GotHello(source, m, allowed, victim, now) => HelloIndex(s, source, m, allowed, victim, now);
    case GotReply(source, m, allowed) => ReplyIndex(s, source, m, allowed);
    case GotData(source, data) =>
      var f := FindBySource(s, source);
      if f.Some? && f.value in s.peers { LogIndex(s, Up(s.peers[f.value].id, data)); }
    case Send(id, data, allowed, now) => UpperIndex(s, id, data, allowed, now);
    case Periodic(r, expired, now) => if r in s.peers { PeriodicIndex(s, r, expired, now); }
    case GotTargets(id, addrs, allowed, now) => AddressIndex(s, id, addrs, NoAddr(), allowed, now);
    case GotAnnouncement(id, a, allowed, now) => AddressIndex(s, id, multiset{}, a, allowed, now);
    case Find(id, create, allowed) => LookupIndex(s, id, create, allowed);
  }

}
