/** What each handler of NgSocket does, seen from outside: which datagrams leave, where to, and when a peer
    counts as connected. */
module NgSocketEffects {
  import opened Prelude
  import opened NgSocket
  import opened NgSocketRuns
  import opened NgSocketTheorems
  import T = PeerTable

  /** The peer that a lookup of this id finds already there. */
  function PeerFor(s: Socket, id: Id, allowed: bool): Option<Peer>
    requires WellFormed(s)
  {
    if T.Get(s.table, id, allowed).present then
      assert Known(s, id, s.table.peers[id]);
      Some(s.peers[s.table.peers[id]])
    else None
  }

  /** A new attempt is due when none is under way, or the last one is three seconds old and at most five
      have been in vain. */
  predicate AttemptDue(p: Peer, now: int) {
    p.reestablishing ==>
      now - p.lastReestablish > 3000 && p.failedEstablishments <= 5
  }

  /** An attempt with this peer: what goes out. */
  ghost predicate Tries(e: Event, p: Peer, cookie: nat) {
    && e.Attempt? && e.id == p.id && e.cookie == cookie
    && forall a :: a in e.dests <==>
         && a.ip / 0x1_0000_0000_0000_0000_0000_0000_0000 != 0xfc94
         && (a in p.targets || a in p.sources || (a == p.linkLocal && IsSet(a)))
  }

  /** From h to h' nothing happened, or one attempt if `due`. */
  ghost predicate AtMostTried(h: seq<Event>, h': seq<Event>, due: bool, p: Peer, cookie: nat) {
    if due then |h'| == |h| + 1 && h' == h + [h'[|h|]] && Tries(h'[|h|], p, cookie) else h' == h
  }

  lemma AttemptEffect(s: Socket, r: Ref, now: int)
    requires r in s.peers
    ensures var s' := AttemptReestablish(s, r, now); var p := s.peers[r];
      && AtMostTried(s.h, s'.h, true, p, s.nextCookie)
      && s' == s.(h := s'.h, peers := s'.peers, nextCookie := s.nextCookie + 1)
      && s'.peers == s.peers[r := p.(failedEstablishments := p.failedEstablishments + 1, lastReestablish := now,
                                     reestablishing := true, cookie := s.nextCookie)]
  {
  }

  // ---- data ----

  /** A packet handed down leaves exactly once, with its id and its bytes: straight to the confirmed address if
      the peer is connected, through the base server if it is not, behind an attempt to connect when
      one is due. Only a packet for which there can be no peer is dropped. */
  lemma SendEffect(s: Socket, id: Id, data: seq<byte>, allowed: bool, now: int)
    requires WellFormed(s)
    ensures var s' := Handle(s, Send(id, data, allowed, now));
      if PeerFor(s, id, allowed).None? && !allowed then s'.h == s.h
      else
        var p := if PeerFor(s, id, allowed).Some? then PeerFor(s, id, allowed).value else NewPeer(id);
        && |s'.h| > |s.h|
        && AtMostTried(s.h, s'.h[..|s'.h| - 1], !p.connected && AttemptDue(p, now), p, s.nextCookie)
        && s'.h[|s'.h| - 1] == (if p.connected then Direct(p.target, id, data) else Relayed(id, data))
        && id in s'.table.peers && s'.table.peers[id] in s'.peers
        && s'.peers[s'.table.peers[id]].lastPacket == now
  {
    LookupKnown(s, id, true, allowed);
    var (s1, found) := Lookup(s, id, true, allowed);
    if found {
      var r := RefOf(s1, id);
      SendPeerEffect(s1, r, data, now);
      FoundPeer(s, id, allowed);
    }
  }

  lemma FoundPeer(s: Socket, id: Id, allowed: bool)
    requires WellFormed(s)
    ensures var (s1, found) := Lookup(s, id, true, allowed);
      && found == (PeerFor(s, id, allowed).Some? || allowed)
      && (found ==> id in s1.table.peers && s1.table.peers[id] in s1.peers)
      && (found ==> s1.peers[s1.table.peers[id]] ==
                    if PeerFor(s, id, allowed).Some? then PeerFor(s, id, allowed).value else NewPeer(id))
  {
    LookupKnown(s, id, true, allowed);
  }

  lemma SendPeerEffect(s: Socket, r: Ref, data: seq<byte>, now: int)
    requires r in s.peers
    ensures var s' := SendDataToPeer(s, r, data, now); var p := s.peers[r];
      && |s'.h| > |s.h|
      && AtMostTried(s.h, s'.h[..|s'.h| - 1], !p.connected && AttemptDue(p, now), p, s.nextCookie)
      && s'.h[|s'.h| - 1] == (if p.connected then Direct(p.target, p.id, data) else Relayed(p.id, data))
      && s'.table == s.table && s'.peers.Keys == s.peers.Keys && s'.peers[r].lastPacket == now
      && s'.peers[r].connected == p.connected && s'.peers[r].target == p.target
      && (forall q | q in s.peers && q != r :: s'.peers[q] == s.peers[q])
  {
    AttemptEffect(s, r, now);
    var h' := SendDataToPeer(s, r, data, now).h;
    assert h'[..|h'| - 1] + [h'[|h'| - 1]] == h';
  }

  /** Data from an address goes up under the id of the object that owns the address, or nowhere. */
  lemma DataEffect(s: Socket, source: Addr, data: seq<byte>)
    requires IndexInv(s)
    ensures var s' := Handle(s, GotData(source, data));
      && (forall r | Owns(s, r, source) :: s' == Log(s, Up(s.peers[r].id, data)))
      && ((forall r :: !Owns(s, r, source)) ==> s' == s)
  {
    if source in s.index { assert Owns(s, s.index[source], source); }
  }

  // ---- hellos ----

  /** A reply is accepted if and only if it is for this node and answers the pending attempt of a peer that is
      known; then its source is the peer's target. Otherwise nothing happens. */
  lemma ReplyEffect(s: Socket, source: Addr, m: Signed, allowed: bool)
    requires WellFormed(s)
    ensures var s' := Handle(s, GotReply(source, m, allowed)); var p := PeerFor(s, m.myId, allowed);
      if m.yourId == s.table.me && p.Some? && p.value.reestablishing && p.value.cookie == m.cookie then
        && s'.h == s.h + [Confirmed(source, m)] && s'.table.peers == s.table.peers
        && s'.peers == s.peers[s.table.peers[m.myId] :=
             p.value.(target := source, connected := true, failedEstablishments := 0, reestablishing := false)]
      else s'.h == s.h && s'.peers == s.peers && s'.table.peers == s.table.peers
  {
    LookupKnown(s, m.myId, false, allowed);
  }

  /** A hello for this node from a peer that is known or allowed is credited to the peer and answered, with
      its cookie, to where it came from. No other hello is answered. */
  lemma HelloEffect(s: Socket, source: Addr, m: Signed, allowed: bool, victim: Addr, now: int)
    requires WellFormed(s)
    ensures var h, h' := s.h, Handle(s, GotHello(source, m, allowed, victim, now)).h;
      if m.yourId == s.table.me && (PeerFor(s, m.myId, allowed).Some? || allowed) then
        && |h| + 2 <= |h'| <= |h| + 3 && h <= h'
        && h'[|h|].Hello? && h'[|h|].source == source && h'[|h|].id == m.myId
        && h'[|h'| - 1] == Replied(source, m.myId, m.cookie)
        && (|h'| == |h| + 3 ==> h'[|h| + 1].Attempt? && h'[|h| + 1].id == m.myId)
      else h' == h
  {
    FoundPeer(s, m.myId, allowed);
    LookupKnown(s, m.myId, true, allowed);
    var (s1, found) := Lookup(s, m.myId, true, allowed);
    if m.yourId == s.table.me && found {
      CreditEffect(s1, RefOf(s1, m.myId), source, m, victim, now);
    }
  }

  lemma CreditEffect(s: Socket, r: Ref, source: Addr, m: Signed, victim: Addr, now: int)
    requires r in s.peers && s.peers[r].id == m.myId
    ensures var s2 := Log(AddSource(s, r, source, victim), Hello(source, r, m.myId));
      && r in s2.peers
      && var h, h' := s.h, Log(AdoptLinkLocal(s2, r, source, now), Replied(source, m.myId, m.cookie)).h;
        && |h| + 2 <= |h'| <= |h| + 3 && h <= h'
        && h'[|h|] == Hello(source, r, m.myId) && h'[|h'| - 1] == Replied(source, m.myId, m.cookie)
        && (|h'| == |h| + 3 ==> h'[|h| + 1].Attempt? && h'[|h| + 1].id == m.myId)
  {
    AddSourceFrame(s, r, source, victim);
    var s2 := Log(AddSource(s, r, source, victim), Hello(source, r, m.myId));
    AdoptEffect(s2, r, source, now);
  }

  /** The first link-local address a peer is heard from becomes its link-local address, and is tried at once
      if the peer is active. */
  lemma AdoptEffect(s: Socket, r: Ref, source: Addr, now: int)
    requires r in s.peers
    ensures var s' := AdoptLinkLocal(s, r, source, now); var p := s.peers[r];
      var adopts := IsLinkLocal(source.ip) && !IsSet(p.linkLocal);
      && AtMostTried(s.h, s'.h, adopts && IsActive(p, now), p.(linkLocal := source), s.nextCookie)
      && r in s'.peers && s'.peers[r].linkLocal == (if adopts then source else p.linkLocal)
      && s'.peers[r].target == p.target && s'.peers[r].connected == p.connected && s'.table == s.table
      && s'.peers.Keys == s.peers.Keys && forall q | q in s.peers && q != r :: s'.peers[q] == s.peers[q]
  {
    AttemptEffect(Set(s, r, s.peers[r].(linkLocal := source)), r, now);
  }

  // ---- time and addresses ----

  /** The periodic visit: a peer whose session has just expired or that has not been sent anything for two
      minutes is not connected any more and left alone; any other is tried, and falls back to the relay
      when it is connected but the attempt before has gone unanswered for three seconds. */
  lemma PeriodicEffect(s: Socket, r: Ref, expired: bool, now: int)
    requires WellFormed(s) && r in s.peers
    ensures var s' := Handle(s, Periodic(r, expired, now)); var p := s.peers[r];
      var active := !expired && now - p.lastPacket < 120000;
      && AtMostTried(s.h, s'.h, active, p, s.nextCookie)
      && s'.table == s.table && s'.peers.Keys == s.peers.Keys
      && (forall q | q in s.peers && q != r :: s'.peers[q] == s.peers[q])
      && s'.peers[r].target == p.target
      && (s'.peers[r].connected <==>
            p.connected && active && !(p.reestablishing && now - p.lastReestablish > 3000))
  {
    var p := s.peers[r];
    AttemptEffect(Set(s, r, p), r, now);
    AttemptEffect(Set(s, r, p.(connected := false)), r, now);
  }

  /** A changed list of addresses for a known peer replaces the old one and is tried at once. */
  lemma TargetsEffect(s: Socket, id: Id, addrs: multiset<Addr>, allowed: bool, now: int)
    requires WellFormed(s)
    ensures var s' := Handle(s, GotTargets(id, addrs, allowed, now)); var p := PeerFor(s, id, allowed);
      if p.Some? && p.value.targets != addrs then
        && AtMostTried(s.h, s'.h, true, p.value.(targets := addrs), s.nextCookie)
        && s.table.peers[id] in s'.peers && s'.peers[s.table.peers[id]].targets == addrs
      else s'.h == s.h && s'.peers == s.peers
  {
    LookupKnown(s, id, false, allowed);
    if PeerFor(s, id, allowed).Some? {
      var r := s.table.peers[id];
      var s1 := Lookup(s, id, false, allowed).0;
      AttemptEffect(Set(s1, r, s1.peers[r].(targets := addrs)), r, now);
    }
  }

  /** So is the link-local address from a local announcement, except one's own. */
  lemma AnnouncementEffect(s: Socket, id: Id, a: Addr, allowed: bool, now: int)
    requires WellFormed(s)
    ensures var s' := Handle(s, GotAnnouncement(id, a, allowed, now)); var p := PeerFor(s, id, allowed);
      if id != s.table.me && p.Some? && p.value.linkLocal != a then
        && AtMostTried(s.h, s'.h, true, p.value.(linkLocal := a), s.nextCookie)
        && s.table.peers[id] in s'.peers && s'.peers[s.table.peers[id]].linkLocal == a
      else s'.h == s.h && s'.peers == s.peers
  {
    LookupKnown(s, id, false, allowed);
    if id != s.table.me && PeerFor(s, id, allowed).Some? {
      var r := s.table.peers[id];
      var s1 := Lookup(s, id, false, allowed).0;
      AttemptEffect(Set(s1, r, s1.peers[r].(linkLocal := a)), r, now);
    }
  }

  // ---- over whole runs ----

  /** Where the last reply accepted from this id came from. */
  function LastSource(h: seq<Event>, id: Id): Option<Addr>
    decreases |h|
  {
    if h == [] then None
    else
      var e := h[|h| - 1];
      if e.Confirmed? && e.reply.myId == id then Some(e.source) else LastSource(h[..|h| - 1], id)
  }

  lemma {:induction false} NothingConfirmed(h: seq<Event>, h': seq<Event>, id: Id)
    requires h <= h' && forall k | |h| <= k < |h'| :: !h'[k].Confirmed?
    ensures LastSource(h', id) == LastSource(h, id)
    decreases |h'|
  {
    if |h'| > |h| { NothingConfirmed(h, h'[..|h'| - 1], id); } else { assert h == h'; }
  }

  /** The peer of this id, if connected, has the source of the last reply from it for its target. */
  ghost predicate TargetIsLast(s: Socket, id: Id)
    requires WellFormed(s)
  {
    id in s.table.peers ==>
      var r := s.table.peers[id];
      r in s.peers && (s.peers[r].connected ==> LastSource(s.h, id) == Some(s.peers[r].target))
  }

  /** From s to s' no reply was accepted, and every object that is connected was so before, to the same
      address. */
  ghost predicate Calm(s: Socket, s': Socket) {
    && s.h <= s'.h && (forall k {:trigger s'.h[k]} | |s.h| <= k < |s'.h| :: !s'.h[k].Confirmed?)
    && (forall r | r in s'.peers && s'.peers[r].connected ::
          r in s.peers && s.peers[r].connected && s.peers[r].target == s'.peers[r].target)
  }

  lemma CalmTwice(s: Socket, s1: Socket, s2: Socket)
    requires Calm(s, s1) && Calm(s1, s2)
    ensures Calm(s, s2)
  {
    forall k | |s.h| <= k < |s2.h| ensures !s2.h[k].Confirmed? {
      if k < |s1.h| { assert s2.h[k] == s1.h[k]; }
    }
  }

  lemma CalmSet(s: Socket, r: Ref, p: Peer)
    requires r in s.peers && (p.connected ==> s.peers[r].connected && p.target == s.peers[r].target)
    ensures Calm(s, Set(s, r, p))
  {
  }

  lemma CalmLog(s: Socket, e: Event)
    requires !e.Confirmed?
    ensures Calm(s, Log(s, e))
  {
  }

  lemma CalmAttempt(s: Socket, r: Ref, now: int)
    requires r in s.peers
    ensures Calm(s, AttemptReestablish(s, r, now))
  {
  }

  lemma CalmLookup(s: Socket, id: Id, create: bool, allowed: bool)
    requires WellFormed(s)
    ensures Calm(s, Lookup(s, id, create, allowed).0)
  {
    LookupKnown(s, id, create, allowed);
  }

  lemma CalmSend(s: Socket, r: Ref, data: seq<byte>, now: int)
    requires r in s.peers
    ensures Calm(s, SendDataToPeer(s, r, data, now))
  {
    CalmAttempt(s, r, now);
  }

  lemma CalmHello(s: Socket, r: Ref, source: Addr, m: Signed, victim: Addr, now: int)
    requires r in s.peers
    ensures var s2 := Log(AddSource(s, r, source, victim), Hello(source, r, m.myId));
      r in s2.peers && Calm(s, Log(AdoptLinkLocal(s2, r, source, now), Replied(source, m.myId, m.cookie)))
  {
    AddSourceFrame(s, r, source, victim);
    var s2 := Log(AddSource(s, r, source, victim), Hello(source, r, m.myId));
    assert Calm(s, s2);
    AdoptEffect(s2, r, source, now);
    var s3 := AdoptLinkLocal(s2, r, source, now);
    assert Calm(s2, s3);
    CalmTwice(s, s2, s3);
    CalmLog(s3, Replied(source, m.myId, m.cookie));
    CalmTwice(s, s3, Log(s3, Replied(source, m.myId, m.cookie)));
  }

  lemma CalmPeriodic(s: Socket, r: Ref, expired: bool, now: int)
    requires WellFormed(s) && r in s.peers
    ensures Calm(s, PeriodicPeer(s, r, expired, now))
  {
    PeriodicEffect(s, r, expired, now);
  }

  lemma CalmRetry(s: Socket, r: Ref, p: Peer, now: int)
    requires r in s.peers && p.connected == s.peers[r].connected && p.target == s.peers[r].target
    ensures Calm(s, AttemptReestablish(Set(s, r, p), r, now))
  {
    CalmSet(s, r, p);
    CalmAttempt(Set(s, r, p), r, now);
    CalmTwice(s, Set(s, r, p), AttemptReestablish(Set(s, r, p), r, now));
  }

  lemma HandleCalm(s: Socket, i: Input)
    requires WellFormed(s) && !i.GotReply?
    ensures Calm(s, Handle(s, i))
  {
    match i
    case GotHello(source, m, allowed, victim, now) =>
      CalmLookup(s, m.myId, true, allowed);
      LookupKnown(s, m.myId, true, allowed);
      var (s1, found) := Lookup(s, m.myId, true, allowed);
      if m.yourId == s.table.me && found {
        CalmHello(s1, RefOf(s1, m.myId), source, m, victim, now);
        CalmTwice(s, s1, Handle(s, i));
      }
    case GotData(source, data) =>
    case Send(id, data, allowed, now) =>
      CalmLookup(s, id, true, allowed);
      LookupKnown(s, id, true, allowed);
      var (s1, found) := Lookup(s, id, true, allowed);
      if found {
        CalmSend(s1, RefOf(s1, id), data, now);
        CalmTwice(s, s1, Handle(s, i));
      }
    case Periodic(r, expired, now) => if r in s.peers { CalmPeriodic(s, r, expired, now); }
    case GotTargets(id, addrs, allowed, now) =>
      CalmAddresses(s, id, addrs, NoAddr(), allowed, now);
    case GotAnnouncement(id, a, allowed, now) =>
      CalmAddresses(s, id, multiset{}, a, allowed, now);
    case Find(id, create, allowed) => CalmLookup(s, id, create, allowed);
  }

  lemma CalmAddresses(s: Socket, id: Id, addrs: multiset<Addr>, a: Addr, allowed: bool, now: int)
    requires WellFormed(s)
    ensures Calm(s, TargetsReceived(s, id, addrs, allowed, now)) && Calm(s, Announced(s, id, a, allowed, now))
  {
    CalmLookup(s, id, false, allowed);
    LookupKnown(s, id, false, allowed);
    var (s1, found) := Lookup(s, id, false, allowed);
    if found {
      var r := RefOf(s1, id);
      CalmRetryAfter(s, s1, r, s1.peers[r].(targets := addrs), now);
      CalmRetryAfter(s, s1, r, s1.peers[r].(linkLocal := a), now);
    }
  }

  lemma CalmRetryAfter(s: Socket, s1: Socket, r: Ref, p: Peer, now: int)
    requires Calm(s, s1)
    requires r in s1.peers && p.connected == s1.peers[r].connected && p.target == s1.peers[r].target
    ensures Calm(s, AttemptReestablish(Set(s1, r, p), r, now))
  {
    CalmRetry(s1, r, p, now);
    CalmTwice(s, s1, AttemptReestablish(Set(s1, r, p), r, now));
  }

  /** An object that an id newly has is a new one. */
  ghost predicate SameObject(s: Socket, s': Socket, id: Id) {
    id in s'.table.peers && s'.table.peers[id] in s.peers ==>
      id in s.table.peers && s.table.peers[id] == s'.table.peers[id]
  }

  lemma LookupObject(s: Socket, x: Id, create: bool, allowed: bool, id: Id)
    requires WellFormed(s) && T.Ordinary(s.table.me, id)
    ensures SameObject(s, Lookup(s, x, create, allowed).0, id)
  {
    assert |s.peers| !in s.peers;
  }

  lemma HandleObject(s: Socket, i: Input, id: Id)
    requires WellFormed(s) && T.Ordinary(s.table.me, id)
    ensures SameObject(s, Handle(s, i), id)
  {
    match i
    case GotHello(source, m, allowed, victim, now) =>
      LookupKnown(s, m.myId, true, allowed);
      LookupObject(s, m.myId, true, allowed, id);
      var (s1, found) := Lookup(s, m.myId, true, allowed);
      if m.yourId == s.table.me && found {
        var r := RefOf(s1, m.myId);
        AddSourceFrame(s1, r, source, victim);
        AdoptEffect(Log(AddSource(s1, r, source, victim), Hello(source, r, m.myId)), r, source, now);
      }
    case GotReply(source, m, allowed) => LookupObject(s, m.myId, false, allowed, id);
    case GotData(source, data) =>
    case Send(x, data, allowed, now) =>
      LookupKnown(s, x, true, allowed);
      LookupObject(s, x, true, allowed, id);
      var (s1, found) := Lookup(s, x, true, allowed);
      if found { SendPeerEffect(s1, RefOf(s1, x), data, now); }
    case Periodic(r, expired, now) => if r in s.peers { PeriodicEffect(s, r, expired, now); }
    case GotTargets(x, addrs, allowed, now) => LookupObject(s, x, false, allowed, id);
    case GotAnnouncement(x, a, allowed, now) => LookupObject(s, x, false, allowed, id);
    case Find(x, create, allowed) => LookupObject(s, x, create, allowed, id);
  }

  lemma QuietTarget(s: Socket, i: Input, id: Id)
    requires WellFormed(s) && WellFormed(Handle(s, i)) && T.Ordinary(s.table.me, id) && !i.GotReply?
    requires TargetIsLast(s, id)
    ensures TargetIsLast(Handle(s, i), id)
  {
    var s' := Handle(s, i);
    HandleCalm(s, i);
    HandleObject(s, i, id);
    NothingConfirmed(s.h, s'.h, id);
    if id in s'.table.peers { assert Known(s', id, s'.table.peers[id]); }
  }

  lemma ReplyTarget(s: Socket, source: Addr, m: Signed, allowed: bool, id: Id)
    requires WellFormed(s) && WellFormed(Handle(s, GotReply(source, m, allowed))) && TargetIsLast(s, id)
    ensures TargetIsLast(Handle(s, GotReply(source, m, allowed)), id)
  {
    var s' := Handle(s, GotReply(source, m, allowed));
    ReplyEffect(s, source, m, allowed);
    if id in s'.table.peers { assert Known(s, id, s.table.peers[id]); }
    if |s'.h| > |s.h| {
      assert s'.h[..|s'.h| - 1] == s.h;
      assert Known(s, m.myId, s.table.peers[m.myId]);
    }
  }

  lemma RunShape(me: Id, run: seq<Socket>, inputs: seq<Input>, k: nat)
    requires IsRun(me, run, inputs) && k < |run|
    ensures WellFormed(run[k]) && run[k].table.me == me
    ensures k < |inputs| ==> run[k + 1] == Handle(run[k], inputs[k])
  {
    RunKeeps(me, run, inputs, k);
    if k < |inputs| { assert StepAt(run, inputs, k); }
  }

  lemma {:induction false} RunTarget(me: Id, run: seq<Socket>, inputs: seq<Input>, k: nat, id: Id)
    requires IsRun(me, run, inputs) && k < |run| && T.Ordinary(me, id)
    ensures WellFormed(run[k]) && TargetIsLast(run[k], id)
  {
    RunShape(me, run, inputs, k);
    if k > 0 {
      RunTarget(me, run, inputs, k - 1, id);
      RunShape(me, run, inputs, k - 1);
      NextTarget(run[k - 1], inputs[k - 1], id);
    }
  }

  lemma NextTarget(s: Socket, i: Input, id: Id)
    requires WellFormed(s) && WellFormed(Handle(s, i)) && T.Ordinary(s.table.me, id) && TargetIsLast(s, id)
    ensures TargetIsLast(Handle(s, i), id)
  {
    if i.GotReply? { ReplyTarget(s, i.source, i.msg, i.allowed, id); } else { QuietTarget(s, i, id); }
  }

  /** In every run, a packet for a peer leaves in the step in which it is handed down: directly, to the address
      that the last reply accepted from this peer came from, if the peer is connected, and relayed
      if it is not. */
  lemma SentAtOnce(me: Id, run: seq<Socket>, inputs: seq<Input>, k: nat)
    requires IsRun(me, run, inputs) && k < |inputs| && inputs[k].Send? && T.Ordinary(me, inputs[k].id)
    ensures WellFormed(run[k])
    ensures var Send(id, data, allowed, now) := inputs[k]; var h, h' := run[k].h, run[k + 1].h;
      var p := PeerFor(run[k], id, allowed);
      if p.Some? && p.value.connected then
        && LastSource(h, id).Some?
        && h' == h + [Direct(LastSource(h, id).value, id, data)]
      else if p.Some? || allowed then
        && |h'| > |h| && h'[|h'| - 1] == Relayed(id, data)
        && h <= h' && forall j | |h| <= j < |h'| - 1 :: h'[j].Attempt? && h'[j].id == id
      else h' == h
  {
    var Send(id, data, allowed, now) := inputs[k];
    RunTarget(me, run, inputs, k, id);
    RunShape(me, run, inputs, k);
    SendEffect(run[k], id, data, allowed, now);
    var h, h' := run[k].h, run[k + 1].h;
    if PeerFor(run[k], id, allowed).Some? { assert Known(run[k], id, run[k].table.peers[id]); }
    if |h'| > 0 { assert h' == h'[..|h'| - 1] + [h'[|h'| - 1]]; }
  }
}
