/** The HELLO / HELLO_REPLY cookie protocol: what a direct send rests on. */
module NgSocketCookies {
  import opened Prelude
  import opened NgSocket
  import opened NgSocketRuns

  ghost predicate AttemptAt(h: seq<Event>, k: int, id: Id, c: int) {
    0 <= k < |h| && h[k].Attempt? && h[k].id == id && h[k].cookie == c
  }

  ghost predicate ConfirmedAt(h: seq<Event>, k: int, c: int) {
    0 <= k < |h| && h[k].Confirmed? && h[k].reply.cookie == c
  }

  ghost predicate DirectAt(h: seq<Event>, k: int, a: Addr, id: Id) {
    0 <= k < |h| && h[k].Direct? && h[k].dest == a && h[k].id == id
  }

  /** Event k accepts, from address `a`, the reply that `id` signed for `me` with the cookie of the
      attempt at event j. */
  ghost predicate Answers(h: seq<Event>, j: int, k: int, me: Id, a: Addr, id: Id) {
    0 <= j < k < |h| && h[j].Attempt? && h[j].id == id && h[k] == Confirmed(a, Signed(id, me, h[j].cookie))
  }

  ghost predicate Vouched(h: seq<Event>, n: int, me: Id, a: Addr, id: Id) {
    exists j, k :: Answers(h, j, k, me, a, id) && k < n
  }

  ghost predicate Pending(s: Socket, r: Ref) { r in s.peers && s.peers[r].reestablishing }

  /** A pending attempt is on record and still unanswered. */
  ghost predicate Open(s: Socket, r: Ref) {
    Pending(s, r) ==>
      var p := s.peers[r];
      && p.cookie < s.nextCookie
      && (exists j :: AttemptAt(s.h, j, p.id, p.cookie))
      && (forall k :: !ConfirmedAt(s.h, k, p.cookie))
  }

  ghost predicate TargetVouched(s: Socket, r: Ref) {
    r in s.peers && s.peers[r].connected ==>
      Vouched(s.h, |s.h|, s.table.me, s.peers[r].target, s.peers[r].id)
  }

  ghost predicate FreshCookies(s: Socket) {
    && (forall k, c | ConfirmedAt(s.h, k, c) :: c < s.nextCookie)
    && (forall k, id, c | AttemptAt(s.h, k, id, c) :: c < s.nextCookie)
  }

  ghost predicate OneReplyEach(h: seq<Event>) {
    forall j, k, c | ConfirmedAt(h, j, c) && ConfirmedAt(h, k, c) :: j == k
  }

  ghost predicate OneAttemptEach(h: seq<Event>) {
    forall j, k, id, id', c | AttemptAt(h, j, id, c) && AttemptAt(h, k, id', c) :: j == k
  }

  ghost predicate DirectsVouched(h: seq<Event>, me: Id) {
    forall k, a, id | DirectAt(h, k, a, id) :: Vouched(h, k, me, a, id)
  }

  ghost predicate CookieInv(s: Socket) {
    && (forall r :: TargetVouched(s, r))
    && (forall r :: Open(s, r))
    && (forall r, q | Pending(s, r) && Pending(s, q) && s.peers[r].cookie == s.peers[q].cookie :: r == q)
    && FreshCookies(s) && OneReplyEach(s.h) && OneAttemptEach(s.h) && DirectsVouched(s.h, s.table.me)
  }

  lemma VouchedGrows(h: seq<Event>, e: Event, n: int, me: Id, a: Addr, id: Id)
    requires Vouched(h, n, me, a, id)
    ensures Vouched(h + [e], n, me, a, id)
  {
    var j, k :| Answers(h, j, k, me, a, id) && k < n;
    assert Answers(h + [e], j, k, me, a, id);
  }

  lemma DirectsGrow(h: seq<Event>, e: Event, me: Id)
    requires DirectsVouched(h, me)
    requires e.Direct? ==> Vouched(h, |h|, me, e.dest, e.id)
    ensures DirectsVouched(h + [e], me)
  {
    forall k, a, id | DirectAt(h + [e], k, a, id) ensures Vouched(h + [e], k, me, a, id) {
      if k < |h| { assert DirectAt(h, k, a, id); }
      VouchedGrows(h, e, k, me, a, id);
    }
  }

  /** One more event: what the history-only parts of the invariant ask of it. */
  lemma HistoryGrows(h: seq<Event>, e: Event)
    requires OneReplyEach(h) && OneAttemptEach(h)
    requires e.Confirmed? ==> forall k :: !ConfirmedAt(h, k, e.reply.cookie)
    requires e.Attempt? ==> forall k, id :: !AttemptAt(h, k, id, e.cookie)
    ensures OneReplyEach(h + [e]) && OneAttemptEach(h + [e])
    ensures forall k, c :: ConfirmedAt(h + [e], k, c) <==>
      ConfirmedAt(h, k, c) || (k == |h| && e.Confirmed? && e.reply.cookie == c)
    ensures forall k, id, c :: AttemptAt(h + [e], k, id, c) <==>
      AttemptAt(h, k, id, c) || (k == |h| && e.Attempt? && e.id == id && e.cookie == c)
  {
    var h' := h + [e];
    assert forall k | 0 <= k < |h| :: h'[k] == h[k];
    assert h'[|h|] == e;
    assert forall k, c :: ConfirmedAt(h', k, c) <==>
      ConfirmedAt(h, k, c) || (k == |h| && e.Confirmed? && e.reply.cookie == c);
    assert forall k, id, c :: AttemptAt(h', k, id, c) <==>
      AttemptAt(h, k, id, c) || (k == |h| && e.Attempt? && e.id == id && e.cookie == c);
  }

  ghost predicate Neutral(e: Event) { !e.Attempt? && !e.Confirmed? }

  lemma TargetsGrow(s: Socket, s': Socket, e: Event)
    requires forall r :: TargetVouched(s, r)
    requires s'.h == s.h + [e] && s'.table.me == s.table.me
    requires forall r | r in s'.peers && s'.peers[r].connected ::
      && r in s.peers && s'.peers[r].target == s.peers[r].target && s'.peers[r].id == s.peers[r].id
      && s.peers[r].connected
    ensures forall r :: TargetVouched(s', r)
  {
    forall r ensures TargetVouched(s', r) {
      if r in s'.peers && s'.peers[r].connected {
        assert TargetVouched(s, r);
        VouchedGrows(s.h, e, |s.h|, s.table.me, s.peers[r].target, s.peers[r].id);
      }
    }
  }

  lemma LogCookie(s: Socket, e: Event)
    requires CookieInv(s) && Neutral(e)
    requires e.Direct? ==> Vouched(s.h, |s.h|, s.table.me, e.dest, e.id)
    ensures CookieInv(Log(s, e))
  {
    var s' := Log(s, e);
    DirectsGrow(s.h, e, s.table.me);
    HistoryGrows(s.h, e);
    TargetsGrow(s, s', e);
    forall r ensures Open(s', r) { assert Open(s, r); }
  }

  /** The socket changes in ways the protocol does not see. */
  ghost predicate Quiet(s: Socket, s': Socket) {
    && s'.h == s.h && s'.nextCookie == s.nextCookie && s'.table.me == s.table.me
    && (forall r | r in s'.peers ::
          if r in s.peers then
            var p, p' := s.peers[r], s'.peers[r];
            && p'.id == p.id && p'.cookie == p.cookie && p'.reestablishing == p.reestablishing
            && (p'.connected ==> p.connected && p'.target == p.target)
          else !s'.peers[r].connected && !s'.peers[r].reestablishing)
  }

  lemma QuietCookie(s: Socket, s': Socket)
    requires CookieInv(s) && Quiet(s, s')
    ensures CookieInv(s')
  {
    forall r ensures TargetVouched(s', r) && Open(s', r) { assert TargetVouched(s, r) && Open(s, r); }
  }

  lemma AttemptCookie(s: Socket, r: Ref, now: int)
    requires CookieInv(s) && r in s.peers
    ensures CookieInv(AttemptReestablish(s, r, now))
  {
    var s' := AttemptReestablish(s, r, now);
    var e := Attempt(s.peers[r].id, s.nextCookie, Candidates(s.peers[r]));
    assert s'.h == s.h + [e];
    DirectsGrow(s.h, e, s.table.me);
    HistoryGrows(s.h, e);
    TargetsGrow(s, s', e);
    forall q ensures Open(s', q) {
      assert Open(s, q);
      if q == r { assert AttemptAt(s'.h, |s.h|, s.peers[r].id, s.nextCookie); }
    }
    forall p, q | Pending(s', p) && Pending(s', q) && s'.peers[p].cookie == s'.peers[q].cookie ensures p == q {
      assert Open(s, p) && Open(s, q);
      assert p != r ==> Pending(s, p);
      assert q != r ==> Pending(s, q);
    }
  }

  lemma ConfirmCookie(s: Socket, r: Ref, source: Addr, m: Signed)
    requires CookieInv(s) && Pending(s, r)
    requires s.peers[r].cookie == m.cookie && m.myId == s.peers[r].id && m.yourId == s.table.me
    ensures var p := s.peers[r].(
        target := source, connected := true, failedEstablishments := 0, reestablishing := false);
      CookieInv(Log(Set(s, r, p), Confirmed(source, m)))
  {
    var p := s.peers[r].(target := source, connected := true, failedEstablishments := 0, reestablishing := false);
    var e := Confirmed(source, m);
    var s' := Log(Set(s, r, p), e);
    assert Open(s, r);
    DirectsGrow(s.h, e, s.table.me);
    HistoryGrows(s.h, e);
    forall q ensures TargetVouched(s', q) {
      if q == r {
        var j :| AttemptAt(s.h, j, m.myId, m.cookie);
        assert Answers(s'.h, j, |s.h|, s.table.me, source, m.myId);
      } else if q in s.peers && s.peers[q].connected {
        assert TargetVouched(s, q);
        VouchedGrows(s.h, e, |s.h|, s.table.me, s.peers[q].target, s.peers[q].id);
      }
    }
    forall q ensures Open(s', q) { assert Open(s, q); }
  }

  lemma LookupCookie(s: Socket, id: Id, create: bool, allowed: bool)
    requires WellFormed(s) && CookieInv(s)
    ensures CookieInv(Lookup(s, id, create, allowed).0)
  {
    LookupKnown(s, id, create, allowed);
    QuietCookie(s, Lookup(s, id, create, allowed).0);
  }

  lemma AdoptCookie(s: Socket, r: Ref, source: Addr, now: int)
    requires CookieInv(s) && r in s.peers
    ensures CookieInv(AdoptLinkLocal(s, r, source, now))
  {
    var s' := Set(s, r, s.peers[r].(linkLocal := source));
    QuietCookie(s, s');
    AttemptCookie(s', r, now);
  }

  lemma HelloCookie(s: Socket, source: Addr, m: Signed, allowed: bool, victim: Addr, now: int)
    requires WellFormed(s) && CookieInv(s)
    ensures CookieInv(HelloReceived(s, source, m, allowed, victim, now))
  {
    LookupKnown(s, m.myId, true, allowed);
    LookupCookie(s, m.myId, true, allowed);
    var (s1, found) := Lookup(s, m.myId, true, allowed);
    if m.yourId == s.table.me && found {
      var r := RefOf(s1, m.myId);
      var s2 := AddSource(s1, r, source, victim);
      AddSourceFrame(s1, r, source, victim);
      QuietCookie(s1, s2);
      var s3 := Log(s2, Hello(source, r, m.myId));
      LogCookie(s2, Hello(source, r, m.myId));
      AdoptCookie(s3, r, source, now);
      LogCookie(AdoptLinkLocal(s3, r, source, now), Replied(source, m.myId, m.cookie));
    }
  }

  lemma ReplyCookie(s: Socket, source: Addr, m: Signed, allowed: bool)
    requires WellFormed(s) && CookieInv(s)
    ensures CookieInv(HelloReplyReceived(s, source, m, allowed))
  {
    LookupKnown(s, m.myId, false, allowed);
    LookupCookie(s, m.myId, false, allowed);
    var (s1, found) := Lookup(s, m.myId, false, allowed);
    if m.yourId == s.table.me && found {
      var r := RefOf(s1, m.myId);
      if Pending(s1, r) && s1.peers[r].cookie == m.cookie { ConfirmCookie(s1, r, source, m); }
    }
  }

  lemma SendCookie(s: Socket, r: Ref, data: seq<byte>, now: int)
    requires CookieInv(s) && r in s.peers
    ensures CookieInv(SendDataToPeer(s, r, data, now))
  {
    var p := s.peers[r];
    var e := if p.connected then Direct(p.target, p.id, data) else Relayed(p.id, data);
    AttemptCookie(s, r, now);
    assert TargetVouched(s, r);
    var s0 := if p.connected then s
              else if !p.reestablishing
                     || (&& now - p.lastReestablish > REESTABLISH_TIMEOUT
                         && p.failedEstablishments <= MAX_FAILED_ESTABLISHMENTS)
              then AttemptReestablish(s, r, now) else s;
    LogCookie(s0, e);
    QuietCookie(Log(s0, e), SendDataToPeer(s, r, data, now));
  }

  /** A changed peer record that keeps id, cookie and attempt, then an attempt. */
  lemma RetargetCookie(s: Socket, r: Ref, p: Peer, now: int)
    requires CookieInv(s) && r in s.peers && Quiet(s, Set(s, r, p))
    ensures CookieInv(AttemptReestablish(Set(s, r, p), r, now))
  {
    QuietCookie(s, Set(s, r, p));
    AttemptCookie(Set(s, r, p), r, now);
  }

  lemma PeriodicCookie(s: Socket, r: Ref, expired: bool, now: int)
    requires CookieInv(s) && r in s.peers
    ensures CookieInv(PeriodicPeer(s, r, expired, now))
  {
    var p := s.peers[r];
    QuietCookie(s, Set(s, r, p.(connected := false)));
    RetargetCookie(s, r, p.(connected := false), now);
    RetargetCookie(s, r, p, now);
  }

  lemma TargetsCookie(s: Socket, id: Id, addrs: multiset<Addr>, allowed: bool, now: int)
    requires WellFormed(s) && CookieInv(s)
    ensures CookieInv(TargetsReceived(s, id, addrs, allowed, now))
  {
    LookupCookie(s, id, false, allowed);
    LookupKnown(s, id, false, allowed);
    var (s1, found) := Lookup(s, id, false, allowed);
    if found { RetargetCookie(s1, RefOf(s1, id), s1.peers[RefOf(s1, id)].(targets := addrs), now); }
  }

  lemma AnnouncedCookie(s: Socket, id: Id, a: Addr, allowed: bool, now: int)
    requires WellFormed(s) && CookieInv(s)
    ensures CookieInv(Announced(s, id, a, allowed, now))
  {
    LookupCookie(s, id, false, allowed);
    LookupKnown(s, id, false, allowed);
    var (s1, found) := Lookup(s, id, false, allowed);
    if found { RetargetCookie(s1, RefOf(s1, id), s1.peers[RefOf(s1, id)].(linkLocal := a), now); }
  }

  lemma UpperCookie(s: Socket, id: Id, data: seq<byte>, allowed: bool, now: int)
    requires WellFormed(s) && CookieInv(s)
    ensures CookieInv(UpperData(s, id, data, allowed, now))
  {
    LookupCookie(s, id, true, allowed);
    LookupKnown(s, id, true, allowed);
    var (s1, found) := Lookup(s, id, true, allowed);
    if found { SendCookie(s1, RefOf(s1, id), data, now); }
  }

  lemma HandleCookie(s: Socket, i: Input)
    requires WellFormed(s) && CookieInv(s)
    ensures CookieInv(Handle(s, i))
  {
    match i
    case GotHello(source, m, allowed, victim, now) => HelloCookie(s, source, m, allowed, victim, now);
    case GotReply(source, m, allowed) => ReplyCookie(s, source, m, allowed);
    case GotData(source, data) =>
      var f := FindBySource(s, source);
      if f.Some? && f.value in s.peers { LogCookie(s, Up(s.peers[f.value].id, data)); }
    case Send(id, data, allowed, now) => UpperCookie(s, id, data, allowed, now);
    case Periodic(r, expired, now) => if r in s.peers { PeriodicCookie(s, r, expired, now); }
    case GotTargets(id, addrs, allowed, now) => TargetsCookie(s, id, addrs, allowed, now);
    case GotAnnouncement(id, a, allowed, now) => AnnouncedCookie(s, id, a, allowed, now);
    case Find(id, create, allowed) => LookupCookie(s, id, create, allowed);
  }
}
