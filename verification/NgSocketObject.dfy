/** NgSocket as the object it is. Each handler is proved equal to the function of module NgSocket of
    the same name, which the run theorems are about. Peer objects live in a map by reference. */
module NgSocketObject {
  import opened Prelude
  import opened NgSocket
  import opened NgSocketRuns
  import opened NgSocketCookies
  import T = PeerTable

  class Node {
    const me: Id
    /** PeerContainer: which object each id has, and the one-entry cache. */
    var table: map<Id, Ref>
    var cachedId: Option<Id>
    var peers: map<Ref, Peer>
    var peerSourceAddresses: map<Addr, Ref>
    var nextCookie: nat
    /** Everything sent or handed to the neighbouring layers, in order. */
    var log: seq<Event>

    ghost function State(): Socket
      reads this
    {
      Socket(T.Table(me, table, cachedId), peers, peerSourceAddresses, nextCookie, log)
    }

    ghost predicate Shaped()
      reads this
    {
      WellFormed(State())
    }

    /** The index is the exact inverse of the source sets, which hold at most five addresses and name the
        most recent sender; every target is vouched for, every pending cookie on record and unanswered. */
    ghost predicate Valid()
      reads this
    {
      IndexInv(State()) && CookieInv(State())
    }

    constructor (me: Id)
      ensures Valid() && State() == Boot(me)
    {
      this.me := me;
      table, cachedId, peers, peerSourceAddresses, nextCookie, log := map[], None, map[], map[], 0, [];
    }

    method GetPeer(id: Id, create: bool, allowed: bool) returns (found: bool, r: Ref)
      requires Shaped()
      modifies this`table, this`cachedId, this`peers
      ensures Shaped() && (State(), found) == Lookup(old(State()), id, create, allowed)
      ensures found ==> id in table && r == table[id] && r in peers && peers[r].id == id
    {
      LookupKnown(State(), id, create, allowed);
      r := 0;
      if cachedId == Some(id) {
        found := true;
      } else if (cachedId.None? && id == UNSET) || id == me || !allowed || id !in table {
        found := create && allowed;
        if found {
          table, peers := table[id := |peers|], peers[|peers| := NewPeer(id)];
        }
      } else {
        found, cachedId := true, Some(id);
      }
      if found {
        r := table[id];
        assert Known(State(), id, r);
      }
    }

    method RemoveSourceAddress(r: Ref, a: Addr)
      requires r in peers
      modifies this`peers, this`peerSourceAddresses
      ensures State() == RemoveSource(old(State()), r, a)
    {
      peers := peers[r := peers[r].(sources := peers[r].sources - {a})];
      peerSourceAddresses := peerSourceAddresses - {a};
    }

    method AddSourceAddress(r: Ref, a: Addr, victim: Addr)
      requires r in peers
      modifies this`peers, this`peerSourceAddresses
      ensures State() == AddSource(old(State()), r, a, victim)
    {
      if a !in peers[r].sources {
        if |peers[r].sources| >= MAX_SOURCE_ADDRESSES {
          RemoveSourceAddress(r, victim);
        }
        peers := peers[r := peers[r].(sources := peers[r].sources + {a})];
        if a in peerSourceAddresses && peerSourceAddresses[a] in peers {
          var last := peerSourceAddresses[a];
          peers := peers[last := peers[last].(sources := peers[last].sources - {a})];
        }
        peerSourceAddresses := peerSourceAddresses[a := r];
      }
    }

    method FindPeerBySourceAddress(a: Addr) returns (f: Option<Ref>)
      ensures f == FindBySource(State(), a)
    {
      f := if a in peerSourceAddresses then Some(peerSourceAddresses[a]) else None;
    }

    method AttemptToReestablish(r: Ref, now: int)
      requires r in peers
      modifies this`peers, this`nextCookie, this`log
      ensures State() == AttemptReestablish(old(State()), r, now)
    {
      var p := peers[r];
      peers := peers[r := p.(failedEstablishments := p.failedEstablishments + 1, lastReestablish := now,
                             reestablishing := true, cookie := nextCookie)];
      var all := (set a | a in p.targets) + p.sources;
      if IsSet(p.linkLocal) {
        all := all + {p.linkLocal};
      }
      var todo, dests := all, {};
      while todo != {}
        invariant todo <= all
        invariant dests == set a | a in all - todo && !IsFC94(a.ip)
      {
        var a :| a in todo;
        if !IsFC94(a.ip) {
          dests := dests + {a};
        }
        todo := todo - {a};
      }
      assert dests == Candidates(p);
      log := log + [Attempt(p.id, nextCookie, dests)];
      nextCookie := nextCookie + 1;
    }

    method OnHello(source: Addr, m: Signed, allowed: bool, victim: Addr, now: int)
      requires Shaped()
      modifies this
      ensures State() == HelloReceived(old(State()), source, m, allowed, victim, now)
    {
      if m.yourId != me {
        return;
      }
      var found, r := GetPeer(m.myId, true, allowed);
      if !found {
        return;
      }
      AddSourceAddress(r, source, victim);
      log := log + [Hello(source, r, m.myId)];
      if IsLinkLocal(source.ip) && !IsSet(peers[r].linkLocal) {
        peers := peers[r := peers[r].(linkLocal := source)];
        if IsActive(peers[r], now) {
          AttemptToReestablish(r, now);
        }
      }
      log := log + [Replied(source, m.myId, m.cookie)];
    }

    method OnHelloReply(source: Addr, m: Signed, allowed: bool)
      requires Shaped()
      modifies this
      ensures State() == HelloReplyReceived(old(State()), source, m, allowed)
    {
      if m.yourId != me {
        return;
      }
      var found, r := GetPeer(m.myId, false, allowed);
      if !found || !peers[r].reestablishing || peers[r].cookie != m.cookie {
        return;
      }
      peers := peers[r := peers[r].(target := source, connected := true)];
      peers := peers[r := peers[r].(failedEstablishments := 0, reestablishing := false)];
      log := log + [Confirmed(source, m)];
    }

    method OnPeriodic(r: Ref, expired: bool, now: int)
      requires r in peers
      modifies this
      ensures State() == PeriodicPeer(old(State()), r, expired, now)
    {
      var p := peers[r];
      if expired || !IsActive(p, now) {
        peers := peers[r := p.(connected := false)];
        return;
      }
      peers := peers[r := p];
      if p.reestablishing && p.connected && now - p.lastReestablish > REESTABLISH_TIMEOUT {
        peers := peers[r := p.(connected := false)];
      }
      AttemptToReestablish(r, now);
    }

    method SendToPeer(r: Ref, data: seq<byte>, now: int)
      requires r in peers
      modifies this`peers, this`nextCookie, this`log
      ensures State() == SendDataToPeer(old(State()), r, data, now)
    {
      var p := peers[r];
      if p.connected {
        log := log + [Direct(p.target, p.id, data)];
      } else {
        if !p.reestablishing
           || (now - p.lastReestablish > REESTABLISH_TIMEOUT && p.failedEstablishments <= MAX_FAILED_ESTABLISHMENTS) {
          AttemptToReestablish(r, now);
        }
        log := log + [Relayed(p.id, data)];
      }
      peers := peers[r := peers[r].(lastPacket := now)];
    }

    method OnUpperLayerData(id: Id, data: seq<byte>, allowed: bool, now: int)
      requires Shaped()
      modifies this
      ensures State() == UpperData(old(State()), id, data, allowed, now)
    {
      var found, r := GetPeer(id, true, allowed);
      if found {
        SendToPeer(r, data, now);
      }
    }

    method OnData(source: Addr, data: seq<byte>)
      modifies this`log
      ensures State() == DataReceived(old(State()), source, data)
    {
      var f := FindPeerBySourceAddress(source);
      if f.Some? && f.value in peers {
        log := log + [Up(peers[f.value].id, data)];
      }
    }

    method ChangePeerTargetAddresses(id: Id, addrs: multiset<Addr>, allowed: bool, now: int)
      requires Shaped()
      modifies this
      ensures State() == TargetsReceived(old(State()), id, addrs, allowed, now)
    {
      var found, r := GetPeer(id, false, allowed);
      if found && peers[r].targets != addrs {
        peers := peers[r := peers[r].(targets := addrs)];
        AttemptToReestablish(r, now);
      }
    }

    method OnAnnouncement(id: Id, a: Addr, allowed: bool, now: int)
      requires Shaped()
      modifies this
      ensures State() == Announced(old(State()), id, a, allowed, now)
    {
      if id == me {
        return;
      }
      var found, r := GetPeer(id, false, allowed);
      if found && peers[r].linkLocal != a {
        peers := peers[r := peers[r].(linkLocal := a)];
        AttemptToReestablish(r, now);
      }
    }

    /** Whatever comes in, the handler it goes to keeps the invariants. The random choice in
        addSourceAddress falls on one of the peer's old addresses (Legal). */
    method Step(i: Input)
      requires Valid() && Legal(State(), i)
      modifies this
      ensures Valid() && State() == Handle(old(State()), i)
    {
      ghost var s := State();
      Dispatch(i);
      HandleIndex(s, i);
      HandleCookie(s, i);
    }

    method Dispatch(i: Input)
      requires Shaped()
      modifies this
      ensures State() == Handle(old(State()), i)
    {
      match i {
        case GotHello(source, m, allowed, victim, now) => OnHello(source, m, allowed, victim, now);
        case GotReply(source, m, allowed) => OnHelloReply(source, m, allowed);
        case GotData(source, data) => OnData(source, data);
        case Send(id, data, allowed, now) => OnUpperLayerData(id, data, allowed, now);
        case Periodic(r, expired, now) =>
          if r in peers {
            OnPeriodic(r, expired, now);
          }
        case GotTargets(id, addrs, allowed, now) => ChangePeerTargetAddresses(id, addrs, allowed, now);
        case GotAnnouncement(id, a, allowed, now) => OnAnnouncement(id, a, allowed, now);
        case Find(id, create, allowed) =>
          var _, _ := GetPeer(id, create, allowed);
      }
    }
  }
}
