/** SecurityLayer as the object it is: fields that the handlers update in place. Each method is proved
    equal to the corresponding function of SecurityNode, which the run theorems are about. */
module SecurityLayerObject {
  import opened Prelude
  import opened SessionTerms
  import N = SecurityNode
  import Q = SessionQueues
  import T = PeerTable

  class SecurityLayer {
    const me: Id
    const myFlags: nat
    var helloseq: nat
    var queuedPackets: int
    var peers: map<Id, N.Peer>
    var cachedId: Option<Id>
    var nonces: nat
    /** Everything handed to the neighbouring layers, and what was handed in, in order. */
    var log: seq<N.Event>

    function State(): N.Ctx
      reads this
    {
      N.Ctx(N.Node(myFlags, helloseq, queuedPackets, T.Table(me, peers, cachedId), nonces), log)
    }

    ghost predicate Shaped()
      reads this
    {
      cachedId.Some? ==> cachedId.value in peers && cachedId.value != me
    }

    /** The queues are in order: see QueuesOk. */
    ghost predicate Valid()
      reads this
    {
      Shaped() && Q.QueuesOk(State())
    }

    constructor (me: Id, myFlags: nat, bootSeq: nat)
      ensures Valid()
      ensures State() == N.Ctx(N.Node(myFlags, bootSeq, 0, T.Table(me, map[], None), 0), [])
    {
      this.me, this.myFlags := me, myFlags;
      helloseq, queuedPackets, peers, cachedId, nonces, log := bootSeq, 0, map[], None, 0, [];
    }

    method GetPeer(id: Id, allowed: bool) returns (found: bool)
      requires Shaped()
      modifies this`cachedId
      ensures Shaped()
      ensures (State(), found) == N.Lookup(old(State()), id, false, allowed)
    {
      if cachedId == Some(id) {
        return true;
      }
      if (cachedId.None? && id == UNSET) || id == me || !allowed || id !in peers {
        return false;
      }
      cachedId := Some(id);
      found := true;
    }

    method CreatePeer(id: Id, allowed: bool) returns (found: bool)
      requires Shaped()
      modifies this`peers
      ensures Shaped() && found == allowed
      ensures peers == if allowed then old(peers)[id := N.NewPeer(old(State()).n, id)] else old(peers)
    {
      if allowed {
        peers := peers[id := N.NewPeer(State().n, id)];
      }
      found := allowed;
    }

    method GetOrCreatePeer(id: Id, allowed: bool) returns (found: bool)
      requires Shaped()
      modifies this`cachedId, this`peers
      ensures Shaped() && (found ==> id in peers)
      ensures (State(), found) == N.Lookup(old(State()), id, true, allowed)
    {
      found := GetPeer(id, allowed);
      if !found {
        found := CreatePeer(id, allowed);
      }
    }

    method SendHelloPacket(id: Id, num: nat, echo: nat)
      requires Shaped() && id in peers
      modifies this`log
      ensures State() == N.SendHello(old(State()), id, num, echo)
    {
      var body := HelloBody(num, PubKey(me), peers[id].kx, id, helloseq, echo, Some(myFlags));
      log := log + [N.Sent(me, id, Hello(body, Signature(PubKey(me), body)))];
    }

    method DoSendDataPacket(id: Id, data: seq<byte>)
      requires Shaped() && id in peers
      modifies this`log, this`nonces
      ensures State() == N.Seal(old(State()), id, data)
    {
      log := log + [N.Sealed(me, id, data)];
      if |data| + 8 >= 2010 {
        return;
      }
      log := log + [N.Sent(me, id, Data(nonces, peers[id].tx, Zeros() + data))];
      nonces := nonces + 1;
    }

    method FinishNegotiation(id: Id)
      requires Shaped() && id in peers
      modifies this`peers, this`queuedPackets, this`log, this`nonces
      ensures Shaped() && id in peers
      ensures State() == N.FinishNegotiation(old(State()), id)
    {
      var queue := peers[id].queue;
      peers := peers[id := peers[id].(negotiated := true)];
      ghost var start := State();
      var i := 0;
      while i < |queue|
        invariant Shaped() && id in peers && peers == start.n.table.peers && cachedId == start.n.table.cache
        invariant helloseq == start.n.helloseq
        invariant 0 <= i <= |queue|
        invariant N.Flush(State(), id, queue[i..]) == N.Flush(start, id, queue)
      {
        queuedPackets := queuedPackets - 1;
        DoSendDataPacket(id, queue[i]);
        assert queue[i..][0] == queue[i] && queue[i..][1..] == queue[i + 1..];
        i := i + 1;
      }
      peers := peers[id := peers[id].(queue := [])];
    }

    method HandleDataPacket(src: Id, pkt: Packet, allowed: bool, now: int)
      requires Shaped() && pkt.Data?
      modifies this
      ensures Shaped() && State() == N.HandleData(old(State()), src, pkt, allowed, now)
    {
      if |pkt.plain| <= 8 {
        return;
      }
      var found := GetOrCreatePeer(src, allowed);
      if !found {
        return;
      }
      if !peers[src].negotiated {
        SendHelloPacket(src, 1, 0);
        return;
      }
      if pkt.key == peers[src].rx {
        peers := peers[src := peers[src].(lastValid := now)];
        log := log + [N.Up(me, src, pkt.plain[8..], pkt)];
      }
    }

    method HandleHelloPacket(src: Id, pkt: Packet, allowed: bool)
      requires Shaped() && pkt.Hello?
      modifies this
      ensures Shaped() && State() == N.HandleHello(old(State()), src, pkt, allowed)
    {
      var found := GetOrCreatePeer(src, allowed);
      if !found || pkt.body.target != me || DeviceId(pkt.body.pub) != src {
        return;
      }
      if !Verifies(pkt.body.pub, pkt.body, pkt.sig) {
        return;
      }
      if pkt.body.num == 1 {
        SendHelloPacket(src, 2, pkt.body.helloseq);
        return;
      }
      if pkt.body.echo != helloseq {
        return;
      }
      AcceptHello(src, pkt);
    }

    method AcceptHello(src: Id, pkt: Packet)
      requires Shaped() && pkt.Hello? && src in peers
      modifies this
      ensures Shaped() && State() == N.AcceptHello(old(State()), src, pkt)
    {
      peers := peers[src := N.DeriveKeys(me, myFlags, src, peers[src], pkt.body)];
      if pkt.body.kx == WeakPoint {
        return;
      }
      FinishNegotiation(src);
      log := log + [N.Accepted(me, src, pkt)];
      helloseq := Wrap64(helloseq + 1);
      if pkt.body.num == 2 {
        SendHelloPacket(src, 3, pkt.body.helloseq);
      }
    }

    method OnLowerLayerData(src: Id, pkt: Packet, allowed: bool, now: int)
      requires Shaped()
      modifies this
      ensures Shaped() && State() == N.OnLower(old(State()), src, pkt, allowed, now)
    {
      if PacketSize(pkt) >= 2000 {
        return;
      }
      match pkt {
        case Data(_, _, _) => HandleDataPacket(src, pkt, allowed, now);
        case Hello(body, _) =>
          if 1 <= body.num <= 3 {
            HandleHelloPacket(src, pkt, allowed);
          }
        case Heartbeat(isReply, ident) =>
          if isReply {
            var _ := GetOrCreatePeer(src, allowed);
          } else {
            log := log + [N.Sent(me, src, Heartbeat(true, ident))];
          }
        case Other(_) =>
      }
    }

    method OnUpperLayerData(dst: Id, data: seq<byte>, allowed: bool)
      requires Shaped() && |data| < 10240
      modifies this
      ensures Shaped() && State() == N.OnUpper(old(State()), dst, data, allowed)
    {
      var found := GetOrCreatePeer(dst, allowed);
      if !found {
        log := log + [N.Down(me, dst, data, false)];
        return;
      }
      if peers[dst].negotiated {
        log := log + [N.Down(me, dst, data, true)];
        DoSendDataPacket(dst, data);
      } else {
        if queuedPackets < N.MAX_QUEUED_PACKETS {
          queuedPackets := queuedPackets + 1;
          peers := peers[dst := peers[dst].(queue := peers[dst].queue + [data])];
          log := log + [N.Down(me, dst, data, true)];
        } else {
          log := log + [N.Down(me, dst, data, false)];
        }
        SendHelloPacket(dst, 1, 0);
      }
    }

    /** The sending half of getLatency. */
    method GetLatency(id: Id, ident: nat, allowed: bool)
      requires Shaped()
      modifies this
      ensures Shaped() && State() == N.Probe(old(State()), id, ident, allowed)
    {
      var found := GetOrCreatePeer(id, allowed);
      if found {
        log := log + [N.Sent(me, id, Heartbeat(false, ident))];
      }
    }

    /** The session part of NgSocket::periodicPeer. */
    method PeriodicPeer(id: Id, now: int)
      requires Shaped()
      modifies this`peers
      ensures Shaped() && State() == N.Expire(old(State()), id, now)
    {
      if id in peers && peers[id].negotiated && peers[id].lastValid < now - N.RENEGOTIATION_TIMEOUT {
        peers := peers[id := peers[id].(negotiated := false)];
      }
    }

    /** Whatever comes in, the handler it goes to keeps the queues in order. */
    method Step(i: N.Input)
      requires Valid() && (i.FromUpper? ==> |i.data| < 10240)
      modifies this
      ensures Valid() && State() == N.Handle(old(State()), i)
    {
      ghost var c := State();
      Dispatch(i);
      Q.QueuesStep(c, i);
    }

    method Dispatch(i: N.Input)
      requires Shaped() && (i.FromUpper? ==> |i.data| < 10240)
      modifies this
      ensures Shaped() && State() == N.Handle(old(State()), i)
    {
      match i {
        case FromLower(src, pkt, allowed, now) => OnLowerLayerData(src, pkt, allowed, now);
        case FromUpper(dst, data, allowed) => OnUpperLayerData(dst, data, allowed);
        case Find(id, create, allowed) =>
          if create {
            var _ := GetOrCreatePeer(id, allowed);
          } else {
            var _ := GetPeer(id, allowed);
          }
        case Latency(id, ident, allowed) => GetLatency(id, ident, allowed);
        case Periodic(id, now) => PeriodicPeer(id, now);
      }
    }
  }
}
