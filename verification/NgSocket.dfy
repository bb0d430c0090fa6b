/** NgSocket: which peer a source address belongs to, and when data goes directly to a peer. */
module NgSocket {
  import opened Prelude
  import T = PeerTable

  const MAX_SOURCE_ADDRESSES: nat := 5
  const MAX_FAILED_ESTABLISHMENTS := 5
  const REESTABLISH_TIMEOUT := 3000
  const TEARDOWN_TIMEOUT := 120000

  /** InetAddress. The 16 address bytes are one big-endian number. */
  datatype Addr = Addr(ip: nat, port: nat)

  function TopWord(ip: nat): nat { ip / 0x1_0000_0000_0000_0000_0000_0000_0000 }

  predicate IsFC94(ip: nat) { TopWord(ip) == 0xfc94 }
  predicate IsMappedV4(ip: nat) { ip / 0x1_0000_0000 == 0xffff }
  predicate IsLinkLocal(ip: nat) {
    if IsMappedV4(ip) then ip / 0x1_0000 % 0x1_0000 == 0xa9fe else TopWord(ip) == 0xfe80
  }
  predicate IsSet(a: Addr) { TopWord(a.ip) != 0x3fff }

  function NoAddr(): Addr { Addr(UNSET, 0) }

  /** A Peer object is known by its reference; two objects may carry the same id. */
  type Ref = nat

  datatype Peer = Peer(
    id: Id, connected: bool, reestablishing: bool, failedEstablishments: nat,
    lastPacket: int, lastReestablish: int, cookie: nat,
    target: Addr, targets: multiset<Addr>, linkLocal: Addr, sources: set<Addr>)

  function NewPeer(id: Id): Peer { Peer(id, false, false, 0, 0, 0, 0, NoAddr(), multiset{}, NoAddr(), {}) }

  /** A HELLO or HELLO_REPLY that parsePeerToPeerMessage accepted: signed by the key behind myId. */
  datatype Signed = Signed(myId: Id, yourId: Id, cookie: nat)

  /** What happens at the node. `Attempt`: a fresh cookie goes out to these addresses (the datagrams'
      order is not recorded). `Hello`: a HELLO was credited to a peer object. `Confirmed`: a reply
      was accepted. `Direct` and `Relayed`: a data packet left. */
  datatype Event =
    | Attempt(id: Id, cookie: nat, dests: set<Addr>)
    | Hello(source: Addr, ref: Ref, id: Id)
    | Replied(source: Addr, id: Id, cookie: nat)
    | Confirmed(source: Addr, reply: Signed)
    | Direct(dest: Addr, id: Id, data: seq<byte>)
    | Relayed(id: Id, data: seq<byte>)
    | Up(id: Id, data: seq<byte>)

  datatype Socket = Socket(
    table: T.Table<Ref>, peers: map<Ref, Peer>, index: map<Addr, Ref>, nextCookie: nat, h: seq<Event>)

  function Boot(me: Id): Socket { Socket(T.Table(me, map[], None), map[], map[], 0, []) }

  function Log(s: Socket, e: Event): Socket { s.(h := s.h + [e]) }

  function Set(s: Socket, r: Ref, p: Peer): Socket { s.(peers := s.peers[r := p]) }

  /** The container knows this object. */
  ghost predicate Known(s: Socket, id: Id, r: Ref) { r in s.peers && s.peers[r].id == id }

  ghost predicate WellFormed(s: Socket) {
    && T.WellFormed(s.table)
    && (forall id | id in s.table.peers :: Known(s, id, s.table.peers[id]))
    && (forall r | r in s.peers :: r < |s.peers|)
  }

  /** getPeer or getOrCreatePeer. A new object gets the next free reference. */
  function Lookup(s: Socket, id: Id, create: bool, allowed: bool): (r: (Socket, bool))
    ensures r.0.table.me == s.table.me
  {
    var got := T.Get(s.table, id, allowed);
    if got.present || !create then (s.(table := got.table), got.present)
    else if !allowed then (s, false)
    else
      var r := |s.peers|;
      (s.(table := s.table.(peers := s.table.peers[id := r]), peers := s.peers[r := NewPeer(id)]), true)
  }

  function RefOf(s: Socket, id: Id): Ref
    requires id in s.table.peers
  {
    s.table.peers[id]
  }

  // ---- the source address index ----

  function RemoveSource(s: Socket, r: Ref, a: Addr): Socket
    requires r in s.peers
  {
    Set(s, r, s.peers[r].(sources := s.peers[r].sources - {a})).(index := s.index - {a})
  }

  predicate Full(p: Peer, a: Addr) { a !in p.sources && |p.sources| >= MAX_SOURCE_ADDRESSES }

  /** The new address joins r's set, leaves the set it was in before, and is indexed under r. */
  function InsertSource(s: Socket, r: Ref, a: Addr): Socket
    requires r in s.peers
  {
    var s1 := Set(s, r, s.peers[r].(sources := s.peers[r].sources + {a}));
    var s2 := if a in s1.index && s1.index[a] in s1.peers
              then Set(s1, s1.index[a], s1.peers[s1.index[a]].(sources := s1.peers[s1.index[a]].sources - {a}))
              else s1;
    s2.(index := s2.index[a := r])
  }

  /** addSourceAddress; `victim` is the random choice among the old addresses when the set is full. */
  function AddSource(s: Socket, r: Ref, a: Addr, victim: Addr): (s': Socket)
    requires r in s.peers
    ensures s'.table.me == s.table.me
  {
    if a in s.peers[r].sources then s
    else InsertSource(if Full(s.peers[r], a) then RemoveSource(s, r, victim) else s, r, a)
  }

  function FindBySource(s: Socket, a: Addr): Option<Ref> {
    if a in s.index then Some(s.index[a]) else None
  }

  // ---- connecting ----

  predicate IsActive(p: Peer, now: int) { now - p.lastPacket < TEARDOWN_TIMEOUT }

  function Candidates(p: Peer): set<Addr> {
    var all := (set a | a in p.targets) + (if IsSet(p.linkLocal) then {p.linkLocal} else {}) + p.sources;
    set a | a in all && !IsFC94(a.ip)
  }

  function AttemptReestablish(s: Socket, r: Ref, now: int): (s': Socket)
    requires r in s.peers
    ensures s'.table.me == s.table.me
  {
    var p := s.peers[r];
    var c := s.nextCookie;
    var p' := p.(failedEstablishments := p.failedEstablishments + 1, lastReestablish := now,
                 reestablishing := true, cookie := c);
    Log(Set(s, r, p').(nextCookie := c + 1), Attempt(p.id, c, Candidates(p)))
  }

  /** A HELLO from a link-local source fills in a missing link-local address. */
  function AdoptLinkLocal(s: Socket, r: Ref, source: Addr, now: int): (s': Socket)
    requires r in s.peers
    ensures s'.table.me == s.table.me
  {
    if !IsLinkLocal(source.ip) || IsSet(s.peers[r].linkLocal) then s
    else
      var s' := Set(s, r, s.peers[r].(linkLocal := source));
      if IsActive(s'.peers[r], now) then AttemptReestablish(s', r, now) else s'
  }

  function HelloReceived(s: Socket, source: Addr, m: Signed, allowed: bool, victim: Addr, now: int): (s': Socket)
    requires WellFormed(s)
    ensures s'.table.me == s.table.me
  {
    if m.yourId != s.table.me then s
    else
      var (s1, found) := Lookup(s, m.myId, true, allowed);
      if !found then s1
      else
        LookupKnown(s, m.myId, true, allowed);
        var r := RefOf(s1, m.myId);
        var s2 := Log(AddSource(s1, r, source, victim), Hello(source, r, m.myId));
        Log(AdoptLinkLocal(s2, r, source, now), Replied(source, m.myId, m.cookie))
  }

  function HelloReplyReceived(s: Socket, source: Addr, m: Signed, allowed: bool): (s': Socket)
    requires WellFormed(s)
    ensures s'.table.me == s.table.me
  {
    if m.yourId != s.table.me then s
    else
      var (s1, found) := Lookup(s, m.myId, false, allowed);
      if !found then s1
      else
        LookupKnown(s, m.myId, false, allowed);
        var r := RefOf(s1, m.myId);
        var p := s1.peers[r];
        if !p.reestablishing || p.cookie != m.cookie then s1
        else
          Log(Set(s1, r, p.(target := source, connected := true, failedEstablishments := 0, reestablishing := false)),
              Confirmed(source, m))
  }

  /** periodicPeer; `expired` says whether the session with the peer has just timed out. */
  function PeriodicPeer(s: Socket, r: Ref, expired: bool, now: int): (s': Socket)
    requires r in s.peers
    ensures s'.table.me == s.table.me
  {
    var p := s.peers[r];
    if expired || !IsActive(p, now) then Set(s, r, p.(connected := false))
    else
      var p' := if p.reestablishing && p.connected && now - p.lastReestablish > REESTABLISH_TIMEOUT
                then p.(connected := false) else p;
      AttemptReestablish(Set(s, r, p'), r, now)
  }

  function SendDataToPeer(s: Socket, r: Ref, data: seq<byte>, now: int): (s': Socket)
    requires r in s.peers
    ensures s'.table.me == s.table.me
  {
    var p := s.peers[r];
    var s1 :=
      if p.connected then Log(s, Direct(p.target, p.id, data))
      else
        var s2 := if !p.reestablishing
                     || (&& now - p.lastReestablish > REESTABLISH_TIMEOUT
                         && p.failedEstablishments <= MAX_FAILED_ESTABLISHMENTS)
                  then AttemptReestablish(s, r, now) else s;
        Log(s2, Relayed(p.id, data));
    Set(s1, r, s1.peers[r].(lastPacket := now))
  }

  /** onUpperLayerData */
  function UpperData(s: Socket, id: Id, data: seq<byte>, allowed: bool, now: int): (s': Socket)
    requires WellFormed(s)
    ensures s'.table.me == s.table.me
  {
    var (s1, found) := Lookup(s, id, true, allowed);
    if !found then s1
    else
      LookupKnown(s, id, true, allowed);
      SendDataToPeer(s1, RefOf(s1, id), data, now)
  }

  function DataReceived(s: Socket, source: Addr, data: seq<byte>): (s': Socket)
    ensures s'.table.me == s.table.me
  {
    var f := FindBySource(s, source);
    if f.Some? && f.value in s.peers then Log(s, Up(s.peers[f.value].id, data)) else s
  }

  /** changePeerTargetAddresses, after DEVICE_ADDRESSES from the base server. */
  function TargetsReceived(s: Socket, id: Id, addrs: multiset<Addr>, allowed: bool, now: int): (s': Socket)
    requires WellFormed(s)
    ensures s'.table.me == s.table.me
  {
    var (s1, found) := Lookup(s, id, false, allowed);
    if !found then s1
    else
      LookupKnown(s, id, false, allowed);
      var r := RefOf(s1, id);
      if s1.peers[r].targets == addrs then s1
      else AttemptReestablish(Set(s1, r, s1.peers[r].(targets := addrs)), r, now)
  }

  /** multicastPacketReceived, once the packet has been recognised as a local announcement. */
  function Announced(s: Socket, id: Id, a: Addr, allowed: bool, now: int): (s': Socket)
    requires WellFormed(s)
    ensures s'.table.me == s.table.me
  {
    if id == s.table.me then s
    else
      var (s1, found) := Lookup(s, id, false, allowed);
      if !found then s1
      else
        LookupKnown(s, id, false, allowed);
        var r := RefOf(s1, id);
        if s1.peers[r].linkLocal == a then s1
        else AttemptReestablish(Set(s1, r, s1.peers[r].(linkLocal := a)), r, now)
  }

  datatype Input =
    | GotHello(source: Addr, msg: Signed, allowed: bool, victim: Addr, now: int)
    | GotReply(source: Addr, msg: Signed, allowed: bool)
    | GotData(source: Addr, data: seq<byte>)
    | Send(id: Id, data: seq<byte>, allowed: bool, now: int)
    | Periodic(ref: Ref, expired: bool, now: int)
    | GotTargets(id: Id, addrs: multiset<Addr>, allowed: bool, now: int)
    | GotAnnouncement(id: Id, addr: Addr, allowed: bool, now: int)
    | Find(id: Id, create: bool, allowed: bool)

  function Handle(s: Socket, i: Input): (s': Socket)
    requires WellFormed(s)
    ensures s'.table.me == s.table.me
  {
    match i
    case GotHello(source, m, allowed, victim, now) => HelloReceived(s, source, m, allowed, victim, now)
    case GotReply(source, m, allowed) => HelloReplyReceived(s, source, m, allowed)
    case GotData(source, data) => DataReceived(s, source, data)
    case Send(id, data, allowed, now) => UpperData(s, id, data, allowed, now)
    case Periodic(r, expired, now) => if r in s.peers then PeriodicPeer(s, r, expired, now) else s
    case GotTargets(id, addrs, allowed, now) => TargetsReceived(s, id, addrs, allowed, now)
    case GotAnnouncement(id, a, allowed, now) => Announced(s, id, a, allowed, now)
    case Find(id, create, allowed) => Lookup(s, id, create, allowed).0
  }

  lemma LookupKnown(s: Socket, id: Id, create: bool, allowed: bool)
    requires WellFormed(s)
    ensures var (s', found) := Lookup(s, id, create, allowed);
      && WellFormed(s') && s'.h == s.h && s'.index == s.index && s'.nextCookie == s.nextCookie
      && s'.table.me == s.table.me
      && (found ==> id in s'.table.peers && Known(s', id, s'.table.peers[id]))
      && (forall r | r in s.peers :: r in s'.peers && s'.peers[r] == s.peers[r])
      && (forall r | r in s'.peers && r !in s.peers :: s'.peers[r] == NewPeer(id))
  {
    var s' := Lookup(s, id, create, allowed).0;
    if s'.peers != s.peers { assert s'.peers.Keys == s.peers.Keys + {|s.peers|}; }
  }
}
