/** The peer table of PeerContainer: a map of peers, a one-entry cache and an allow-list that
    may change between any two calls. The element type is a parameter: the class below stores
    references to Peer objects, the security layer stores the peers' state. */
module PeerTable {
  import opened Prelude

  /** `cache == None` is the initial cache, whose id is the unset address and whose pointer is null. */
  datatype Table<P> = Table(me: Id, peers: map<Id, P>, cache: Option<Id>)

  datatype Found<P> = Found(table: Table<P>, present: bool)

  ghost predicate WellFormed<P>(t: Table<P>) {
    t.cache.Some? ==> t.cache.value in t.peers && t.cache.value != t.me
  }

  /** getPeer: the cache is consulted before the allow-list. */
  function Get<P>(t: Table<P>, id: Id, allowed: bool): (r: Found<P>)
  {
    if t.cache == Some(id) then Found(t, true)
    else if t.cache.None? && id == UNSET then Found(t, false)
    else if id == t.me || !allowed || id !in t.peers then Found(t, false)
    else Found(t.(cache := Some(id)), true)
  }

  /** createPeer: an allowed id always gets a new peer, replacing any earlier one. */
  function Create<P>(t: Table<P>, id: Id, allowed: bool, newPeer: P): (r: Found<P>)
  {
    if allowed then Found(t.(peers := t.peers[id := newPeer]), true) else Found(t, false)
  }

  function GetOrCreate<P>(t: Table<P>, id: Id, allowed: bool, newPeer: P): (r: Found<P>)
  {
    var got := Get(t, id, allowed);
    if got.present then got else Create(got.table, id, allowed, newPeer)
  }

  /** Ids whose peer is stable: not the node's own id and not the unset address. */
  predicate Ordinary(me: Id, id: Id) { id != me && id != UNSET }

  /** When getOrCreatePeer replaces a peer that already exists. */
  predicate Replaces<P>(t: Table<P>, id: Id, allowed: bool) {
    && allowed && id in t.peers
    && (id == t.me || (id == UNSET && t.cache.None?))
  }

  /** What one lookup does to the table: the peer under an ordinary id is created at most once and
      never changes afterwards; an existing peer is lost exactly when `Replaces` holds. */
  lemma GetOrCreateFrame<P>(t: Table<P>, id: Id, allowed: bool, newPeer: P)
    requires WellFormed(t)
    ensures var r := GetOrCreate(t, id, allowed, newPeer);
      && WellFormed(r.table) && r.table.me == t.me
      && (r.present ==> id in r.table.peers)
      && r.table.peers.Keys == (if r.present then t.peers.Keys + {id} else t.peers.Keys)
      && (forall p | p in t.peers && (p != id || !Replaces(t, id, allowed)) :: r.table.peers[p] == t.peers[p])
      && (r.present && id !in t.peers ==> r.table.peers[id] == newPeer)
      && (Replaces(t, id, allowed) ==> r.present && r.table.peers[id] == newPeer)
      && (Replaces(t, id, allowed) ==> !Ordinary(t.me, id))
  {
  }

  // ---- whole runs ----

  /** One call: getPeer when `create` is false, getOrCreatePeer otherwise. `allowed` is what the
      allow-list answers at that moment, `newPeer` the object that a creation would allocate. */
  datatype Request<P> = Request(id: Id, create: bool, allowed: bool, newPeer: P)

  datatype Outcome<P> = Outcome(peer: Option<P>, created: bool)

  function Apply<P>(t: Table<P>, q: Request<P>): (r: Found<P>)
  {
    if q.create then GetOrCreate(t, q.id, q.allowed, q.newPeer) else Get(t, q.id, q.allowed)
  }

  function OutcomeOf<P>(t: Table<P>, q: Request<P>): (o: Outcome<P>)
    requires WellFormed(t)
  {
    GetOrCreateFrame(t, q.id, q.allowed, q.newPeer);
    var r := Apply(t, q);
    if r.present then Outcome(Some(r.table.peers[q.id]), !Get(t, q.id, q.allowed).present)
    else Outcome(None, false)
  }

  function Outcomes<P>(t: Table<P>, qs: seq<Request<P>>): (os: seq<Outcome<P>>)
    requires WellFormed(t)
    ensures |os| == |qs|
    decreases |qs|
  {
    if qs == [] then []
    else
      GetOrCreateFrame(t, qs[0].id, qs[0].allowed, qs[0].newPeer);
      [OutcomeOf(t, qs[0])] + Outcomes(Apply(t, qs[0]).table, qs[1..])
  }

  /** Once an ordinary id has a peer, every later call on it returns that peer or null, and creates none. */
  lemma {:induction false} KnownPeerIsStable<P>(t: Table<P>, qs: seq<Request<P>>, id: Id, i: nat)
    requires WellFormed(t) && Ordinary(t.me, id) && id in t.peers
    requires i < |qs| && qs[i].id == id
    ensures var o := Outcomes(t, qs)[i]; !o.created && (o.peer == None || o.peer == Some(t.peers[id]))
    decreases |qs|
  {
    GetOrCreateFrame(t, qs[0].id, qs[0].allowed, qs[0].newPeer);
    if i > 0 {
      KnownPeerIsStable(Apply(t, qs[0]).table, qs[1..], id, i - 1);
    }
  }

  /** Over every run from any well-formed table, and whatever the allow-list answers: all non-null
      lookups of an ordinary id return one and the same peer, and at most one call creates a peer for it. */
  lemma {:induction false} OnePeerPerId<P>(t: Table<P>, qs: seq<Request<P>>, id: Id, i: nat, j: nat)
    requires WellFormed(t) && Ordinary(t.me, id)
    requires i < j < |qs| && qs[i].id == qs[j].id == id
    ensures var os := Outcomes(t, qs);
      && (os[i].peer.Some? && os[j].peer.Some? ==> os[i].peer == os[j].peer)
      && (os[i].peer.Some? ==> !os[j].created)
      && !(os[i].created && os[j].created)
    decreases |qs|
  {
    GetOrCreateFrame(t, qs[0].id, qs[0].allowed, qs[0].newPeer);
    var t' := Apply(t, qs[0]).table;
    if i > 0 {
      OnePeerPerId(t', qs[1..], id, i - 1, j - 1);
    } else if OutcomeOf(t, qs[0]).peer.Some? {
      KnownPeerIsStable(t', qs[1..], id, j - 1);
    }
  }

  /** The node's own id is outside that guarantee: whenever it is allowed, every getOrCreatePeer
      on it creates yet another peer, after any run. */
  lemma {:induction false} OwnIdIsRecreated<P>(t: Table<P>, qs: seq<Request<P>>, i: nat)
    requires WellFormed(t) && t.me != UNSET
    requires i < |qs| && qs[i].id == t.me && qs[i].create && qs[i].allowed
    ensures Outcomes(t, qs)[i] == Outcome(Some(qs[i].newPeer), true)
    decreases |qs|
  {
    GetOrCreateFrame(t, qs[0].id, qs[0].allowed, qs[0].newPeer);
    if i > 0 {
      OwnIdIsRecreated(Apply(t, qs[0]).table, qs[1..], i - 1);
    }
  }

  // ---- the allow-list ----

  function TableAfter<P>(t: Table<P>, qs: seq<Request<P>>, i: nat): Table<P>
    requires i <= |qs|
  {
    if i == 0 then t else Apply(TableAfter(t, qs, i - 1), qs[i - 1]).table
  }

  lemma {:induction false} StaysWellFormed<P>(t: Table<P>, qs: seq<Request<P>>, i: nat)
    requires WellFormed(t) && i <= |qs|
    ensures WellFormed(TableAfter(t, qs, i)) && TableAfter(t, qs, i).me == t.me
  {
    if i > 0 {
      StaysWellFormed(t, qs, i - 1);
      var q := qs[i - 1];
      GetOrCreateFrame(TableAfter(t, qs, i - 1), q.id, q.allowed, q.newPeer);
    }
  }

  lemma {:induction false} OneLater<P>(t: Table<P>, qs: seq<Request<P>>, i: nat)
    requires qs != [] && i < |qs|
    ensures TableAfter(t, qs, i + 1) == TableAfter(Apply(t, qs[0]).table, qs[1..], i)
  {
    if i > 0 { OneLater(t, qs, i - 1); }
  }

  lemma {:induction false} OutcomeAt<P>(t: Table<P>, qs: seq<Request<P>>, i: nat)
    requires WellFormed(t) && i < |qs|
    ensures WellFormed(TableAfter(t, qs, i)) && Outcomes(t, qs)[i] == OutcomeOf(TableAfter(t, qs, i), qs[i])
    decreases |qs|
  {
    StaysWellFormed(t, qs, i);
    if i > 0 {
      GetOrCreateFrame(t, qs[0].id, qs[0].allowed, qs[0].newPeer);
      OneLater(t, qs, i - 1);
      OutcomeAt(Apply(t, qs[0]).table, qs[1..], i - 1);
    }
  }

  /** The id of the last call that found an existing peer; what the cache held at the start before that. */
  function LastFound<P>(t: Table<P>, qs: seq<Request<P>>, i: nat): Option<Id>
    requires WellFormed(t) && i <= |qs|
  {
    if i == 0 then t.cache
    else
      var o := Outcomes(t, qs)[i - 1];
      if o.peer.Some? && !o.created then Some(qs[i - 1].id) else LastFound(t, qs, i - 1)
  }

  lemma {:induction false} CacheIsLastFound<P>(t: Table<P>, qs: seq<Request<P>>, i: nat)
    requires WellFormed(t) && i <= |qs|
    ensures TableAfter(t, qs, i).cache == LastFound(t, qs, i)
  {
    if i > 0 {
      CacheIsLastFound(t, qs, i - 1);
      OutcomeAt(t, qs, i - 1);
    }
  }

  /** In every run, a call for an id that the allow-list refuses gives null, except for the one peer found last:
      taking a peer off the list does not reach the cache. A getOrCreatePeer for an allowed id never
      gives null. */
  lemma RefusedIff<P>(t: Table<P>, qs: seq<Request<P>>, i: nat)
    requires WellFormed(t) && i < |qs|
    ensures !qs[i].allowed ==> (Outcomes(t, qs)[i].peer == None <==> LastFound(t, qs, i) != Some(qs[i].id))
    ensures qs[i].allowed && qs[i].create ==> Outcomes(t, qs)[i].peer.Some?
  {
    OutcomeAt(t, qs, i);
    CacheIsLastFound(t, qs, i);
    StaysWellFormed(t, qs, i);
  }
}
