/** PeerContainer itself, with Peer objects, the cached pointer and the cached id as fields. */
module PeerContainers {
  import opened Prelude
  import T = PeerTable

  /** The fields createPeer fills in: the id and the key-exchange keypair, both fixed for life. */
  class Peer {
    const id: Id
    const kxKeypair: nat

    constructor (id: Id, kxKeypair: nat)
      ensures this.id == id && this.kxKeypair == kxKeypair
    {
      this.id := id;
      this.kxKeypair := kxKeypair;
    }
  }

  class PeerContainer {
    const me: Id
    var peers: map<Id, Peer>
    var cachedPeer: Peer?
    var cachedPeerId: Id

    /** The cached pointer agrees with the map, except before the first cached lookup. */
    ghost predicate Valid()
      reads this
    {
      && (forall id | id in peers :: peers[id].id == id)
      && (cachedPeer == null ==> cachedPeerId == UNSET)
      && (cachedPeer != null ==> cachedPeerId in peers && peers[cachedPeerId] == cachedPeer && cachedPeerId != me)
    }

    ghost function Table(): (t: T.Table<Peer>)
      reads this
    {
      T.Table(me, peers, if cachedPeer == null then None else Some(cachedPeerId))
    }

    constructor (me: Id)
      ensures Valid() && Table() == T.Table(me, map[], None)
    {
      this.me := me;
      peers, cachedPeer, cachedPeerId := map[], null, UNSET;
    }

    /** A direct call on the cached id leaves the cache with the peer it has just replaced. */
    method CreatePeer(id: Id, allowed: bool, kxKeypair: nat) returns (peer: Peer?)
      requires Valid()
      modifies this
      ensures Valid() <==> !(allowed && old(cachedPeer) != null && old(cachedPeerId) == id)
      ensures cachedPeer == old(cachedPeer) && cachedPeerId == old(cachedPeerId)
      ensures peer == null <==> !allowed
      ensures peer != null ==> fresh(peer) && peer.id == id && peer.kxKeypair == kxKeypair
      ensures peer != null ==> Table() == T.Create(old(Table()), id, allowed, peer).table
      ensures peer == null ==> Table() == old(Table())
    {
      if !allowed {
        return null;
      }
      peer := new Peer(id, kxKeypair);
      peers := peers[id := peer];
    }

    method GetPeer(id: Id, allowed: bool) returns (peer: Peer?)
      requires Valid()
      modifies this
      ensures Valid()
      ensures Table() == T.Get(old(Table()), id, allowed).table
      ensures peer != null <==> T.Get(old(Table()), id, allowed).present
      ensures peer != null ==> id in peers && peers[id] == peer && peer.id == id
    {
      if cachedPeerId == id {
        return cachedPeer;
      }
      if id == me || !allowed || id !in peers {
        return null;
      }
      cachedPeerId, cachedPeer := id, peers[id];
      peer := peers[id];
    }

    method GetOrCreatePeer(id: Id, allowed: bool, kxKeypair: nat) returns (peer: Peer?)
      requires Valid()
      modifies this
      ensures Valid()
      ensures peer != null ==> Table() == T.GetOrCreate(old(Table()), id, allowed, peer).table
      ensures peer != null ==> id in peers && peers[id] == peer && peer.id == id
      ensures peer == null ==> !allowed && Table() == old(Table())
      ensures T.Ordinary(me, id) && id in old(peers) && peer != null ==> peer == old(peers[id])
    {
      peer := GetPeer(id, allowed);
      if peer == null {
        peer := CreatePeer(id, allowed, kxKeypair);
      }
    }
  }
}
