/** Symbolic cryptography and messages of the security layer.
    A key-exchange secret is named by who generated it, for which peer, and in which generation,
    so two distinct generations never share a name. Keys are terms: equal only if built alike. */
module SessionTerms {
  import opened Prelude

  /** helloseq and the flags are 64-bit unsigned. */
  const U64: nat := 0x1_0000_0000_0000_0000

  function Wrap64(x: nat): nat { x % 0x1_0000_0000_0000_0000 }

  datatype KxPub = KxPub(owner: Id, peer: Id, gen: nat) | WeakPoint

  /** crypto_kx derives two keys from one exchange: one per direction. mixFlags hashes two flag words in. */
  datatype Key =
    | ZeroKey
    | SessionKey(client: KxPub, server: KxPub, toClient: bool)
    | MixedKey(base: Key, senderFlags: nat, receiverFlags: nat)

  /** An Ed25519 public key: either it hashes to a device id, or pubkeyToDeviceId rejects it. */
  datatype PubKey = PubKey(id: Id) | UnusablePubKey(n: nat)

  function DeviceId(pk: PubKey): Id {
    match pk case PubKey(id) => id case UnusablePubKey(_) => UNSET
  }

  /** The signed part of a hello packet. `flags == None` is the short form without a flag word. */
  datatype HelloBody = HelloBody(
    num: nat, pub: PubKey, kx: KxPub, target: Id, helloseq: nat, echo: nat, flags: Option<nat>)

  datatype Signature = Signature(signer: PubKey, body: HelloBody) | BadSignature

  predicate Verifies(pk: PubKey, body: HelloBody, sig: Signature) {
    sig == Signature(pk, body)
  }

  /** `Other` is anything whose first byte or length no handler accepts. */
  datatype Packet =
    | Data(nonce: nat, key: Key, plain: seq<byte>)
    | Hello(body: HelloBody, sig: Signature)
    | Heartbeat(isReply: bool, ident: nat)
    | Other(size: nat)

  function PacketSize(p: Packet): nat {
    match p
    case Data(_, _, plain) => 1 + 24 + 16 + |plain|
    case Hello(body, _) => if body.flags.Some? then 169 else 161
    case Heartbeat(_, _) => 9
    case Other(size) => size
  }

  /** The base of a key, below any flag mixing. */
  function Base(k: Key): (b: Key)
    ensures !b.MixedKey?
  {
    if k.MixedKey? then Base(k.base) else k
  }

  /** The key is derived from a secret that `owner` generated for `peer`. */
  predicate DerivedFrom(k: Key, owner: Id, peer: Id) {
    var b := Base(k);
    && b.SessionKey?
    && ((b.client.KxPub? && b.client.owner == owner && b.client.peer == peer)
        || (b.server.KxPub? && b.server.owner == owner && b.server.peer == peer))
  }

  /** crypto_kx roles. The device with the larger id calls the client function. */
  function KxRx(me: Id, peer: Id, mine: KxPub, theirs: KxPub): Key {
    if peer < me then SessionKey(mine, theirs, true) else SessionKey(theirs, mine, false)
  }

  function KxTx(me: Id, peer: Id, mine: KxPub, theirs: KxPub): Key {
    if peer < me then SessionKey(mine, theirs, false) else SessionKey(theirs, mine, true)
  }

  function MixFlags(k: Key, senderFlags: nat, receiverFlags: nat): Key {
    MixedKey(k, senderFlags, receiverFlags)
  }

  function Zeros(): (z: seq<byte>)
    ensures |z| == 8
  {
    [0, 0, 0, 0, 0, 0, 0, 0]
  }
}
