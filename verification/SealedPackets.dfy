/** Data packets of the security layer as bytes: a zero, the nonce, the sealed box. */
module SealedPackets {
  import opened Prelude

  const DECRYPTED_BUFFER := 2000
  const CLEARTEXT_BUFFER := 2010
  const CIPHERTEXT_BUFFER := 2100

  /** crypto_secretbox: seal and open under a key and a nonce. */
  datatype Box<!K> = Box(seal: (K, Bytes, Bytes) -> Bytes, open: (K, Bytes, Bytes) -> Option<Bytes>)

  /** What secretbox promises of every key: sixteen bytes more, and opening undoes sealing. */
  ghost predicate Correct<K(!new)>(box: Box<K>) {
    forall key: K, nonce: Bytes, m: Bytes ::
      |box.seal(key, nonce, m)| == |m| + 16 && box.open(key, nonce, box.seal(key, nonce, m)) == Some(m)
  }

  /** This message, sealed under tx, does not open under another key rx. Sixteen bytes cannot tell all
      keys apart, so no box has this for every pair of keys: it is asked of the two at hand. */
  ghost predicate Separates<K>(box: Box<K>, tx: K, rx: K, nonce: Bytes, m: Bytes) {
    tx != rx ==> box.open(rx, nonce, box.seal(tx, nonce, m)) == None
  }

  /** The tag of a box that tells one key from all others. */
  ghost function Tag<K>(key: K, tx: K): Bytes { seq(16, _ => if key == tx then 1 else 0) }

  /** Boxes that obey both laws exist, for any two keys and with the second law for every message. */
  lemma LawsAreMet<K(!new)>(tx: K, rx: K) returns (box: Box<K>)
    ensures Correct(box) && forall nonce: Bytes, m: Bytes :: Separates(box, tx, rx, nonce, m)
  {
    box := Box((key, nonce, m) => Tag(key, tx) + m,
               (key, nonce, c) => if |c| >= 16 && c[..16] == Tag(key, tx) then Some(c[16..]) else None);
    forall key: K, nonce: Bytes, m: Bytes
      ensures |box.seal(key, nonce, m)| == |m| + 16 && box.open(key, nonce, box.seal(key, nonce, m)) == Some(m)
    {
      assert (Tag(key, tx) + m)[..16] == Tag(key, tx) && (Tag(key, tx) + m)[16..] == m;
    }
    forall nonce: Bytes, m: Bytes ensures Separates(box, tx, rx, nonce, m) {
      assert (Tag(tx, tx) + m)[..16][0] == 1;
    }
  }

  function SeqNum(): Bytes { seq(8, _ => 0) }

  /** doSendDataPacket; None when a buffer is too small. */
  function Seal<K>(box: Box<K>, key: K, nonce: Bytes, data: Bytes): Option<Bytes> {
    if |data| >= CLEARTEXT_BUFFER || |data| + 8 >= CLEARTEXT_BUFFER then None
    else if 1 + 24 + 16 + |data| + 8 >= CIPHERTEXT_BUFFER then None
    else Some([0] + nonce + box.seal(key, nonce, SeqNum() + data))
  }

  /** onLowerLayerData and handleDataPacket for a data packet of a negotiated peer. */
  function Open<K>(box: Box<K>, key: K, d: Bytes): Option<Bytes> {
    if |d| >= DECRYPTED_BUFFER || |d| == 0 || d[0] != 0 || |d| <= 1 + 24 + 16 + 8 then None
    else
      var m := box.open(key, d[1..25], d[25..]);
      if m.Some? && |m.value| == |d| - 41 then Some(m.value[8..]) else None
  }

  /** What one side seals the other opens, if and only if their keys are the same and it is one to 1950
      bytes long: longer packets are not sent or not taken, and an empty one is ignored. What does
      not come out as it went in does not come out at all. */
  lemma OpenUndoesSealIff<K(!new)>(box: Box<K>, tx: K, rx: K, nonce: Bytes, data: Bytes)
    requires Correct(box) && Separates(box, tx, rx, nonce, SeqNum() + data) && |nonce| == 24
    ensures var p := Seal(box, tx, nonce, data);
      (p.Some? && Open(box, rx, p.value) == Some(data)) <==> tx == rx && 1 <= |data| <= 1950
    ensures var p := Seal(box, tx, nonce, data);
      p.Some? && !(tx == rx && 1 <= |data| <= 1950) ==> Open(box, rx, p.value) == None
  {
    var c := box.seal(tx, nonce, SeqNum() + data);
    var d := [0] + nonce + c;
    assert d[1..25] == nonce && d[25..] == c;
    assert (SeqNum() + data)[8..] == data;
  }
}
