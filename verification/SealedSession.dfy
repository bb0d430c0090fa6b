/** The bytes of SealedPackets and the terms of SecurityNode are two views of the same packets: the one
    has the buffers and the layout, the other the states of the session and the attacker. */
module SealedSession {
  import opened Prelude
  import opened SessionTerms
  import B = SealedPackets
  import N = SecurityNode
  import T = PeerTable

  /** A data packet as it goes out under these nonce bytes. */
  function Wire(box: B.Box<Key>, nonce: Bytes, pkt: Packet): Bytes
    requires pkt.Data?
  {
    [0] + nonce + box.seal(pkt.key, nonce, pkt.plain)
  }

  /** doSendDataPacket sends a packet in the one view exactly when it does in the other, and it is the
      same packet. */
  lemma SealsAgree(box: B.Box<Key>, c: N.Ctx, id: Id, nonce: Bytes, data: Bytes)
    requires B.Correct(box) && |nonce| == 24 && N.Has(c, id)
    ensures var p := B.Seal(box, N.PeerAt(c, id).tx, nonce, data);
      var pkt := Data(c.n.nonces, N.PeerAt(c, id).tx, Zeros() + data);
      && N.Seal(c, id, data).h ==
         c.h + [N.Sealed(N.Me(c), id, data)] + (if p.Some? then [N.Sent(N.Me(c), id, pkt)] else [])
      && (p.Some? ==> p.value == Wire(box, nonce, pkt) && |p.value| == PacketSize(pkt))
  {
    assert Zeros() == B.SeqNum();
  }

  /** The session that the security layer finds for a peer, if there is one. */
  function Session(n: N.Node, id: Id): (r: Option<N.Peer>)
    requires T.WellFormed(n.table)
  {
    T.GetOrCreateFrame(n.table, id, true, N.NewPeer(n, id));
    var (c, found) := N.Lookup(N.Ctx(n, []), id, true, true);
    if found && N.PeerAt(c, id).negotiated then Some(N.PeerAt(c, id)) else None
  }

  /** A payload handed down for a peer with a session: in both views it is sent at once, as the same packet,
      or too large. */
  lemma UpperSeals(box: B.Box<Key>, c: N.Ctx, id: Id, nonce: Bytes, data: Bytes)
    requires T.WellFormed(c.n.table) && Session(c.n, id).Some?
    ensures var tx := Session(c.n, id).value.tx; var p := B.Seal(box, tx, nonce, data);
      var pkt := Data(c.n.nonces, tx, Zeros() + data);
      && N.OnUpper(c, id, data, true).h ==
         c.h + [N.Down(N.Me(c), id, data, true), N.Sealed(N.Me(c), id, data)]
             + (if p.Some? then [N.Sent(N.Me(c), id, pkt)] else [])
      && (p.Some? ==> p.value == Wire(box, nonce, pkt))
  {
    assert Zeros() == B.SeqNum();
    T.GetOrCreateFrame(c.n.table, id, true, N.NewPeer(c.n, id));
  }

  /** onLowerLayerData hands up a data packet of a session in the one view exactly when it does in the
      other, and it is the same payload. */
  lemma OpensAgree(box: B.Box<Key>, c: N.Ctx, src: Id, nonce: Bytes, pkt: Packet, now: int)
    requires B.Correct(box) && |nonce| == 24 && pkt.Data? && T.WellFormed(c.n.table)
    requires Session(c.n, src).Some?
    requires B.Separates(box, pkt.key, Session(c.n, src).value.rx, nonce, pkt.plain)
    ensures var p := B.Open(box, Session(c.n, src).value.rx, Wire(box, nonce, pkt));
      N.OnLower(c, src, pkt, true, now).h == c.h + if p.Some? then [N.Up(N.Me(c), src, p.value, pkt)] else []
  {
    var d := Wire(box, nonce, pkt);
    assert d[1..25] == nonce && d[25..] == box.seal(pkt.key, nonce, pkt.plain);
    T.GetOrCreateFrame(c.n.table, src, true, N.NewPeer(c.n, src));
  }
}
