/** MulticastLayer: the IPv6 header is taken off on the way down and rebuilt on the way up. */
module HeaderElision {
  import opened Prelude

  /** A message for the layer below, or a packet for the layer above. */
  datatype Passed = Passed(peer: Ip, data: Bytes)

  // ---- section 3 of RFC 8200, by field ----

  function NextHeader(p: Bytes): byte requires |p| >= 40 { p[6] }
  function Source(p: Bytes): Ip requires |p| >= 40 { p[8..24] }
  function Destination(p: Bytes): Ip requires |p| >= 40 { p[24..40] }
  function Payload(p: Bytes): Bytes requires |p| >= 40 { p[40..] }

  predicate IsIpv6(p: Bytes) { |p| > 40 && p[0] / 16 == 6 }
  predicate IsUnicast(p: Bytes) { IsIpv6(p) && p[24] == 0xfc && p[25] == 0x94 }
  predicate IsMulticast(p: Bytes) { IsIpv6(p) && p[24] == 0xff }

  /** A packet with these four fields, its true length, hop limit 3, and no class or flow label. */
  ghost predicate Delivers(q: Bytes, src: Ip, dst: Ip, next: byte, payload: Bytes) {
    && |q| == 40 + |payload| && q[0] == 0x60 && q[1] == 0 && q[2] == 0 && q[3] == 0
    && (q[4] as int) * 256 + q[5] == |payload| && q[7] == 3
    && NextHeader(q) == next && Source(q) == src && Destination(q) == dst && Payload(q) == payload
  }

  // ---- the two directions ----

  /** onUpperLayerData: what goes down, and to whom. */
  function Down(me: Ip, p: Bytes, destinations: seq<Ip>): seq<Passed> {
    if !IsIpv6(p) then []
    else if p[24] == 0xff then
      seq(|destinations|, k requires 0 <= k < |destinations| =>
        Passed(destinations[k], [0xff, 0x01, p[6]] + Destination(p) + p[40..]))
    else if p[24] == 0xfc && p[25] == 0x94 && Source(p) == me then [Passed(Destination(p), [p[6]] + p[40..])]
    else []
  }

  lemma DownGroup(me: Ip, p: Bytes, destinations: seq<Ip>, k: nat)
    requires IsMulticast(p) && k < |destinations|
    ensures Down(me, p, destinations)[k] ==
      Passed(destinations[k], [0xff, 0x01, p[6]] + Destination(p) + p[40..])
  {
  }

  function Header(size: nat, next: byte): Bytes { [0x60, 0, 0, 0, size / 256 % 256, size % 256, next, 3] }

  /** onLowerLayerData: the packet that goes up. */
  function Up(me: Ip, source: Ip, data: Bytes): Option<Passed> {
    if |data| < 2 then None
    else if data[0] == 0xff && data[1] == 0x01 then
      if |data| < 20 || data[3] != 0xff then None
      else Some(Passed(UNSET_IP, Header(|data| - 19, data[2]) + source + data[3..19] + data[19..]))
    else Some(Passed(source, Header(|data| - 1, data[0]) + source + me + data[1..]))
  }

  lemma Rebuilt(size: nat, next: byte, src: Ip, dst: Ip, payload: Bytes)
    requires size == |payload| < 0x1_0000
    ensures Delivers(Header(size, next) + src + dst + payload, src, dst, next, payload)
  {
    var q := Header(size, next) + src + dst + payload;
    assert q[8..24] == src && q[24..40] == dst && q[40..] == payload;
  }

  /** The one unicast shape that is taken for a multicast message on the other side. */
  predicate Mistaken(p: Bytes)
    requires |p| > 40
  {
    p[6] == 0xff && p[40] == 0x01
  }

  /** A unicast packet arrives with its addresses, next header and payload, if and only if it is not
      of the one shape that looks like a multicast message: next header 255, first payload byte 1. */
  lemma UnicastRoundTripIff(p: Bytes)
    requires IsUnicast(p) && |p| - 40 < 0x1_0000
    ensures var sent := Down(Source(p), p, []);
      && |sent| == 1 && sent[0].peer == Destination(p)
      && var got := Up(sent[0].peer, Source(p), sent[0].data);
         (exists q :: got == Some(Passed(Source(p), q))
            && Delivers(q, Source(p), Destination(p), NextHeader(p), Payload(p))) <==> !Mistaken(p)
  {
    var data := [p[6]] + p[40..];
    var got := Up(Destination(p), Source(p), data);
    assert data[1..] == p[40..] && data[1] == p[40];
    if !Mistaken(p) {
      Rebuilt(|data| - 1, p[6], Source(p), Destination(p), p[40..]);
    } else if got.Some? {
      assert |got.value.data| == 40 + |data| - 19;
    }
  }

  /** A multicast packet arrives at every destination with its group address, next header and payload,
      under the sender's device id as source, whatever source the packet named. */
  lemma MulticastRoundTrip(me: Ip, p: Bytes, destinations: seq<Ip>, k: nat, receiver: Ip)
    requires IsMulticast(p) && |p| - 40 < 0x1_0000 && k < |destinations|
    ensures var sent := Down(me, p, destinations);
      && |sent| == |destinations| && sent[k].peer == destinations[k]
      && var got := Up(receiver, me, sent[k].data);
         got.Some? && got.value.peer == UNSET_IP
         && Delivers(got.value.data, me, Destination(p), NextHeader(p), Payload(p))
  {
    var data := [0xff, 0x01, p[6]] + Destination(p) + p[40..];
    assert data[3..19] == Destination(p) && data[19..] == p[40..];
    Rebuilt(|data| - 19, p[6], me, Destination(p), p[40..]);
  }

  /** Nothing goes down but multicast packets, to every destination, and unicast packets that name this node as
      their source, to the one they are for. */
  lemma NothingElseGoesDown(me: Ip, p: Bytes, destinations: seq<Ip>)
    ensures var sent := Down(me, p, destinations);
      && (IsMulticast(p) ==> |sent| == |destinations| && forall k | 0 <= k < |sent| :: sent[k].peer == destinations[k])
      && (IsUnicast(p) && Source(p) == me ==> |sent| == 1 && sent[0].peer == Destination(p))
      && (!IsMulticast(p) && !(IsUnicast(p) && Source(p) == me) ==> sent == [])
  {
  }

  /** Whatever a peer sends, a packet that goes up names that peer as its source, and this node or a multicast
      group as its destination; only what is too short or names no group stays down. */
  lemma SourceIsThePeer(me: Ip, source: Ip, data: Bytes)
    requires |data| < 0x1_0000
    ensures var up := Up(me, source, data); var multicast := |data| >= 2 && data[0] == 0xff && data[1] == 0x01;
      && (up.None? <==> |data| < 2 || (multicast && (|data| < 20 || data[3] != 0xff)))
      && (up.Some? && multicast ==>
            Delivers(up.value.data, source, data[3..19], data[2], data[19..]) && Destination(up.value.data)[0] == 0xff)
      && (up.Some? && !multicast ==> Delivers(up.value.data, source, me, data[0], data[1..]))
  {
    if |data| >= 20 { Rebuilt(|data| - 19, data[2], source, data[3..19], data[19..]); }
    if |data| >= 2 { Rebuilt(|data| - 1, data[0], source, me, data[1..]); }
  }
}
