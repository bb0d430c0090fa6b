/** parsePeerToPeerMessage and serializePeerToPeerMessage. Signatures and the derivation of an id
    from a public key are parameters. */
module PeerMessages {
  import opened Prelude

  const HELLO: byte := 0
  const HELLO_REPLY: byte := 1
  const DATA: byte := 2

  datatype Message =
    | Invalid
    | Hello(reply: bool, myId: Bytes, yourId: Bytes, cookie: Bytes)
    | Data(data: Bytes)

  /** `sign` and `verify` include the "ng-p2p-msg" label. */
  datatype Crypto = Crypto(idOf: Bytes -> Bytes, sign: (Bytes, Bytes) -> Bytes, verify: (Bytes, Bytes, Bytes) -> bool)

  /** What the scheme promises: signatures of 64 bytes that the public key of the signer verifies. */
  ghost predicate Correct(c: Crypto, privkey: Bytes, pubkey: Bytes) {
    forall m: Bytes :: |c.sign(m, privkey)| == 64 && c.verify(m, pubkey, c.sign(m, privkey))
  }

  /** This node's identity. */
  datatype Signer = Signer(id: Bytes, pubkey: Bytes, privkey: Bytes)

  function Unsigned(kind: byte, id: Bytes, pubkey: Bytes, yourId: Bytes, cookie: Bytes): Bytes {
    [kind] + id + pubkey + yourId + cookie
  }

  function SerializeHello(c: Crypto, me: Signer, reply: bool, yourId: Bytes, cookie: Bytes): Bytes {
    var body := Unsigned(if reply then HELLO_REPLY else HELLO, me.id, me.pubkey, yourId, cookie);
    body + c.sign(body, me.privkey)
  }

  function SerializeData(data: Bytes): Bytes { [DATA] + data }

  function Parse(c: Crypto, d: Bytes): Message {
    if d == [] then Invalid
    else if d[0] == HELLO || d[0] == HELLO_REPLY then
      if |d| != 145 then Invalid
      else if c.idOf(d[17..49]) != d[1..17] then Invalid
      else if !c.verify(d[..81], d[17..49], d[81..]) then Invalid
      else Hello(d[0] == HELLO_REPLY, d[1..17], d[49..65], d[65..81])
    else if d[0] == DATA then Data(d[1..])
    else Invalid
  }

  lemma Pieces(k: byte, id: Bytes, pub: Bytes, your: Bytes, cookie: Bytes, sig: Bytes)
    requires |id| == 16 == |your| == |cookie| && |pub| == 32 && |sig| == 64
    ensures var d := Unsigned(k, id, pub, your, cookie) + sig;
      && |d| == 145 && d[0] == k && d[1..17] == id && d[17..49] == pub && d[49..65] == your
      && d[65..81] == cookie && d[81..] == sig && d[..81] == Unsigned(k, id, pub, your, cookie)
  {
  }

  /** A hello or reply that this node serializes is parsed, by anyone, as a message signed by it. */
  lemma HelloRoundTrip(c: Crypto, me: Signer, reply: bool, yourId: Bytes, cookie: Bytes)
    requires |me.id| == 16 == |yourId| == |cookie| && |me.pubkey| == 32
    requires c.idOf(me.pubkey) == me.id && Correct(c, me.privkey, me.pubkey)
    ensures Parse(c, SerializeHello(c, me, reply, yourId, cookie)) == Hello(reply, me.id, yourId, cookie)
  {
    var k := if reply then HELLO_REPLY else HELLO;
    var body := Unsigned(k, me.id, me.pubkey, yourId, cookie);
    Pieces(k, me.id, me.pubkey, yourId, cookie, c.sign(body, me.privkey));
  }

  /** Conversely, whatever is parsed as a hello carries a signature over exactly its kind and fields,
      under a key that the claimed id is derived from: nothing else is accepted. */
  lemma AcceptedHelloIsSigned(c: Crypto, d: Bytes, m: Message)
    requires m.Hello?
    ensures Parse(c, d) == m <==>
      exists pub, sig :: |pub| == 32 && |sig| == 64 && |m.myId| == 16 == |m.yourId| == |m.cookie|
        && d == Unsigned(if m.reply then HELLO_REPLY else HELLO, m.myId, pub, m.yourId, m.cookie) + sig
        && c.idOf(pub) == m.myId
        && c.verify(Unsigned(if m.reply then HELLO_REPLY else HELLO, m.myId, pub, m.yourId, m.cookie), pub, sig)
  {
    var k := if m.reply then HELLO_REPLY else HELLO;
    if Parse(c, d) == m {
      var pub, sig := d[17..49], d[81..];
      var body := Unsigned(k, m.myId, pub, m.yourId, m.cookie);
      assert d[..81] == body;
      assert d == body + sig;
    }
    forall pub: Bytes, sig: Bytes | |pub| == 32 && |sig| == 64 && |m.myId| == 16 == |m.yourId| == |m.cookie|
        && d == Unsigned(k, m.myId, pub, m.yourId, m.cookie) + sig
        && c.idOf(pub) == m.myId
        && c.verify(Unsigned(k, m.myId, pub, m.yourId, m.cookie), pub, sig)
      ensures Parse(c, d) == m
    {
      Pieces(k, m.myId, pub, m.yourId, m.cookie, sig);
    }
  }

  lemma DataRoundTrip(c: Crypto, data: Bytes)
    ensures Parse(c, SerializeData(data)) == Data(data)
  {
    assert SerializeData(data)[1..] == data;
  }

  /** Datagrams that are not data and not a hello are refused, and data is nothing but what SerializeData writes. */
  lemma ParsedDataIff(c: Crypto, d: Bytes, data: Bytes)
    ensures Parse(c, d) == Data(data) <==> d == SerializeData(data)
    ensures d == [] || d[0] > 2 || (d[0] < 2 && |d| != 145) ==> Parse(c, d) == Invalid
  {
    if d != [] { assert d == [d[0]] + d[1..]; }
    assert SerializeData(data)[1..] == data;
  }
}
