# A model of the Husarnet daemon, in Dafny

Husarnet is a layered peer-to-peer VPN: Tun, Multicast, Compression, Security, NgSocket. This project
models its hardest parts and proves what they promise, for every input, every run and every reachable
state.

- **Secure sessions** (`SecurityNode.dfy`, `SecurityLayerObject.dfy`, `Session*.dfy`). The signed hello
  exchange, key derivation, flag mixing, sealed data and the queues of packets that wait for a key, as a
  transition system of any number of nodes. The network belongs to an attacker who may drop, repeat, reorder
  and replay packets, run devices of its own, and send anything it can build. Cryptography is symbolic: signatures cannot be
  forged, `crypto_kx` is an injective directional constructor, a box opens only under its own key.
- **Peer objects** (`PeerTable.dfy`, `PeerContainers.dfy`). The container with its one-entry cache under a changing allow-list.
- **SHA-1** (`Sha1*.dfy`). The unrolled, in-place code against FIPS 180-4.
- **Stream reassembly** (`TcpFraming.dfy`) and **HTTP** (`Http*.dfy`). Independence from how the stream is cut.
- **NgSocket** (`NgSocket*.dfy`, `PeerMessages.dfy`, `AddressNumbers.dfy`). The source address index with random
  eviction, the HELLO cookie protocol that decides between direct and relayed sending, what leaves and where
  to, and the signed datagrams.
- **The direct path end to end** (`HeaderElision*.dfy`, `Sealed*.dfy`, `DirectPath.dfy`).
- **Codecs** (`Ip*.dfy`, `Hex.dfy`, `IdentityFile.dfy`, `WebSocket*.dfy`, `Hosts*.dfy`).

Where the source updates objects, the model is a class or a method with loops, proved equal to functions
on values (`SecurityLayerObject`, `NgSocketObject`, `HttpObject`, `WebSocketObject`, `IpCode`,
`Sha1Stream`, ...); the theorems are about those functions. Time, random values, the allow-list and the
results of system calls are parameters, so a theorem holds for every choice of them.

`dafny verify dfyconfig.toml` checks everything.

## What the proofs found

- **Client and server.** The comment at `core/husarnet/security_layer.cpp:209-210` says that the smaller id
  is the client; the code makes the larger id the client. The model follows the code. Both ends still agree.
- **Flags.** Keys agree exactly when both or neither end announces flags (`KeyAgreement`). The code always
  announces a nonzero value, so it is on the safe side of the condition.
- **A node's own id.** `getPeer` refuses it, so `getOrCreatePeer` replaces its Peer every time
  (`OwnIdIsRecreated`). Packets waiting in the replaced Peer are lost while `queuedPackets` stays high
  (`OwnIdLeaks`). In every state of every run the counter is too high by exactly the packets lost that way
  (`CounterDrift`), so it is exact if and only if no step so far replaced a Peer with waiting packets
  (`CounterExactIff`).
- **Replayed data.** Data packets carry sequence number zero (`core/husarnet/security_layer.cpp:268`), so a
  replayed packet goes up again whenever the receiver has a session with its sender, even a renegotiated
  one (`ReplayedIff`); a packet is handed up at most once exactly when no second delivery finds a session
  (`HandedUpOnceIff`).
- **Sessions without news.** `lastValidPacket` starts at 0 and only a data packet moves it, so a session over which
  nothing has come in yet is forgotten at the first periodic visit after the clock has passed two minutes
  (`ForgottenIff`). The next payload of the end that still has it brings it back (`LostSessionReturns`).
- **SHA-1 pieces of four gigabytes.** `SHA1Update` adds the buffered count to the length in 32 bits. When the sum
  wraps, and only then, the last copy leaves the buffer (`LastCopyFitsIff`).
- **Torn TCP writes.** `sendToBaseTcp` (`core/husarnet/ngsocket.cpp:848-855`) ignores a failed write. Later packets
  are read as written if and only if no byte of the failed one was sent (`TornWriteIff`).
- **Taking a peer off the allow-list.** The cache is asked before the list, so the peer found last keeps being found
  until another one is (`RefusedIff`).
- **A new Peer for the cached id.** `createPeer` does not refresh the cache; called directly on the cached id it
  leaves the cache with the replaced Peer. `getOrCreatePeer` never does.
- **HTTP without header fields.** A message with no field never completes: the line end of the start line is
  consumed before the empty line is looked for. One without a body whose fields announce a length never
  completes either. Every other message that `encode` writes from good parts does (`CompletesIff`).
- **WebSocket length 128.** Through a signed `char`, a payload of exactly 128 bytes is rejected; all other
  lengths that a message object can hold come back (`FrameRoundTripIff`).
- **Frames cut by a segment.** The frame loop starts afresh on every TCP segment and drops what is left over. A
  frame in two segments is lost (`CutFrameIsLost`); a stream of frames is heard in full exactly when it is cut
  between frames only (`AllHeardIff`).
- **Unicast taken for multicast.** A unicast packet with next header 255 and first payload byte 1 is read as
  a multicast message on the other side; every other one arrives (`UnicastRoundTripIff`).

## Model

| member | source | states |
|---|---|---|
| `SessionTheorems.KeyAgreement` | core/husarnet/security_layer.cpp:156-237 | in every reachable state two nodes that have negotiated with each other hold matching keys, each tx equal to the other's rx, if and only if both or neither announce flags |
| `SessionTheorems.SealedIsOpened` | core/husarnet/security_layer.cpp:101-139 | in such a state whatever one of them seals (1 to 1950 bytes) the other opens and hands up as coming from it |
| `SessionTheorems.KeySecrecy` | core/husarnet/security_layer.cpp:208-223 | in every reachable state the attacker knows neither session key, and the keys of the two directions differ |
| `SessionTheorems.PayloadAuthenticity` | core/husarnet/security_layer.cpp:101-139 | every payload handed up as coming from a peer was handed down there earlier for this node, in a packet that peer sent here and this node never sent; nothing is accepted from oneself |
| `SessionTheorems.HandshakeFreshness` | core/husarnet/security_layer.cpp:194-236 | every accepted hello 2 or 3 was sent by the peer after the acceptor's previous acceptance from anyone, in answer to a hello that carried the acceptor's current helloseq |
| `SessionTheorems.AcceptedOnce` | core/husarnet/security_layer.cpp:198-233 | no hello 2 or 3 is accepted twice by one node in one boot |
| `SessionTheorems.RunInv` | core/husarnet/security_layer.cpp:72-294 | the invariant on histories and nodes holds in every state of every run |
| `Session.KeysAgreeIff` | core/husarnet/security_layer.cpp:16-22 | role choice by id order and flag mixing in opposite argument order give equal keys exactly when both or neither flags are zero |
| `Session.LargerIdIsClient` | core/husarnet/security_layer.cpp:209-216 | the node with the larger id is the client at both ends |
| `Session.BasesSeparate` | core/husarnet/security_layer.cpp:208-216 | a key's base determines the sending node and the receiving node, so directions and pairs never share keys |
| `SessionProof.GoodHandleHello` | core/husarnet/security_layer.cpp:156-237 | handling any hello keeps the invariant |
| `SessionProof.GoodHandle` | core/husarnet/security_layer.cpp:72-264 | every handler keeps the invariant |
| `SessionProgress.PayloadArrives` | core/husarnet/security_layer.cpp:101-294 | from every reachable state without a session and with room in the queues, a payload of 1 to 1950 bytes can reach the other end's upper layer in five steps: queued, hello 1, 2 and 3, sealed and opened |
| `SessionProgress.HandshakeCompletes` | core/husarnet/security_layer.cpp:141-264 | from every reachable state without a session, four steps lead to one where both ends have negotiated |
| `SessionLife.SessionDelivers` | core/husarnet/security_layer.cpp:101-294 | from every reachable state in which both have negotiated and the flags agree, a payload of 1 to 1950 bytes handed down is admitted, sealed and sent in that step, and delivering the packet hands it up at the other end: two steps, with exactly these events |
| `SessionLife.LostSessionReturns` | core/husarnet/security_layer.cpp:101-237 | from every reachable state in which only one end still has the session, the next payload that end sends brings it back in five steps |
| `SessionLife.ForgottenIff` | core/husarnet/ngsocket.cpp:120-127 | in every run, a step ends a session if and only if it is the periodic visit to that peer and no packet from it has been opened in the two minutes before; a session over which nothing has come yet counts as last heard at time 0 |
| `SessionLife.LastValidIsLastHeard` | core/husarnet/security_layer.cpp:131-135 | in every state of every run, lastValidPacket is the time of the last packet opened from the peer |
| `SessionLife.NonceUsedOnce` | core/husarnet/security_layer.cpp:266-294 | in every run, no two data packets between nodes that follow the code share key and nonce |
| `SessionEffects.UpperEffect` | core/husarnet/security_layer.cpp:250-264 | a payload for a peer that can be found is admitted if and only if there is a session or fewer than 10 packets wait; sealed and sent with a session, queued with a hello without |
| `SessionEffects.DataEffect` | core/husarnet/security_layer.cpp:101-139 | a data packet without a session is answered with a hello 1; with one it is handed up and renews the sign of life, or is dropped |
| `SessionEffects.HelloEffect` | core/husarnet/security_layer.cpp:156-237 | which hellos have an effect: a genuine hello 1 is answered with its echo, a genuine hello 2 or 3 with the right helloseq and a usable key completes a negotiation, anything else leaves events, sessions and queues alone |
| `SessionEffects.HeartbeatEffect` | core/husarnet/security_layer.cpp:53-57 | a heartbeat is answered with its ident |
| `SessionEffects.LatencyEffect` | core/husarnet/security_layer.cpp:34-44 | a heartbeat goes to every peer that can be found |
| `SessionReplay.HandedUpOnceIff` | core/husarnet/security_layer.cpp:101-139 | in every run a data packet is handed up at most once if and only if no two of the steps that give it to the node find a session whose key opens it |
| `SessionReplay.HandedUpPerOpening` | core/husarnet/security_layer.cpp:101-139 | in every run a packet is handed up exactly as often as it is given to the node while there is such a session |
| `SessionReplay.ReplayedIff` | core/husarnet/security_layer.cpp:101-139 | a packet once handed up can always be delivered again, and is handed up again if and only if the receiver then has a session with the sender and the allow-list or the cache lets it find it, whatever was renegotiated in between |
| `SessionReplay.ReplayedAtWill` | core/husarnet/security_layer.cpp:266-270 | the failing input: as long as the session is there, n more deliveries of one packet hand it up n more times |
| `SessionReplay.HandedDownOnceUpOften` | core/husarnet/security_layer.cpp:101-294 | from every state that PayloadArrives starts from, a payload handed down once can be handed up any number of times |
| `SessionQueueTheorems.QueuedPacketsConserved` | core/husarnet/security_layer.cpp:239-264 | in every run, per ordinary peer, the payloads sealed followed by the queue are the admitted payloads in order; a negotiated peer's queue is empty; the counter is between the number of waiting packets and 10 |
| `SessionQueueTheorems.CounterExactIff` | core/husarnet/security_layer.cpp:239-264 | in every state of every run, queuedPackets equals the sum of the queue lengths if and only if no earlier step of the node replaced a Peer that had packets waiting |
| `SessionQueueTheorems.CounterDrift` | core/husarnet/security_layer.cpp:239-264 | in every state of every run, queuedPackets is the sum of the queue lengths plus the packets thrown away with replaced Peers so far |
| `SessionQueueTheorems.CounterExact` | core/husarnet/security_layer.cpp:250-264 | in every run without packets handed down for the node's own or the unset id, queuedPackets equals the sum of the queue lengths |
| `SessionQueueTheorems.OwnIdLeaks` | core/husarnet/peer_container.cpp:32-62 | two packets for the own id leave the counter at 2 with one packet waiting |
| `SessionQueues.HandleBooks` | core/husarnet/security_layer.cpp:239-264 | every handler keeps sealed plus queued equal to admitted, per peer and in order |
| `SessionQueues.HandleLeak` | core/husarnet/security_layer.cpp:239-264 | any handler lets the counter drift from the queue lengths by exactly the packets waiting in the Peer it replaces |
| `SecurityLayerObject.SecurityLayer.SendHelloPacket` | core/husarnet/security_layer.cpp:141-154 | the signed hello with this node's helloseq and the echoed one |
| `SecurityLayerObject.SecurityLayer.HandleHelloPacket` | core/husarnet/security_layer.cpp:156-204 | target, key and signature checks, the answer to hello 1, the helloseq check |
| `SecurityLayerObject.SecurityLayer.AcceptHello` | core/husarnet/security_layer.cpp:206-237 | key derivation, flag mixing even when the exchange fails, then finishing, helloseq and hello 3 |
| `SecurityLayerObject.SecurityLayer.FinishNegotiation` | core/husarnet/security_layer.cpp:239-248 | every waiting packet is sealed in order and the queue is emptied |
| `SecurityLayerObject.SecurityLayer.HandleDataPacket` | core/husarnet/security_layer.cpp:101-139 | a data packet is answered with a hello, refused, or handed up |
| `SecurityLayerObject.SecurityLayer.DoSendDataPacket` | core/husarnet/security_layer.cpp:266-294 | the payload is sealed under the peer's tx key with a fresh nonce, or dropped when too large |
| `SecurityLayerObject.SecurityLayer.OnLowerLayerData` | core/husarnet/security_layer.cpp:72-99 | dispatch by packet kind and size |
| `SecurityLayerObject.SecurityLayer.OnUpperLayerData` | core/husarnet/security_layer.cpp:250-264 | sealed at once, queued up to ten over all peers, or dropped; a hello goes out without a session |
| `SecurityLayerObject.SecurityLayer.GetLatency` | core/husarnet/security_layer.cpp:34-44 | the peer is created if needed and a heartbeat goes out |
| `SecurityLayerObject.SecurityLayer.PeriodicPeer` | core/husarnet/ngsocket.cpp:120-127 | an expired session is forgotten, the queue is not |
| `SecurityLayerObject.SecurityLayer.GetOrCreatePeer` | core/husarnet/peer_container.cpp:55-62 | the lookup as the session model uses it |
| `SecurityLayerObject.SecurityLayer.Step` | core/husarnet/security_layer.cpp:34-294 | every input, through its handler, keeps the queues in order: books balanced per peer, negotiated queues empty, counter between the waiting packets and 10 |
| `PeerTable.OnePeerPerId` | core/husarnet/peer_container.cpp:16-62 | in every run of lookups under any allow-list answers, an id other than the own and the unset one gets at most one Peer and every non-null lookup returns it |
| `PeerTable.KnownPeerIsStable` | core/husarnet/peer_container.cpp:32-62 | once created, a Peer is what every later lookup returns, or null |
| `PeerTable.OwnIdIsRecreated` | core/husarnet/peer_container.cpp:32-62 | after any run, every allowed getOrCreatePeer on the own id creates a new Peer |
| `PeerTable.RefusedIff` | core/husarnet/peer_container.cpp:32-62 | in every run of lookups, an id that the allow-list refuses gets null if and only if it is not the one found last, and an allowed id always gets a Peer from getOrCreatePeer |
| `PeerContainers.PeerContainer.CreatePeer` | core/husarnet/peer_container.cpp:16-30 | a fresh Peer enters the map if the id is allowed; the cache still agrees with the map afterwards if and only if the new Peer is not for the cached id |
| `PeerContainers.PeerContainer.GetPeer` | core/husarnet/peer_container.cpp:32-53 | the cache always agrees with the map, and a hit returns the Peer in the map |
| `PeerContainers.PeerContainer.GetOrCreatePeer` | core/husarnet/peer_container.cpp:55-62 | an ordinary id keeps its Peer object |
| `Sha1Transform.Transform` | core/husarnet/sha1.c:63-181 | the state array is updated to the section 6.1.2 compression of the state and the block |
| `Sha1Transform.EightyRounds` | core/husarnet/sha1.c:75-166 | the 80 macro calls with rotated names and a 16-word ring equal 80 rounds over the 80-word schedule |
| `Sha1Transform.Blk` | core/husarnet/sha1.c:36-41 | the ring slot overwritten in place is the next schedule word |
| `Sha1Transform.ScheduleIsSchedule` | core/husarnet/sha1.c:36-41 | the recursive schedule satisfies the recurrence at every index |
| `Sha1Transform.SwapIsBigEndian` | core/husarnet/sha1.c:29-34 | the rotate-and-mask swap of a little-endian load is the big-endian word |
| `Sha1Stream.Context.Update` | core/husarnet/sha1.c:198-219 | after any update whose length and buffered count do not wrap 32 bits together, the two-word counter is 8 times the length mod 2^64, the state is the hash of all whole blocks and the buffer holds exactly the tail |
| `Sha1Stream.LastCopyFitsIff` | core/husarnet/sha1.c:208-218 | for every buffered count and every 32-bit length, the last copy stays inside the 64-byte buffer if and only if their sum does not wrap |
| `Sha1Stream.Context.Final` | core/husarnet/sha1.c:223-264 | the digest of everything fed so far, with padding that stops at byte 56 of a block |
| `Sha1Stream.FinalCountIsLength` | core/husarnet/sha1.c:228-233 | the eight count bytes are the big-endian bit length mod 2^64 |
| `Sha1Stream.HashBytes` | core/husarnet/sha1.c:268-277 | one byte at a time gives the FIPS 180-4 digest of every message |
| `Sha1Stream.HashPieces` | core/husarnet/sha1.c:198-264 | any split into update calls gives the FIPS 180-4 digest of the whole, as long as no piece wraps the sum that LastCopyFitsIff is about |
| `TcpFraming.DrainAppend` | core/husarnet/ports/sockets.cpp:405-457 | for every byte stream, draining in two steps equals draining at once |
| `TcpFraming.FrameRoundTripIff` | core/husarnet/ports/sockets.cpp:305-311 | exactly the packets of 1 to 1994 bytes survive framing |
| `TcpFraming.DrainPrefix` | core/husarnet/ports/sockets.cpp:405-457 | any prefix of a stream of frames yields the whole packets in it, keeps the rest and never closes |
| `TcpFraming.RoomForMore` | core/husarnet/ports/sockets.cpp:370-385 | between reads the 2000-byte buffer always has free space |
| `TcpFraming.TcpConnection.SendAll` | core/husarnet/ports/sockets.cpp:313-327 | exactly the bytes that the sends take before the first error go out, all of them if and only if the sends take that many |
| `TcpFraming.TcpConnection.Write` | core/husarnet/ports/sockets.cpp:299-328 | the framed packet reaches the wire whole if and only if the connection is open and the sends take it; otherwise the prefix they take |
| `TcpFraming.TcpConnection.WriteVector` | core/husarnet/ports/sockets.cpp:330-364 | the same, refused when the header does not fit |
| `TcpFraming.TcpConnection.WriteAll` | core/husarnet/ports/sockets.cpp:299-328 | packets written in a row put their frames on the wire in order, up to a proper prefix of the first one that fails |
| `TcpFraming.TcpConnection.DrainBuffer` | core/husarnet/ports/sockets.cpp:405-457 | every complete packet is passed on in order and erased |
| `TcpFraming.TcpConnection.HandleRead` | core/husarnet/ports/sockets.cpp:366-458 | the callbacks have got what draining the received stream gives; the first recv takes all it returns; the call ends only when a recv returns nothing, at most 5 bytes are left or the connection is closed; a recv that fails closes it |
| `TcpFraming.Reassembled` | core/husarnet/ports/sockets.cpp:366-458 | once all bytes of any packets of 1 to 1994 bytes have arrived, however cut, the callbacks have got exactly those packets in order; before that, a prefix of them |
| `TcpFraming.ReadStream` | core/husarnet/ports/sockets.cpp:366-458 | over any number of handler calls with any recv results, the frames of any packets of 1 to 1994 bytes end with exactly these packets passed on and the connection open |
| `TcpFraming.ReadAll` | core/husarnet/ports/sockets.cpp:366-458 | handler calls on a readable socket come to an end, with everything received unless the connection closed |
| `TcpFraming.WrittenIsRead` | core/husarnet/ports/sockets.cpp:299-458 | from writer to reader: whatever the sends and the recvs returned, the reader has passed on a prefix of the packets given to the writer, and exactly those written whole once everything on the wire has arrived |
| `TcpFraming.TornWriteIff` | core/husarnet/ports/sockets.cpp:299-458 | after a failed write, packets written later come out as they went in if and only if no byte of the failed one was sent |
| `TcpFraming.DrainInverse` | core/husarnet/ports/sockets.cpp:405-457 | for every byte stream, the packets passed on, framed again, followed by what is kept, are the stream |
| `HttpProof.ChunksParsed` | core/husarnet/http.cpp:44-237 | every well-formed request or response of at most 8192 bytes, cut into any nonempty chunks, gives INCOMPLETE on all but the last and OK on the last, with the same method and endpoint or status, header map and body |
| `HttpProof.CompletesIff` | core/husarnet/http.cpp:94-172 | every message made of good parts, with a length for its body, completes if and only if it has a header field and, without a body, announces none |
| `HttpProof.StatusLineIff` | core/husarnet/http.cpp:67-75 | a status line is read as a response with its status, the cursor behind it, if and only if the second field is a 32-bit number; otherwise it is INVALID |
| `HttpErrors.StartLineIff` | core/husarnet/http.cpp:54-93 | which start lines of three fields are taken and which refused |
| `HttpErrors.TooFewBlanks` | core/husarnet/http.cpp:54-58 | a start line without two blanks is refused |
| `HttpErrors.ColonlessLine` | core/husarnet/http.cpp:112-138 | so is a header section that starts with a line without a colon |
| `HttpErrors.ValueStart` | core/husarnet/http.cpp:118-136 | the value of a header line starts two characters behind the colon |
| `HttpErrors.BadLength` | core/husarnet/http.cpp:145-172 | a Content-Length that is no number stands for an empty body |
| `HttpErrors.Overlong` | core/husarnet/http.cpp:174-237 | so is everything beyond 8192 bytes |
| `HttpErrors.ReadyAgain` | core/husarnet/http.cpp:174-237 | after any other refusal the parser is ready for the start of a message |
| `HttpObject.EncodedMessageArrives` | core/husarnet/http.cpp:11-237 | from object to object: whatever order the header map is written in and however the text is cut, the parsed message has the same method, endpoint, header map and body |
| `HttpObject.FieldsBack` | core/husarnet/http.cpp:28-35 | the fields written in any traversal order make up the header map again |
| `HttpProof.ParseStep` | core/husarnet/http.cpp:174-237 | any stretch of the encoding moves the parser from one well-defined state to another |
| `HttpProof.LinesParsed` | core/husarnet/http.cpp:112-138 | the header lines of any fields are read into their map, later duplicates winning |
| `HttpProof.NoEarlyDelimiter` | core/husarnet/http.cpp:99-110 | the empty line is not found before the end of the last field |
| `HttpObject.HTTPMessage.Encode` | core/husarnet/http.cpp:11-42 | the output is the request with its fields in iteration order, Content-Length added for a body |
| `HttpObject.HTTPMessage.Parse` | core/husarnet/http.cpp:174-237 | the state machine loop equals the specified parser |
| `HttpObject.HTTPMessage.ParseStartLine` | core/husarnet/http.cpp:44-97 | request and status lines, and their error cases |
| `HttpObject.HTTPMessage.ParseHeader` | core/husarnet/http.cpp:99-143 | the header phase |
| `HttpObject.HTTPMessage.ParseBody` | core/husarnet/http.cpp:145-172 | the body phase, by Content-Length |
| `Text.DecimalRoundTrip` | core/husarnet/http.cpp:24-28 | reading a printed number gives it back |
| `NgSocketTheorems.SourceIndexExact` | core/husarnet/ngsocket.cpp:558-590 | in every run with any eviction choices the index is the exact inverse of the source sets, which are disjoint and hold at most 5 addresses; a lookup gives nothing or the peer that most recently sent a valid HELLO from there |
| `NgSocketTheorems.DirectOnlyIfVouched` | core/husarnet/ngsocket.cpp:155-165 | every datagram sent directly to a peer goes to an address from which a HELLO_REPLY signed by that peer, addressed to this node and echoing the cookie of an earlier attempt to that peer, was accepted |
| `NgSocketTheorems.OneReplyPerAttempt` | core/husarnet/ngsocket.cpp:277-301 | each attempt has its own cookie and accepts at most one reply |
| `NgSocketTheorems.RunExtends` | core/husarnet/ngsocket.cpp:118-301 | every legal input is possible in every reached state |
| `NgSocketEffects.SentAtOnce` | core/husarnet/ngsocket.cpp:155-190 | in every run, data for a peer leaves in the step in which it is handed down, exactly once: directly, to where the last reply accepted from the peer came from, if the peer is connected, and relayed if and only if it is not |
| `NgSocketEffects.SendEffect` | core/husarnet/ngsocket.cpp:144-190 | one data event with the id and the bytes, behind an attempt when one is due; only a packet without a possible peer is dropped |
| `NgSocketEffects.AttemptEffect` | core/husarnet/ngsocket.cpp:192-231 | a fresh cookie goes to every target, source and link-local address of the peer that is not a Husarnet one, and to no other |
| `NgSocketEffects.PeriodicEffect` | core/husarnet/ngsocket.cpp:118-142 | when the periodic visit disconnects a peer and when it tries it |
| `NgSocketEffects.HelloEffect` | core/husarnet/ngsocket.cpp:250-275 | which hellos are credited and answered, and with what |
| `NgSocketEffects.AdoptEffect` | core/husarnet/ngsocket.cpp:261-266 | the first link-local address heard from becomes the peer's and is tried at once if it is active |
| `NgSocketEffects.ReplyEffect` | core/husarnet/ngsocket.cpp:277-301 | a reply is accepted if and only if it answers the pending attempt of a known peer; then its source is the target |
| `NgSocketEffects.DataEffect` | core/husarnet/ngsocket.cpp:303-312 | data goes up under the id of the object that owns its source address, or nowhere |
| `NgSocketEffects.TargetsEffect` | core/husarnet/ngsocket.cpp:384-391 | a changed address list for a known peer replaces the old one and is tried at once |
| `NgSocketEffects.AnnouncementEffect` | core/husarnet/ngsocket.cpp:459-472 | so does a changed link-local address |
| `AddressNumbers.AddressKinds` | core/husarnet/ipaddress.cpp:45-77 | the kinds of address that decide where hellos go, by their bytes |
| `NgSocketRuns.HandleIndex` | core/husarnet/ngsocket.cpp:118-301 | every handler keeps the index invariant |
| `NgSocketRuns.AddSourceShape` | core/husarnet/ngsocket.cpp:558-581 | the new owner of every address after an insertion with or without eviction |
| `NgSocketCookies.HandleCookie` | core/husarnet/ngsocket.cpp:118-301 | every handler keeps the cookie invariant |
| `NgSocketObject.Node.AddSourceAddress` | core/husarnet/ngsocket.cpp:564-581 | the set and index updates in place |
| `NgSocketObject.Node.RemoveSourceAddress` | core/husarnet/ngsocket.cpp:558-562 | an address leaves the set and the index |
| `NgSocketObject.Node.FindPeerBySourceAddress` | core/husarnet/ngsocket.cpp:583-590 | the owner of an address, or nothing |
| `NgSocketObject.Node.AttemptToReestablish` | core/husarnet/ngsocket.cpp:192-231 | a fresh cookie goes to every known address that is not a Husarnet one |
| `NgSocketObject.Node.OnHello` | core/husarnet/ngsocket.cpp:250-275 | the source is indexed, a missing link-local address filled in, and the hello answered |
| `NgSocketObject.Node.OnHelloReply` | core/husarnet/ngsocket.cpp:277-301 | only the pending cookie from a known peer makes the source the target |
| `NgSocketObject.Node.OnPeriodic` | core/husarnet/ngsocket.cpp:118-142 | falling back to the relay, and the next attempt |
| `NgSocketObject.Node.SendToPeer` | core/husarnet/ngsocket.cpp:155-190 | direct when connected, otherwise relayed, with an attempt when due |
| `NgSocketObject.Node.OnUpperLayerData` | core/husarnet/ngsocket.cpp:144-149 | the peer is looked up or created, then sent to |
| `NgSocketObject.Node.OnData` | core/husarnet/ngsocket.cpp:303-312 | data goes up under the id of the address's owner, or nowhere |
| `NgSocketObject.Node.ChangePeerTargetAddresses` | core/husarnet/ngsocket.cpp:384-391 | a changed address list starts an attempt |
| `NgSocketObject.Node.OnAnnouncement` | core/husarnet/ngsocket.cpp:459-472 | a new link-local address starts an attempt |
| `NgSocketObject.Node.Step` | core/husarnet/ngsocket.cpp:118-472 | every input, through its handler, keeps the index the inverse of the source sets and every pending cookie on record and unanswered |
| `PeerMessages.HelloRoundTrip` | core/husarnet/ngsocket.cpp:696-716 | a serialized hello or reply parses to the same kind, ids and cookie |
| `PeerMessages.AcceptedHelloIsSigned` | core/husarnet/ngsocket.cpp:660-686 | bytes parse as a given hello if and only if they are its fields followed by a valid signature over them under a key that the claimed id derives from |
| `PeerMessages.DataRoundTrip` | core/husarnet/ngsocket.cpp:688-720 | data framing is undone by the parser |
| `PeerMessages.ParsedDataIff` | core/husarnet/ngsocket.cpp:660-693 | data is nothing but the kind byte and its bytes, and other kinds or sizes are refused |
| `HeaderElision.UnicastRoundTripIff` | core/husarnet/multicast_layer.cpp:58-117 | a unicast packet arrives with addresses, next header and payload, true length, hop limit 3, zero class and flow label, if and only if it does not look like a multicast message |
| `HeaderElision.MulticastRoundTrip` | core/husarnet/multicast_layer.cpp:29-105 | a multicast packet arrives at every destination with group, next header and payload, under the sender's id |
| `HeaderElision.NothingElseGoesDown` | core/husarnet/multicast_layer.cpp:76-118 | what goes down, and to whom; a unicast packet from another source does not |
| `HeaderElision.SourceIsThePeer` | core/husarnet/multicast_layer.cpp:21-74 | whatever a peer sends goes up with that peer as its source and this node or a multicast group as its destination, or is dropped, exactly when it is too short or names no group |
| `HeaderElisionCode.MulticastLayer.OnUpperLayerData` | core/husarnet/multicast_layer.cpp:76-118 | what goes down and to whom; only byte 39 of the packet changes, and only for unicast |
| `HeaderElisionCode.MulticastLayer.OnLowerLayerData` | core/husarnet/multicast_layer.cpp:21-74 | the rebuilt packet goes up, malformed messages are dropped |
| `SealedPackets.OpenUndoesSealIff` | core/husarnet/security_layer.cpp:101-294 | as bytes, a sealed payload is opened if and only if the two ends have the same key and it has 1 to 1950 bytes; otherwise nothing comes out. Of the box it takes that opening undoes sealing, with 16 bytes more, and that this payload sealed under the one key does not open under the other |
| `SealedSession.SealsAgree` | core/husarnet/security_layer.cpp:266-294 | the symbolic node sends a data packet exactly when the bytes fit the buffers, and those bytes are that packet, of the same size |
| `SealedSession.UpperSeals` | core/husarnet/security_layer.cpp:250-294 | so for a payload handed down for a peer with a session |
| `SealedSession.OpensAgree` | core/husarnet/security_layer.cpp:72-139 | the symbolic node hands up exactly the payload that opening the bytes gives, or nothing with it |
| `DirectPath.DirectDeliveryIff` | core/husarnet/ngsocket.cpp:155-312 | end to end between linked nodes that have negotiated with each other in any reachable session state, every IPv6 unicast packet goes to the confirmed address and comes out with its fields, if and only if it has at most 1989 bytes, does not look like a multicast message, and both or neither node announce flags; the box is only asked to keep the two ends' keys apart on this payload, if they differ |
| `DirectPath.DirectPathFromBoot` | core/husarnet/ngsocket.cpp:192-301 | any two nodes get from boot to such a state, by a handshake and one hello exchange, with any addresses and a box that meets the laws, so DirectDeliveryIff applies to every packet between them |
| `DirectPath.HelloExchangeLinks` | core/husarnet/ngsocket.cpp:192-301 | whatever both sockets went through before, one attempt, its hello and the reply leave the two ends linked: the sender connected to the address that answered, its own address indexed at the receiver |
| `Ip6Text.AcceptedIff` | core/husarnet/ipaddress.cpp:175-257 | a text is accepted if and only if its leading hex and colon part has no ":::" and either one "::" and at most eight colons or no "::" and seven; so two "::" are always rejected |
| `Ip6Text.InitialWordsDoNotMatter` | core/husarnet/ipaddress.cpp:177-193 | the uninitialised word array never shows in a result |
| `Ip6Text.BlocksCount` | core/husarnet/ipaddress.cpp:195-237 | the block number at the end, from separators, "::" and the colon count |
| `Ip6Forms.EveryShorteningParses` | core/husarnet/ipaddress.cpp:175-257 | every spelling with any zero run of 1 to 8 groups as "::" gives the words of the address |
| `Ip6Forms.FullFormParses` | core/husarnet/ipaddress.cpp:175-257 | so does every spelling in full |
| `IpText.ShortTextParses` | core/husarnet/ipaddress.cpp:380-399 | parse returns the address for every shortened text, never taking it for IPv4 |
| `IpText.FullTextParses` | core/husarnet/ipaddress.cpp:380-399 | and for every full text |
| `IpText.TwoGapsRejected` | core/husarnet/ipaddress.cpp:175-399 | hex and colon text with "::" at two places parses to the unset address |
| `IpText.TextRoundTrip` | core/husarnet/ipaddress.cpp:380-430 | parse undoes toString on every address, IPv4-mapped ones included |
| `IpText.DottedIffMapped` | core/husarnet/ipaddress.cpp:411-430 | the dotted form is written if and only if the address is IPv4-mapped |
| `IpText.PortIsNeeded` | core/husarnet/ipaddress.h:90-99 | text without a colon gives no address |
| `IpText.InetRoundTrip` | core/husarnet/ipaddress.h:79-99 | InetAddress::parse undoes str on every address and port |
| `Ip4Text.NumbersParse` | core/husarnet/ipaddress.cpp:270-378 | one to four numbers between dots, each decimal, hexadecimal or octal as C writes them, are the number whose leading bytes are all but the last part and whose remaining bytes are the last, if and only if every part fits its place and nothing but a blank follows; otherwise they are refused |
| `Ip4Text.FiveRefused` | core/husarnet/ipaddress.cpp:308-320 | five numbers or more are refused |
| `Ip4Text.DottedParses` | core/husarnet/ipaddress.cpp:270-378 | the same for plain decimal numbers |
| `Ip4Text.QuadParses` | core/husarnet/ipaddress.cpp:270-378 | a dotted quad is its big-endian number |
| `Ip4Text.ColonTextRejected` | core/husarnet/ipaddress.cpp:270-330 | hex and colon text is never taken for IPv4 |
| `IpCode.Ip6AddrAton` | core/husarnet/ipaddress.cpp:175-257 | the two loops over a word array equal the specified parser |
| `IpCode.Ip4AddrAton` | core/husarnet/ipaddress.cpp:270-378 | the nested loops equal the specified parser |
| `IpCode.ParseAddress` | core/husarnet/ipaddress.cpp:380-399 | IPv4 first, then IPv6, else the unset address |
| `IpCode.AddressToString` | core/husarnet/ipaddress.cpp:411-430 | the printing loop |
| `Hex.RoundTrip` | core/husarnet/util.cpp:22-62 | decodeHex undoes encodeHex |
| `Hex.ReverseRoundTripIff` | core/husarnet/util.cpp:48-62 | encodeHex undoes decodeHex exactly on lower-case text of even length |
| `Hex.UndecodableIsNothing` | core/husarnet/util.cpp:48-62 | only pairs of lower-case hex digits are decoded, and then all of them |
| `Hex.EncodeHex` | core/husarnet/util.cpp:22-30 | the loop's output decodes to the input |
| `Hex.DecodeHex` | core/husarnet/util.cpp:48-62 | the loop decodes all pairs or nothing |
| `IdentityFile.RoundTrip` | core/husarnet/identity.cpp:65-100 | deserialize undoes serialize on every identity whose id comes from its public key |
| `IdentityFile.ReadIff` | core/husarnet/identity.cpp:82-100 | a file of three words is read if and only if both keys are long enough, and as what |
| `IdentityFile.EmptyFile` | core/husarnet/identity.cpp:82-100 | an empty file is the blank identity |
| `WebSocketFrames.FrameRoundTripIff` | core/husarnet/websocket_message.cpp:9-139 | an encoded frame, masked or not, is parsed back whatever follows it, if and only if its length is not 128 read through a signed char |
| `WebSocketFrames.OnlyPlainIsRead` | core/husarnet/websocket_message.cpp:9-40 | a frame that is not final or has an extension bit is rejected |
| `WebSocketFrames.FramesInOrder` | core/husarnet/websocket.cpp:131-173 | frames in a row are consumed exactly and in order, and the loop goes on behind them |
| `WebSocketFrames.SegmentConsumed` | core/husarnet/websocket.cpp:131-173 | a segment of such frames is consumed whole |
| `WebSocketSegments.AllHeardIff` | core/husarnet/websocket.cpp:112-173 | however a stream of frames is cut into segments, all its messages are acted on if and only if every cut falls between two frames and no frame comes in a later segment than a CLOSE |
| `WebSocketSegments.CutFrameIsLost` | core/husarnet/websocket.cpp:131-141 | the failing input: any frame that arrives in two segments is not heard, wherever it is cut, and its first part yields nothing |
| `WebSocketSegments.CutIff` | core/husarnet/websocket.cpp:112-173 | for any bytes, two segments act as their concatenation if and only if the second alone says what it says behind the leftover of the first, or nothing when the first closes the connection |
| `WebSocketSegments.CutBehindFrames` | core/husarnet/websocket.cpp:112-173 | a segment that is read to its end, without a CLOSE, can be cut off from what follows |
| `WebSocketSegments.FrameEffect` | core/husarnet/websocket.cpp:143-172 | what each kind of frame leads to |
| `WebSocketSegments.PingComesBack` | core/husarnet/websocket.cpp:150-185 | a ping is answered by a pong that the other side reads with the same bytes |
| `WebSocketFrames.MaskTwice` | core/husarnet/websocket_message.cpp:76-80 | masking twice with one key changes nothing |
| `WebSocketFrames.FitsTransport` | core/husarnet/websocket_message.cpp:118-121 | encode never runs out of the transport buffer |
| `WebSocketObject.ParseMessage` | core/husarnet/websocket_message.cpp:9-84 | the iterator code equals the specified parser |
| `WebSocketObject.EncodeMessage` | core/husarnet/websocket_message.cpp:86-139 | the buffer is the specified frame |
| `WebSocketObject.Connection.HandleData` | core/husarnet/websocket.cpp:131-173 | each parsed message has its effect in order, and what is left is what no frame could be read from |
| `WebSocketObject.Connection.HandleSegments` | core/husarnet/websocket.cpp:112-173 | segments one after the other have the effects of the messages heard in them, and none once the connection is closed |
| `HostsFile.SecondRewriteWins` | core/husarnet/ports/fat/port.cpp:72-110 | rewriting with one table and then another equals rewriting with the other alone |
| `HostsFile.UnmanagedSurvive` | core/husarnet/ports/fat/port.cpp:85-99 | unmanaged lines survive any rewrite in order, up to trailing blanks |
| `HostsLines.ForeignLineStays` | core/husarnet/ports/fat/port.cpp:85-99 | every old line whose trimmed form does not end in the marker is in the new file, trimmed, behind exactly as many lines as there were such lines before it |
| `HostsLines.EntryIsNamed` | core/husarnet/ports/fat/port.cpp:101-107 | behind them every entry with a valid name has a line that names its address, in the order of the table, and there are no other lines |
| `HostsLines.OwnLineNames` | core/husarnet/ports/fat/port.cpp:106-106 | the first word of such a line parses to the address of the entry and the second is its name |
| `HostsLines.LinesAreAll` | core/husarnet/ports/fat/port.cpp:83-85 | the lines that are read are the whole text |
| `HostsFile.RewrittenLines` | core/husarnet/ports/fat/port.cpp:72-110 | the new file is those lines followed by one line per valid host name |
| `HostsFile.UpdateHostsFile` | core/husarnet/ports/fat/port.cpp:72-110 | the two loops produce that content |
| `HostsFile.ValidateHostname` | core/husarnet/ports/fat/port.cpp:58-70 | exactly the nonempty names of letters, digits, "_", "-" and "." |

## Left out

- libsodium: signatures, key exchange, boxes and hashes are symbolic terms or function parameters with their promised laws (sixteen bytes of tag cannot tell all keys apart, so a box is asked to separate only the two keys and the payload at hand); random cookies, nonces and key pairs never repeat.
- Sockets, threads, the worker queue and logging: every handler is one atomic step, in the order in which the steps happen.
- The base server, NAT handling and the messages to and from it: only its effect on peers (address lists, relaying) appears.
- Compression: the layer passes everything through in builds without ZSTD.
- Configuration, licensing, events, dashboard, TUN drivers, ports, ESP32 and the command line tool: no hard property.
- SessionTheorems.HandshakeFreshness: holds for fewer than 2^64 acceptances per boot, because helloseq is a 64-bit counter that wraps.
- SessionTheorems.AcceptedOnce: the same bound, for the same reason.
- TcpFraming: the encapsulation without framing passes raw bytes through and is not modelled.
- TcpFraming.TcpConnection.Write: refuses nothing by size, as the source does; the condition on sizes is FrameRoundTripIff.
- Peer objects are values in a map by reference number in NgSocketObject and by id in SecurityLayerObject; PeerContainers has them as objects.
- DirectPath: the session layer and the socket of an end each have their own table, two views of the one container.
- SessionQueueTheorems.CounterExact: a sufficient condition on the traffic alone; the exact one is CounterExactIff.
- SecurityLayerObject.SecurityLayer.OnLowerLayerData: the latency that a heartbeat reply updates is not a field of the model; no session property reads it.
- SecurityLayerObject.SecurityLayer.GetLatency: for the same reason neither the stored ident nor the returned number appears.
- SecurityLayerObject.SecurityLayer.PeriodicPeer: the session half of periodicPeer; the socket half, which clears `connected`, is NgSocketObject.Node.OnPeriodic.
- NgSocketObject.Node.AttemptToReestablish: the set of destinations, without their order and without the second datagram to the active address.
- NgSocketObject.Node.SendToPeer: without the information request to the base for an inactive peer.
- NgSocketObject.Node.OnAnnouncement: starts after the packet has been recognised as a local announcement of the right size.
- HttpObject.HTTPMessage.Encode: without the capacity of the output buffer; the iteration order of the header map is a parameter.
- HttpObject.HTTPMessage.Parse: the cursor is an offset, so invalidation of the source's iterator when its buffer grows is not modelled; a Content-Length that is no number counts as zero.
- HTTP: one message per parser object.
- WebSocketObject.Connection.HandleData: a length beyond 128 that overflows the message object is a separate outcome, not followed further, and nothing is followed after a CLOSE frame.
- WebSocket: connection life cycle and handshake; buffers are shorter than 2^63 bytes.
- IpText.InetRoundTrip: overflow of int inside atoi is not modelled; printed ports do not reach it.
- Identity: key generation and the storage of the file.
- HostsFile: the host table is any list of entries, not only a sorted map without duplicates.
