/** What every single move of the first key exchange does, between two sides that run these programs. */
module HandshakeSteps {
  import opened Octets
  import opened Wrappers
  import opened Cipher
  import opened Wire
  import opened Packet
  import opened Identification
  import KexInit
  import Mpint
  import opened KeyExchange
  import UserAuth
  import opened Handshake

  // ----- the states of the two programs -----

  /** The directions as they start after the switch; three packets have gone each way. */
  function C2sStart(v: Outcome): Half {
    Half(true, v.keys.c2sKey, v.keys.c2sMac, v.keys.c2sIv, 3)
  }

  function S2cStart(v: Outcome): Half {
    Half(true, v.keys.s2cKey, v.keys.s2cMac, v.keys.s2cIv, 3)
  }

  /** The client after i moves. */
  function ClientAt(g: Config, v: Outcome, i: nat): Side {
    var out := if i < 3 then Plain(0) else if i < 5 then Plain(1) else if i < 7 then Plain(2) else Plain(3);
    var inp := if i < 4 then Plain(0) else if i < 6 then Plain(1) else Plain(2);
    Side(i, if i >= 8 then C2sStart(v) else out, if i >= 8 then S2cStart(v) else inp,
         if i < 2 then [] else g.serverIdent, if i < 4 then [] else g.serverKexInit,
         if i < 6 then Zeros32() else v.secret, if i < 6 then Zeros32() else v.hash,
         if i < 8 then None else Some(v.keys))
  }

  /** The server after j moves. */
  function ServerAt(g: Config, v: Outcome, j: nat): Side {
    var out := if j < 4 then Plain(0) else if j < 6 then Plain(1) else if j < 7 then Plain(2) else Plain(3);
    var inp := if j < 3 then Plain(0) else if j < 5 then Plain(1) else Plain(2);
    Side(j, if j >= 8 then S2cStart(v) else out, if j >= 8 then C2sStart(v) else inp,
         if j < 1 then [] else g.clientIdent, if j < 3 then [] else g.clientKexInit,
         if j < 5 then Zeros32() else v.secret, if j < 5 then Zeros32() else v.hash,
         if j < 8 then None else Some(v.keys))
  }

  /** A packet sent before encryption, when it can be sent at all. */
  function PlainPacket(s: Suite, n: uint32, payload: Bytes, padding: Bytes): Bytes {
    if Sendable(Plain(n), payload, padding) then Encode(s, Plain(n), payload, padding) else []
  }

  /** What the client puts on the wire with its k-th send: the line, then three plain packets. */
  function ClientMsg(g: Config, v: Outcome, k: nat): Bytes
    requires k < 4
  {
    if k == 0 then Announced(g.clientIdent)
    else PlainPacket(g.suite, k - 1, ClientPayload(g, v, k - 1), ClientPad(g, k - 1))
  }

  function ServerMsg(g: Config, v: Outcome, k: nat): Bytes
    requires k < 4
  {
    if k == 0 then Announced(g.serverIdent)
    else PlainPacket(g.suite, k - 1, ServerPayload(g, v, k - 1), ServerPad(g, k - 1))
  }

  function ClientItems(g: Config, v: Outcome, k: nat): seq<Item> {
    if k == 0 then [] else [Item(false, ClientPayload(g, v, k - 1))]
  }

  function ServerItems(g: Config, v: Outcome, k: nat): seq<Item> {
    if k == 0 then [] else [Item(false, ServerPayload(g, v, k - 1))]
  }

  // ----- sends -----

  /** A plain send advances the sequence number and nothing else of the direction. */
  lemma {:induction false} PlainSend(g: Config, x: Side, n: uint32, input: Bytes, payload: Bytes, padding: Bytes)
    requires x.out == Plain(n) && n < 3 && Sendable(Plain(n), payload, padding)
    ensures SendMove(g, x, input, payload, padding)
         == Some(Move(x.(pc := x.pc + 1, out := Plain(n + 1)), input, PlainPacket(g.suite, n, payload, padding),
                      [Item(false, payload)], []))
  {
    hide Frame;
    PlainNext(n, 5 + |payload| + |padding|);
  }

  lemma {:induction false} PlainNext(n: uint32, len: nat)
    requires n < 3
    ensures Next(Plain(n), len) == Plain(n + 1)
  {
  }

  lemma {:induction false} ClientSendsLine(g: Config, v: Outcome, input: Bytes)
    ensures ClientMove(g, ClientAt(g, v, 0), input)
         == Some(Move(ClientAt(g, v, 1), input, ClientMsg(g, v, 0), ClientItems(g, v, 0), []))
  {
  }

  lemma {:induction false} ServerSendsLine(g: Config, v: Outcome, input: Bytes)
    ensures ServerMove(g, ServerAt(g, v, 1), input)
         == Some(Move(ServerAt(g, v, 2), input, ServerMsg(g, v, 0), ServerItems(g, v, 0), []))
  {
  }

  // The client's packets go out on its moves 2, 4 and 6.

  lemma {:induction false} ClientSends1(g: Config, v: Outcome, input: Bytes)
    requires Sendable(Plain(0), g.clientKexInit, ClientPad(g, 0))
    ensures ClientMove(g, ClientAt(g, v, 2), input)
         == Some(Move(ClientAt(g, v, 3), input, ClientMsg(g, v, 1), ClientItems(g, v, 1), []))
  {
    var x := ClientAt(g, v, 2);
    PlainSend(g, x, 0, input, g.clientKexInit, ClientPad(g, 0));
  }

  lemma {:induction false} ClientSends2(g: Config, v: Outcome, input: Bytes)
    requires Sendable(Plain(1), v.init, ClientPad(g, 1)) && v.init == InitPayload(g)
    ensures ClientMove(g, ClientAt(g, v, 4), input)
         == Some(Move(ClientAt(g, v, 5), input, ClientMsg(g, v, 2), ClientItems(g, v, 2), []))
  {
    var x := ClientAt(g, v, 4);
    PlainSend(g, x, 1, input, v.init, ClientPad(g, 1));
  }

  lemma {:induction false} ClientSends3(g: Config, v: Outcome, input: Bytes)
    requires Sendable(Plain(2), [MSG_NEWKEYS], ClientPad(g, 2))
    ensures ClientMove(g, ClientAt(g, v, 6), input)
         == Some(Move(ClientAt(g, v, 7), input, ClientMsg(g, v, 3), ClientItems(g, v, 3), []))
  {
    var x := ClientAt(g, v, 6);
    PlainSend(g, x, 2, input, [MSG_NEWKEYS], ClientPad(g, 2));
  }

  // The server's packets go out on its moves 3, 5 and 6.

  lemma {:induction false} ServerSends1(g: Config, v: Outcome, input: Bytes)
    requires Sendable(Plain(0), g.serverKexInit, ServerPad(g, 0))
    ensures ServerMove(g, ServerAt(g, v, 3), input)
         == Some(Move(ServerAt(g, v, 4), input, ServerMsg(g, v, 1), ServerItems(g, v, 1), []))
  {
    hide SendMove, PlainPacket;
    var x := ServerAt(g, v, 3);
    PlainSend(g, x, 0, input, g.serverKexInit, ServerPad(g, 0));
  }

  lemma {:induction false} ServerSends2(g: Config, v: Outcome, input: Bytes)
    requires Sendable(Plain(1), v.reply, ServerPad(g, 1)) && v.reply == ReplyPayload(g, v.hash)
    ensures ServerMove(g, ServerAt(g, v, 5), input)
         == Some(Move(ServerAt(g, v, 6), input, ServerMsg(g, v, 2), ServerItems(g, v, 2), []))
  {
    hide SendMove, PlainPacket;
    var x := ServerAt(g, v, 5);
    PlainSend(g, x, 1, input, v.reply, ServerPad(g, 1));
  }

  lemma {:induction false} ServerSends3(g: Config, v: Outcome, input: Bytes)
    requires Sendable(Plain(2), [MSG_NEWKEYS], ServerPad(g, 2))
    ensures ServerMove(g, ServerAt(g, v, 6), input)
         == Some(Move(ServerAt(g, v, 7), input, ServerMsg(g, v, 3), ServerItems(g, v, 3), []))
  {
    var x := ServerAt(g, v, 6);
    PlainSend(g, x, 2, input, [MSG_NEWKEYS], ServerPad(g, 2));
  }

  // ----- receives -----

  /** A plain packet is taken as it was sent. */
  lemma {:induction false} PlainDecodes(s: Suite, n: uint32, payload: Bytes, padding: Bytes, rest: Bytes, max: nat)
    requires n < 3 && Sendable(Plain(n), payload, padding) && |payload| <= max
    ensures Decode(s, Plain(n), PlainPacket(s, n, payload, padding) + rest, max) == Some(Received(payload, rest, Plain(n + 1)))
  {
    RoundTrip(s, Plain(n), payload, padding, rest, max);
    PlainNext(n, |Frame(payload, padding)|);
  }

  lemma {:induction false} ClientTakesLine(g: Config, v: Outcome, rest: Bytes)
    requires GoodIdent(g.serverIdent)
    ensures ClientMove(g, ClientAt(g, v, 1), ServerMsg(g, v, 0) + rest)
         == Some(Move(ClientAt(g, v, 2), rest, [], [], ServerItems(g, v, 0)))
  {
    FindIdentOf(g.serverIdent, rest);
  }

  lemma {:induction false} ServerTakesLine(g: Config, v: Outcome, rest: Bytes)
    requires GoodIdent(g.clientIdent)
    ensures ServerMove(g, ServerAt(g, v, 0), ClientMsg(g, v, 0) + rest)
         == Some(Move(ServerAt(g, v, 1), rest, [], [], ClientItems(g, v, 0)))
  {
    FindIdentOf(g.clientIdent, rest);
  }

  /** Either side takes a KEXINIT that it accepts. */
  lemma {:induction false} TakesKexInit(g: Config, x: Side, input: Bytes, accepts: Bytes -> bool, r: Received)
    requires Decode(g.suite, x.inp, input, MAX_PACKET_LEN) == Some(r)
    requires r.payload != [] && r.payload[0] == KexInit.MSG_KEXINIT && |r.payload| <= MAX_KEXINIT_LEN && accepts(r.payload)
    ensures TakeKexInit(g, x, input, accepts)
         == Some(Move(Took(x, r).(peerKexInit := r.payload), r.rest, [], [], [Item(x.inp.encrypted, r.payload)]))
  {
  }

  lemma {:induction false} ServerKexInitTaken(g: Config, v: Outcome, rest: Bytes, accepts: Bytes -> bool)
    requires Sendable(Plain(0), g.serverKexInit, ServerPad(g, 0)) && accepts(g.serverKexInit)
    requires g.serverKexInit[0] == KexInit.MSG_KEXINIT && |g.serverKexInit| <= MAX_KEXINIT_LEN
    ensures TakeKexInit(g, ClientAt(g, v, 3), ServerMsg(g, v, 1) + rest, accepts)
         == Some(Move(ClientAt(g, v, 4), rest, [], [], ServerItems(g, v, 1)))
  {
    PlainDecodes(g.suite, 0, g.serverKexInit, ServerPad(g, 0), rest, MAX_PACKET_LEN);
    TakesKexInit(g, ClientAt(g, v, 3), ServerMsg(g, v, 1) + rest, accepts, Received(g.serverKexInit, rest, Plain(1)));
  }

  lemma {:induction false} ClientKexInitTaken(g: Config, v: Outcome, rest: Bytes, accepts: Bytes -> bool)
    requires Sendable(Plain(0), g.clientKexInit, ClientPad(g, 0)) && accepts(g.clientKexInit)
    requires g.clientKexInit[0] == KexInit.MSG_KEXINIT && |g.clientKexInit| <= MAX_KEXINIT_LEN
    ensures TakeKexInit(g, ServerAt(g, v, 2), ClientMsg(g, v, 1) + rest, accepts)
         == Some(Move(ServerAt(g, v, 3), rest, [], [], ClientItems(g, v, 1)))
  {
    PlainDecodes(g.suite, 0, g.clientKexInit, ClientPad(g, 0), rest, MAX_PACKET_LEN);
    TakesKexInit(g, ServerAt(g, v, 2), ClientMsg(g, v, 1) + rest, accepts, Received(g.clientKexInit, rest, Plain(1)));
  }

  lemma {:induction false} ClientTakesServerKexInit(g: Config, v: Outcome, rest: Bytes)
    requires Sendable(Plain(0), g.serverKexInit, ServerPad(g, 0))
    requires g.serverKexInit[0] == KexInit.MSG_KEXINIT && |g.serverKexInit| <= MAX_KEXINIT_LEN
    requires KexInit.ClientAccepts(g.serverKexInit)
    ensures ClientMove(g, ClientAt(g, v, 3), ServerMsg(g, v, 1) + rest)
         == Some(Move(ClientAt(g, v, 4), rest, [], [], ServerItems(g, v, 1)))
  {
    hide TakeKexInit, KexInit.ClientAccepts, PlainPacket;
    var x, input := ClientAt(g, v, 3), ServerMsg(g, v, 1) + rest;
    assert ClientMove(g, x, input) == TakeKexInit(g, x, input, KexInit.ClientAccepts);
    ServerKexInitTaken(g, v, rest, KexInit.ClientAccepts);
  }

  lemma {:induction false} ServerTakesClientKexInit(g: Config, v: Outcome, rest: Bytes)
    requires Sendable(Plain(0), g.clientKexInit, ClientPad(g, 0))
    requires g.clientKexInit[0] == KexInit.MSG_KEXINIT && |g.clientKexInit| <= MAX_KEXINIT_LEN
    requires KexInit.ServerAccepts(g.clientKexInit)
    ensures ServerMove(g, ServerAt(g, v, 2), ClientMsg(g, v, 1) + rest)
         == Some(Move(ServerAt(g, v, 3), rest, [], [], ClientItems(g, v, 1)))
  {
    hide TakeKexInit, KexInit.ServerAccepts, PlainPacket;
    var x, input := ServerAt(g, v, 2), ClientMsg(g, v, 1) + rest;
    assert ServerMove(g, x, input) == TakeKexInit(g, x, input, KexInit.ServerAccepts);
    ClientKexInitTaken(g, v, rest, KexInit.ServerAccepts);
  }

  lemma {:induction false} InitReads(g: Config)
    ensures ReadString(InitPayload(g), 1) == Some(View(g.suite.dhPublic(g.clientSecret), 37))
  {
    var p, pub := InitPayload(g), g.suite.dhPublic(g.clientSecret);
    assert p[1..] == Str(pub) + [];
    ReadStringFrom(p, 1, pub, []);
  }

  /** The server computes secret and hash from the client's message. */
  lemma {:induction false} ServerComputes(g: Config, x: Side, input: Bytes, r: Received, pub: Digest, secret: Digest, hash: Digest)
    requires Decode(g.suite, x.inp, input, 2048) == Some(r)
    requires r.payload != [] && r.payload[0] == MSG_KEX_ECDH_INIT && ReadString(r.payload, 1) == Some(View(pub, 37))
    requires g.suite.dhShared(g.serverSecret, pub) == Some(secret)
    requires Hash(g, Transcript(x.peerIdent, g.serverIdent, x.peerKexInit, g.serverKexInit, HostBlob(g),
                                pub, g.suite.dhPublic(g.serverSecret), secret)) == Some(hash)
    ensures ServerTakesInit(g, x, input)
         == Some(Move(Took(x, r).(secret := secret, sessionId := hash), r.rest, [], [], [Item(x.inp.encrypted, r.payload)]))
  {
  }

  lemma {:induction false} ServerTakesClientInit(g: Config, v: Outcome, rest: Bytes)
    requires v.init == InitPayload(g) && Sendable(Plain(1), v.init, ClientPad(g, 1))
    requires g.suite.dhShared(g.serverSecret, g.suite.dhPublic(g.clientSecret)) == Some(v.secret)
    requires Hash(g, TheTranscript(g, v.secret)) == Some(v.hash)
    ensures ServerMove(g, ServerAt(g, v, 4), ClientMsg(g, v, 2) + rest)
         == Some(Move(ServerAt(g, v, 5), rest, [], [], ClientItems(g, v, 2)))
  {
    PlainDecodes(g.suite, 1, v.init, ClientPad(g, 1), rest, 2048);
    InitReads(g);
    ServerComputes(g, ServerAt(g, v, 4), ClientMsg(g, v, 2) + rest, Received(v.init, rest, Plain(2)),
                   g.suite.dhPublic(g.clientSecret), v.secret, v.hash);
  }

  lemma {:induction false} ReplyReads(g: Config, hash: Digest)
    ensures ReadReply(ReplyPayload(g, hash)) == Some(Reply(HostBlob(g), g.suite.dhPublic(g.serverSecret),
                                                           UserAuth.Blob(g.suite.edSign(g.hostSecret, hash))))
  {
    ReplyFieldsRead(HostBlob(g), g.suite.dhPublic(g.serverSecret), UserAuth.Blob(g.suite.edSign(g.hostSecret, hash)));
  }

  lemma {:induction false} ReplyFieldsRead(host: Field, pub: Digest, sig: Field)
    requires 0 < |host| <= MAX_HOST_KEY_BLOB_LEN && sig != []
    ensures ReadReply([MSG_KEX_ECDH_REPLY] + Str(host) + Str(pub) + Str(sig)) == Some(Reply(host, pub, sig))
  {
    hide Str;
    var p := [MSG_KEX_ECDH_REPLY] + Str(host) + Str(pub) + Str(sig);
    assert p[1..] == Str(host) + (Str(pub) + Str(sig));
    ReadStringFrom(p, 1, host, Str(pub) + Str(sig));
    ReadStringFrom(p, 5 + |host|, pub, Str(sig));
    assert Str(sig) == Str(sig) + [];
    ReadStringFrom(p, 41 + |host|, sig, []);
  }

  lemma {:induction false} BlobReads(data: Bytes)
    requires |data| <= 64
    ensures ReadString(UserAuth.Blob(data), 0) == Some(View(UserAuth.Ed25519(), 15))
    ensures ReadString(UserAuth.Blob(data), 15) == Some(View(data, 19 + |data|))
  {
    var b := UserAuth.Blob(data);
    assert b[0..] == Str(UserAuth.Ed25519()) + Str(data);
    ReadStringFrom(b, 0, UserAuth.Ed25519(), Str(data));
    assert Str(data) + [] == Str(data);
    ReadStringFrom(b, 15, data, []);
  }

  lemma {:induction false} HostVerifies(g: Config, hash: Digest)
    requires g.suite.Lawful()
    ensures VerifyHost(g.suite, HostBlob(g), UserAuth.Blob(g.suite.edSign(g.hostSecret, hash)), hash)
  {
    BlobReads(g.suite.edPublic(g.hostSecret));
    BlobReads(g.suite.edSign(g.hostSecret, hash));
  }

  /** The awaited message, arriving first, is taken. */
  lemma {:induction false} WaitForFirst(g: Config, h: Half, input: Bytes, wanted: byte, max: nat, n: nat, r: Received)
    requires n > 0 && Decode(g.suite, h, input, MAX_PACKET_LEN) == Some(r)
    requires r.payload != [] && r.payload[0] == wanted != KexInit.MSG_KEXINIT && |r.payload| <= max
    ensures WaitFor(g, h, input, wanted, max, n) == Some(r)
  {
  }

  /** The client computes secret and hash from the server's reply, and the host's signature verifies. */
  lemma {:induction false} ClientComputes(g: Config, x: Side, input: Bytes, r: Received, reply: Reply, secret: Digest, hash: Digest)
    requires WaitFor(g, x.inp, input, MSG_KEX_ECDH_REPLY, 2048, g.waitLimit) == Some(r)
    requires ReadReply(r.payload) == Some(reply)
    requires g.suite.dhShared(g.clientSecret, reply.serverPublic) == Some(secret)
    requires Hash(g, Transcript(g.clientIdent, x.peerIdent, g.clientKexInit, x.peerKexInit, reply.hostKey,
                                g.suite.dhPublic(g.clientSecret), reply.serverPublic, secret)) == Some(hash)
    requires VerifyHost(g.suite, reply.hostKey, reply.signature, hash)
    ensures ClientTakesReply(g, x, input)
         == Some(Move(Took(x, r).(secret := secret, sessionId := hash), r.rest, [], [], [Item(x.inp.encrypted, r.payload)]))
  {
  }

  lemma {:induction false} ClientTakesServerReply(g: Config, v: Outcome, rest: Bytes)
    requires g.suite.Lawful() && g.waitLimit > 0
    requires v.reply == ReplyPayload(g, v.hash) && Sendable(Plain(1), v.reply, ServerPad(g, 1))
    requires g.suite.dhShared(g.clientSecret, g.suite.dhPublic(g.serverSecret)) == Some(v.secret)
    requires Hash(g, TheTranscript(g, v.secret)) == Some(v.hash)
    ensures ClientMove(g, ClientAt(g, v, 5), ServerMsg(g, v, 2) + rest)
         == Some(Move(ClientAt(g, v, 6), rest, [], [], ServerItems(g, v, 2)))
  {
    hide WaitFor, ClientTakesReply, Decode, Hash, PlainPacket;
    var x, input, r := ClientAt(g, v, 5), ServerMsg(g, v, 2) + rest, Received(v.reply, rest, Plain(2));
    PlainDecodes(g.suite, 1, v.reply, ServerPad(g, 1), rest, MAX_PACKET_LEN);
    WaitForFirst(g, x.inp, input, MSG_KEX_ECDH_REPLY, 2048, g.waitLimit, r);
    ReplyAnswers(g, x, input, v, r);
  }

  lemma {:induction false} ReplyAnswers(g: Config, x: Side, input: Bytes, v: Outcome, r: Received)
    requires g.suite.Lawful() && r.payload == v.reply == ReplyPayload(g, v.hash)
    requires WaitFor(g, x.inp, input, MSG_KEX_ECDH_REPLY, 2048, g.waitLimit) == Some(r)
    requires x.peerIdent == g.serverIdent && x.peerKexInit == g.serverKexInit
    requires g.suite.dhShared(g.clientSecret, g.suite.dhPublic(g.serverSecret)) == Some(v.secret)
    requires Hash(g, TheTranscript(g, v.secret)) == Some(v.hash)
    ensures ClientTakesReply(g, x, input)
         == Some(Move(Took(x, r).(secret := v.secret, sessionId := v.hash), r.rest, [], [], [Item(x.inp.encrypted, r.payload)]))
  {
    ReplyReads(g, v.hash);
    HostVerifies(g, v.hash);
    ClientComputes(g, x, input, r, ReadReply(v.reply).value, v.secret, v.hash);
  }

  /** Both ends switch to the same two directions. */
  lemma {:induction false} Switched(g: Config, x: Side, v: Outcome)
    requires x.secret == v.secret && x.sessionId == v.hash && v.keys == Keys(g.suite, v.secret, v.hash)
    requires x.out.seqNo == 3 && x.inp.seqNo == 3
    ensures SwitchClient(g, x) == x.(keys := Some(v.keys), out := C2sStart(v), inp := S2cStart(v))
    ensures SwitchServer(g, x) == x.(keys := Some(v.keys), out := S2cStart(v), inp := C2sStart(v))
  {
  }

  lemma {:induction false} ClientSwitches(g: Config, x: Side, input: Bytes, r: Received, v: Outcome)
    requires WaitFor(g, x.inp, input, MSG_NEWKEYS, 2048, g.waitLimit) == Some(r)
    requires x.secret == v.secret && x.sessionId == v.hash && v.keys == Keys(g.suite, v.secret, v.hash)
    requires x.out.seqNo == 3 && r.half.seqNo == 3
    ensures ClientTakesNewKeys(g, x, input)
         == Some(Move(Took(x, r).(keys := Some(v.keys), out := C2sStart(v), inp := S2cStart(v)), r.rest, [], [],
                      [Item(x.inp.encrypted, r.payload)]))
  {
    Switched(g, Took(x, r), v);
  }

  lemma {:induction false} ServerSwitches(g: Config, x: Side, input: Bytes, r: Received, v: Outcome)
    requires Decode(g.suite, x.inp, input, 64) == Some(r) && r.payload != [] && r.payload[0] == MSG_NEWKEYS
    requires x.secret == v.secret && x.sessionId == v.hash && v.keys == Keys(g.suite, v.secret, v.hash)
    requires x.out.seqNo == 3 && r.half.seqNo == 3
    ensures ServerTakesNewKeys(g, x, input)
         == Some(Move(Took(x, r).(keys := Some(v.keys), out := S2cStart(v), inp := C2sStart(v)), r.rest, [], [],
                      [Item(x.inp.encrypted, r.payload)]))
  {
    Switched(g, Took(x, r), v);
  }

  lemma {:induction false} ClientTakesServerNewKeys(g: Config, v: Outcome, rest: Bytes)
    requires g.waitLimit > 0 && Sendable(Plain(2), [MSG_NEWKEYS], ServerPad(g, 2))
    requires v.keys == Keys(g.suite, v.secret, v.hash)
    ensures ClientMove(g, ClientAt(g, v, 7), ServerMsg(g, v, 3) + rest)
         == Some(Move(ClientAt(g, v, 8), rest, [], [], ServerItems(g, v, 3)))
  {
    hide WaitFor, ClientTakesNewKeys, Decode, Keys, PlainPacket;
    var x, input, r := ClientAt(g, v, 7), ServerMsg(g, v, 3) + rest, Received([MSG_NEWKEYS], rest, Plain(3));
    PlainDecodes(g.suite, 2, [MSG_NEWKEYS], ServerPad(g, 2), rest, MAX_PACKET_LEN);
    WaitForFirst(g, x.inp, input, MSG_NEWKEYS, 2048, g.waitLimit, r);
    ClientSwitches(g, x, input, r, v);
  }

  lemma {:induction false} ServerTakesClientNewKeys(g: Config, v: Outcome, rest: Bytes)
    requires Sendable(Plain(2), [MSG_NEWKEYS], ClientPad(g, 2))
    requires v.keys == Keys(g.suite, v.secret, v.hash)
    ensures ServerMove(g, ServerAt(g, v, 7), ClientMsg(g, v, 3) + rest)
         == Some(Move(ServerAt(g, v, 8), rest, [], [], ClientItems(g, v, 3)))
  {
    hide ServerTakesNewKeys, Decode, Keys, PlainPacket;
    var x, input, r := ServerAt(g, v, 7), ClientMsg(g, v, 3) + rest, Received([MSG_NEWKEYS], rest, Plain(3));
    PlainDecodes(g.suite, 2, [MSG_NEWKEYS], ClientPad(g, 2), rest, 64);
    ServerSwitches(g, x, input, r, v);
  }

  /** With nothing on the wire, a receive waits. */
  lemma {:induction false} ClientWaits(g: Config, x: Side)
    requires x.pc in {1, 3, 5, 7}
    ensures ClientMove(g, x, []) == None
  {
  }

  lemma {:induction false} ServerWaits(g: Config, x: Side)
    requires x.pc in {0, 2, 4, 7}
    ensures ServerMove(g, x, []) == None
  {
  }

  // ----- what a configuration that is ready provides -----

  lemma {:induction false} KexInitSize(cookie: Block, lists: seq<Field>)
    requires |lists| == 10 && forall l :: l in lists ==> |l| <= 59
    ensures 22 <= |KexInit.Payload(cookie, lists)| <= 652 && KexInit.Payload(cookie, lists)[0] == KexInit.MSG_KEXINIT
  {
    KexInit.FieldsLength(lists);
  }

  lemma {:induction false} KexInitsFit(g: Config)
    requires KexInitsBuilt(g)
    ensures 22 <= |g.clientKexInit| <= 652 && g.clientKexInit[0] == KexInit.MSG_KEXINIT
    ensures 22 <= |g.serverKexInit| <= 652 && g.serverKexInit[0] == KexInit.MSG_KEXINIT
    ensures KexInit.ServerAccepts(g.clientKexInit) && KexInit.ClientAccepts(g.serverKexInit)
  {
    var a: Block, b: Block :|
      && g.clientKexInit == KexInit.Payload(a, KexInit.ClientLists())
      && g.serverKexInit == KexInit.Payload(b, KexInit.ServerLists());
    KexInitSize(a, KexInit.ClientLists());
    KexInitSize(b, KexInit.ServerLists());
    KexInit.BothSidesAccept(a);
    KexInit.BothSidesAccept(b);
  }

  lemma {:induction false} HashInputBound(t: Transcript)
    requires |t.clientIdent| <= 254 && |t.serverIdent| <= 254
    requires |t.clientKexInit| <= 652 && |t.serverKexInit| <= 652
    requires |t.hostKey| <= 64 && |t.clientPublic| <= 64 && |t.serverPublic| <= 64
    ensures |HashInput(t)| <= HASH_INPUT_MAX
  {
    var a, b, c := t.Strings()[..4], t.Strings()[4..], t.Strings();
    FieldsBound(a, 652);
    FieldsBound(b, 64);
    FieldsJoin(a, b);
    assert a + b == c;
    Mpint.BodyLength(t.secret);
  }

  lemma {:induction false} FieldsBound(lists: seq<Field>, m: nat)
    requires forall i :: 0 <= i < |lists| ==> |lists[i]| <= m
    ensures |KexInit.Fields(lists)| <= |lists| * (4 + m)
  {
    if lists != [] {
      FieldsBound(lists[1..], m);
      MulStep(|lists|, 4 + m);
    }
  }

  lemma MulStep(n: int, k: int)
    ensures n * k == k + (n - 1) * k
  {
  }

  lemma {:induction false} FieldsJoin(a: seq<Field>, b: seq<Field>)
    ensures KexInit.Fields(a + b) == KexInit.Fields(a) + KexInit.Fields(b)
  {
    if a == [] {
      assert a + b == b && [] + KexInit.Fields(b) == KexInit.Fields(b);
    } else {
      FieldsJoin(a[1..], b);
      TailOfJoin(a, b);
      Regroup(Str(a[0]), KexInit.Fields(a[1..]), KexInit.Fields(b));
    }
  }

  lemma TailOfJoin(a: seq<Field>, b: seq<Field>)
    requires a != []
    ensures (a + b)[0] == a[0] && (a + b)[1..] == a[1..] + b
  {
  }

  /** The transcript always fits the hash buffer. */
  lemma {:induction false} TranscriptFits(g: Config, secret: Digest)
    requires GoodIdent(g.clientIdent) && GoodIdent(g.serverIdent)
    requires |g.clientKexInit| <= 652 && |g.serverKexInit| <= 652
    ensures var t := TheTranscript(g, secret); Hash(g, t) == Some(g.suite.sha(HashInput(t)))
  {
    HashInputBound(TheTranscript(g, secret));
  }
}
