/**
 * The first key exchange between this client and this server, from the identification lines to the switch to encryption.
 * Each side is a sequential program; a move is one send or one receive, and moves of the two sides interleave freely.
 */
module Handshake {
  import opened Octets
  import opened Wrappers
  import opened Cipher
  import opened Wire
  import opened Packet
  import opened Identification
  import KexInit
  import Mpint
  import opened KeyExchange
  import UserAuth

  const MSG_NEWKEYS: byte := 21
  const MSG_KEX_ECDH_INIT: byte := 30
  const MSG_KEX_ECDH_REPLY: byte := 31
  const MAX_KEXINIT_LEN := 32768
  const MAX_HOST_KEY_BLOB_LEN := 2048

  const WAIT_LIMIT := 32
  const NO_MESSAGE: byte := 255

  /** What both programs are given: names, the KEXINIT each has built, what is drawn at random, and how many packets to skip. */
  datatype Config = Config(
    suite: Suite, clientIdent: Field, serverIdent: Field, clientKexInit: Field, serverKexInit: Field,
    clientSecret: Digest, serverSecret: Digest, hostSecret: Digest, clientPads: seq<Bytes>, serverPads: seq<Bytes>,
    waitLimit: nat)

  /** A packet as it is seen at either end: the mode it was handled in and its payload. */
  datatype Item = Item(encrypted: bool, payload: Bytes)

  /** One side: where its program stands, its two directions, and what it has stored. */
  datatype Side = Side(
    pc: nat, out: Half, inp: Half, peerIdent: Field, peerKexInit: Field, secret: Digest, sessionId: Digest, keys: Option<KeySet>)

  /** The effect of a move: the new side, the input left, the bytes put on the wire, and the packets sent and taken. */
  datatype Move = Move(side: Side, rest: Bytes, bytes: Bytes, sent: seq<Item>, got: seq<Item>)

  // ----- sending and receiving -----

  function SendMove(g: Config, x: Side, input: Bytes, payload: Bytes, padding: Bytes): Option<Move> {
    if !Sendable(x.out, payload, padding) then None
    else
      var next := x.(pc := x.pc + 1, out := Next(x.out, 5 + |payload| + |padding|));
      Some(Move(next, input, Encode(g.suite, x.out, payload, padding), [Item(x.out.encrypted, payload)], []))
  }

  /** The side after taking one packet, before its program looks at the payload. */
  function Took(x: Side, r: Received): Side {
    x.(pc := x.pc + 1, inp := r.half)
  }

  function TookMove(x: Side, y: Side, r: Received): Option<Move> {
    Some(Move(y, r.rest, [], [], [Item(x.inp.encrypted, r.payload)]))
  }

  function SendLine(x: Side, input: Bytes, ident: Bytes): Option<Move> {
    Some(Move(x.(pc := x.pc + 1), input, Announced(ident), [], []))
  }

  function TakeLine(x: Side, input: Bytes): Option<Move> {
    match FindIdent(input, MAX_BANNER_LINES)
    case None => None
    case Some(line) =>
      if |line.text| > MAX_IDENT_LEN then None
      else Some(Move(x.(pc := x.pc + 1, peerIdent := line.text), line.rest, [], [], []))
  }

  /** derive_transport_keys, and key_exchange_complete for both directions at once. Sequence numbers run on. */
  function SwitchClient(g: Config, x: Side): Side {
    var k := Keys(g.suite, x.secret, x.sessionId);
    x.(keys := Some(k),
       out := Half(true, k.c2sKey, k.c2sMac, k.c2sIv, x.out.seqNo),
       inp := Half(true, k.s2cKey, k.s2cMac, k.s2cIv, x.inp.seqNo))
  }

  function SwitchServer(g: Config, x: Side): Side {
    var k := Keys(g.suite, x.secret, x.sessionId);
    x.(keys := Some(k),
       out := Half(true, k.s2cKey, k.s2cMac, k.s2cIv, x.out.seqNo),
       inp := Half(true, k.c2sKey, k.c2sMac, k.c2sIv, x.inp.seqNo))
  }

  // ----- payloads -----

  function InitPayload(g: Config): (p: Bytes)
    ensures |p| == 37
  {
    [MSG_KEX_ECDH_INIT] + Str(g.suite.dhPublic(g.clientSecret))
  }

  function HostBlob(g: Config): (b: Bytes)
    ensures |b| == 51
  {
    UserAuth.Blob(g.suite.edPublic(g.hostSecret))
  }

  function ReplyPayload(g: Config, sessionId: Digest): (p: Bytes)
    ensures |p| == 179
  {
    var signature := g.suite.edSign(g.hostSecret, sessionId);
    [MSG_KEX_ECDH_REPLY] + Str(HostBlob(g)) + Str(g.suite.dhPublic(g.serverSecret)) + Str(UserAuth.Blob(signature))
  }

  function Hash(g: Config, t: Transcript): Option<Digest> {
    if |HashInput(t)| <= HASH_INPUT_MAX then Some(g.suite.sha(HashInput(t))) else None
  }

  // ----- the client's program -----

  function ClientPad(g: Config, k: nat): Bytes {
    if k < |g.clientPads| then g.clientPads[k] else []
  }

  function ServerPad(g: Config, k: nat): Bytes {
    if k < |g.serverPads| then g.serverPads[k] else []
  }

  /**
   * wait_for_message: skips other messages, at most n packets in all. A KEXINIT here would start a second exchange. The callers
   * give 255 as the second number to wait for, and fail if that comes.
   */
  function WaitFor(g: Config, h: Half, input: Bytes, wanted: byte, max: nat, n: nat): Option<Received>
    decreases n
  {
    if n == 0 then None
    else
      match Decode(g.suite, h, input, MAX_PACKET_LEN)
      case None => None
      case Some(r) =>
        if r.payload == [] then WaitFor(g, r.half, r.rest, wanted, max, n - 1)
        else if r.payload[0] == KexInit.MSG_KEXINIT then None
        else if r.payload[0] == wanted then (if |r.payload| > max then None else Some(r))
        else if r.payload[0] == NO_MESSAGE then None
        else WaitFor(g, r.half, r.rest, wanted, max, n - 1)
  }

  /** Both sides take the peer's KEXINIT alike, but for what they demand of it. */
  function TakeKexInit(g: Config, x: Side, input: Bytes, accepts: Bytes -> bool): Option<Move> {
    match Decode(g.suite, x.inp, input, MAX_PACKET_LEN)
    case None => None
    case Some(r) =>
      if r.payload == [] || r.payload[0] != KexInit.MSG_KEXINIT || |r.payload| > MAX_KEXINIT_LEN || !accepts(r.payload) then None
      else TookMove(x, Took(x, r).(peerKexInit := r.payload), r)
  }

  /** Host key blob, server's public key and signature blob. */
  datatype Reply = Reply(hostKey: Field, serverPublic: Bytes, signature: Bytes)

  function ReadReply(p: Bytes): Option<Reply> {
    match ReadString(p, 1)
    case None => None
    case Some(host) =>
      match ReadString(p, host.next)
      case None => None
      case Some(pub) =>
        match ReadString(p, pub.next)
        case None => None
        case Some(sig) =>
          if sig.data == [] || |pub.data| != 32 || !(0 < |host.data| <= MAX_HOST_KEY_BLOB_LEN) then None
          else Some(Reply(host.data, pub.data, sig.data))
  }

  /** The key sizes of the RSA library in bytes, for a modulus of this length. */
  function RsaKeyBytes(n: nat): Option<nat> {
    if n <= 128 then Some(128)
    else if n <= 256 then Some(256)
    else if n <= 384 then Some(384)
    else if n <= 512 then Some(512)
    else None
  }

  /** Copied to the end of a zeroed buffer. */
  function LeftPad(x: Bytes, size: nat): (p: Bytes)
    requires |x| <= size
    ensures |p| == size
  {
    seq(size - |x|, i => 0) + x
  }

  /** The RSA branch: exponent and modulus without leading zeros, and everything fitted to the key size. */
  function VerifyRsa(s: Suite, hostKey: Bytes, off: nat, sha256: bool, signature: Bytes, hash: Digest): bool {
    match ReadString(hostKey, off)
    case None => false
    case Some(exponent) =>
      match ReadString(hostKey, exponent.next)
      case None => false
      case Some(modulus) =>
        var e, n := Mpint.Trim(exponent.data), Mpint.Trim(modulus.data);
        var size := RsaKeyBytes(|n|);
        if n == [] || e == [] || size.None? || |e| > size.value || |n| > size.value || |signature| > size.value then false
        else
          var k := size.value;
          s.rsaVerify(sha256, LeftPad(n, k), LeftPad(e, k), hash, LeftPad(signature, k))
  }

  /** verify_server_host_key_signature, which does not mind bytes behind the fields. */
  function VerifyHost(s: Suite, hostKey: Bytes, signature: Bytes, hash: Digest): bool {
    match ReadString(hostKey, 0)
    case None => false
    case Some(alg) =>
      match ReadString(signature, 0)
      case None => false
      case Some(sigAlg) =>
        match ReadString(signature, sigAlg.next)
        case None => false
        case Some(sig) =>
          if alg.data == UserAuth.Ed25519() && sigAlg.data == UserAuth.Ed25519() then
            match ReadString(hostKey, alg.next)
            case None => false
            case Some(key) => |key.data| == 32 && |sig.data| == 64 && s.edVerify(key.data, hash, sig.data)
          else if alg.data == SshRsa() && (sigAlg.data == RsaSha256() || sigAlg.data == SshRsa()) then
            VerifyRsa(s, hostKey, alg.next, sigAlg.data == RsaSha256(), sig.data, hash)
          else false
  }

  function SshRsa(): (b: Bytes)
    ensures |b| == 7
  {
    Ascii("ssh-rsa")
  }

  function RsaSha256(): (b: Bytes)
    ensures |b| == 12
  {
    Ascii("rsa-sha2-256")
  }

  function ClientTakesReply(g: Config, x: Side, input: Bytes): Option<Move> {
    match WaitFor(g, x.inp, input, MSG_KEX_ECDH_REPLY, 2048, g.waitLimit)
    case None => None
    case Some(r) =>
      match ReadReply(r.payload)
      case None => None
      case Some(reply) =>
        match g.suite.dhShared(g.clientSecret, reply.serverPublic)
        case None => None
        case Some(secret) =>
          match Hash(g, Transcript(g.clientIdent, x.peerIdent, g.clientKexInit, x.peerKexInit, reply.hostKey,
                                   g.suite.dhPublic(g.clientSecret), reply.serverPublic, secret))
          case None => None
          case Some(hash) =>
            if !VerifyHost(g.suite, reply.hostKey, reply.signature, hash) then None
            else TookMove(x, Took(x, r).(secret := secret, sessionId := hash), r)
  }

  function ClientTakesNewKeys(g: Config, x: Side, input: Bytes): Option<Move> {
    match WaitFor(g, x.inp, input, MSG_NEWKEYS, 2048, g.waitLimit)
    case None => None
    case Some(r) => TookMove(x, SwitchClient(g, Took(x, r)), r)
  }

  function ClientMove(g: Config, x: Side, input: Bytes): Option<Move> {
    if x.pc == 0 then SendLine(x, input, g.clientIdent)
    else if x.pc == 1 then TakeLine(x, input)
    else if x.pc == 2 then SendMove(g, x, input, g.clientKexInit, ClientPad(g, 0))
    else if x.pc == 3 then TakeKexInit(g, x, input, KexInit.ClientAccepts)
    else if x.pc == 4 then SendMove(g, x, input, InitPayload(g), ClientPad(g, 1))
    else if x.pc == 5 then ClientTakesReply(g, x, input)
    else if x.pc == 6 then SendMove(g, x, input, [MSG_NEWKEYS], ClientPad(g, 2))
    else if x.pc == 7 then ClientTakesNewKeys(g, x, input)
    else None
  }

  // ----- the server's program -----

  function ServerTakesInit(g: Config, x: Side, input: Bytes): Option<Move> {
    match Decode(g.suite, x.inp, input, 2048)
    case None => None
    case Some(r) =>
      if r.payload == [] || r.payload[0] != MSG_KEX_ECDH_INIT then None
      else
        match ReadString(r.payload, 1)
        case None => None
        case Some(pub) =>
          if |pub.data| != 32 then None
          else
            match g.suite.dhShared(g.serverSecret, pub.data)
            case None => None
            case Some(secret) =>
              match Hash(g, Transcript(x.peerIdent, g.serverIdent, x.peerKexInit, g.serverKexInit, HostBlob(g),
                                       pub.data, g.suite.dhPublic(g.serverSecret), secret))
              case None => None
              case Some(hash) => TookMove(x, Took(x, r).(secret := secret, sessionId := hash), r)
  }

  function ServerTakesNewKeys(g: Config, x: Side, input: Bytes): Option<Move> {
    match Decode(g.suite, x.inp, input, 64)
    case None => None
    case Some(r) =>
      if r.payload == [] || r.payload[0] != MSG_NEWKEYS then None
      else TookMove(x, SwitchServer(g, Took(x, r)), r)
  }

  function ServerMove(g: Config, x: Side, input: Bytes): Option<Move> {
    if x.pc == 0 then TakeLine(x, input)
    else if x.pc == 1 then SendLine(x, input, g.serverIdent)
    else if x.pc == 2 then TakeKexInit(g, x, input, KexInit.ServerAccepts)
    else if x.pc == 3 then SendMove(g, x, input, g.serverKexInit, ServerPad(g, 0))
    else if x.pc == 4 then ServerTakesInit(g, x, input)
    else if x.pc == 5 then SendMove(g, x, input, ReplyPayload(g, x.sessionId), ServerPad(g, 1))
    else if x.pc == 6 then SendMove(g, x, input, [MSG_NEWKEYS], ServerPad(g, 2))
    else if x.pc == 7 then ServerTakesNewKeys(g, x, input)
    else None
  }

  // ----- what a run goes through -----

  function Zeros16(): Block {
    seq(16, i => 0)
  }

  function Zeros32(): Digest {
    seq(32, i => 0)
  }

  function Plain(n: uint32): Half {
    Half(false, Zeros16(), Zeros32(), Zeros16(), n)
  }

  function Fresh(): Side {
    Side(0, Plain(0), Plain(0), [], [], Zeros32(), Zeros32(), None)
  }

  predicate GoodIdent(ident: Bytes) {
    OneLine(ident) && 0 !in ident && |ident| <= 254 && IsIdent(ident)
  }

  /** What a run comes to: the shared secret, the hash that becomes the session id, the keys, and the two messages in between. */
  datatype Outcome = Outcome(secret: Digest, hash: Digest, keys: KeySet, init: Bytes, reply: Bytes)

  function TheTranscript(g: Config, secret: Digest): Transcript {
    Transcript(g.clientIdent, g.serverIdent, g.clientKexInit, g.serverKexInit, HostBlob(g),
               g.suite.dhPublic(g.clientSecret), g.suite.dhPublic(g.serverSecret), secret)
  }

  function ClientPayload(g: Config, v: Outcome, k: nat): Bytes {
    if k == 0 then g.clientKexInit else if k == 1 then v.init else [MSG_NEWKEYS]
  }

  function ServerPayload(g: Config, v: Outcome, k: nat): Bytes {
    if k == 0 then g.serverKexInit else if k == 1 then v.reply else [MSG_NEWKEYS]
  }

  /** The library does not refuse the exchange, and the outcome is computed from the two ends' inputs. */
  ghost predicate Determined(g: Config, v: Outcome) {
    && g.suite.dhShared(g.clientSecret, g.suite.dhPublic(g.serverSecret)) == Some(v.secret)
    && v.hash == g.suite.sha(HashInput(TheTranscript(g, v.secret)))
    && v.keys == Keys(g.suite, v.secret, v.hash)
    && v.init == InitPayload(g) && v.reply == ReplyPayload(g, v.hash)
  }

  /** Each side has built its KEXINIT from some cookie. */
  ghost predicate KexInitsBuilt(g: Config) {
    exists a: Block, b: Block ::
      && g.clientKexInit == KexInit.Payload(a, KexInit.ClientLists())
      && g.serverKexInit == KexInit.Payload(b, KexInit.ServerLists())
  }

  /** Padding as send_packet sizes it before encryption. */
  ghost predicate PadsFit(g: Config, v: Outcome) {
    forall k | 0 <= k < 3 ::
      && |ClientPad(g, k)| == PadLen(|ClientPayload(g, v, k)|, 8)
      && |ServerPad(g, k)| == PadLen(|ServerPayload(g, v, k)|, 8)
  }

  /** Identifications that fit a line, a lawful crypto library, and the code's own messages. */
  ghost predicate Ready(g: Config, v: Outcome) {
    && g.suite.Lawful() && GoodIdent(g.clientIdent) && GoodIdent(g.serverIdent) && g.waitLimit == WAIT_LIMIT
    && Determined(g, v) && KexInitsBuilt(g) && PadsFit(g, v)
  }
}
