/** The first key exchange as a whole: what holds in every interleaving of this client with this server. */
module FirstExchange {
  import opened Octets
  import opened Wrappers
  import opened Cipher
  import opened Packet
  import KexInit
  import opened Mpint
  import opened Wire
  import opened KeyExchange
  import opened Handshake
  import opened HandshakeSteps
  import opened Interleaving

  function ClientRuns(g: Config): Program {
    (x, input) => ClientMove(g, x, input)
  }

  function ServerRuns(g: Config): Program {
    (x, input) => ServerMove(g, x, input)
  }

  function ClientPart(g: Config, v: Outcome): Part {
    Part(Client, ClientRuns(g), seq(9, i requires 0 <= i < 9 => ClientAt(g, v, i)),
         seq(4, k requires 0 <= k < 4 => ClientMsg(g, v, k)), seq(4, k requires 0 <= k < 4 => ClientItems(g, v, k)))
  }

  function ServerPart(g: Config, v: Outcome): Part {
    Part(Server, ServerRuns(g), seq(9, i requires 0 <= i < 9 => ServerAt(g, v, i)),
         seq(4, k requires 0 <= k < 4 => ServerMsg(g, v, k)), seq(4, k requires 0 <= k < 4 => ServerItems(g, v, k)))
  }

  function Both(g: Config, v: Outcome): System {
    System(g.suite, ClientPart(g, v), ServerPart(g, v))
  }

  /** Every packet of the exchange can be sent. */
  ghost predicate AllFit(g: Config, v: Outcome) {
    forall k: nat | k < 3 ::
      && Sendable(Plain(k), ClientPayload(g, v, k), ClientPad(g, k))
      && Sendable(Plain(k), ServerPayload(g, v, k), ServerPad(g, k))
  }

  /** Each KEXINIT is one, and the other side accepts it. */
  ghost predicate KexInitsAccepted(g: Config) {
    && |g.clientKexInit| > 0 && g.clientKexInit[0] == KexInit.MSG_KEXINIT && |g.clientKexInit| <= MAX_KEXINIT_LEN
    && |g.serverKexInit| > 0 && g.serverKexInit[0] == KexInit.MSG_KEXINIT && |g.serverKexInit| <= MAX_KEXINIT_LEN
    && KexInit.ServerAccepts(g.clientKexInit) && KexInit.ClientAccepts(g.serverKexInit)
  }

  /** Both ends compute the same secret and the same hash. */
  ghost predicate Agreed(g: Config, v: Outcome) {
    && g.suite.Lawful() && g.waitLimit > 0
    && g.suite.dhShared(g.clientSecret, g.suite.dhPublic(g.serverSecret)) == Some(v.secret)
    && g.suite.dhShared(g.serverSecret, g.suite.dhPublic(g.clientSecret)) == Some(v.secret)
    && Hash(g, TheTranscript(g, v.secret)) == Some(v.hash)
    && v.keys == Keys(g.suite, v.secret, v.hash)
    && v.init == InitPayload(g) && v.reply == ReplyPayload(g, v.hash)
  }

  lemma {:induction false} Agrees(g: Config, v: Outcome)
    requires Ready(g, v)
    ensures Agreed(g, v)
  {
    KexInitsFit(g);
    TranscriptFits(g, v.secret);
  }

  lemma {:induction false} Accepts(g: Config)
    requires KexInitsBuilt(g)
    ensures KexInitsAccepted(g)
  {
    KexInitsFit(g);
  }

  lemma {:induction false} Fits(g: Config, v: Outcome)
    requires KexInitsBuilt(g) && PadsFit(g, v) && |v.init| == 37 && |v.reply| == 179
    ensures AllFit(g, v)
  {
    KexInitsFit(g);
    FitsAll(g, v);
  }

  lemma {:induction false} FitsAll(g: Config, v: Outcome)
    requires PadsFit(g, v) && |v.init| == 37 && |v.reply| == 179
    requires 1 <= |g.clientKexInit| <= 652 && 1 <= |g.serverKexInit| <= 652
    ensures AllFit(g, v)
  {
    forall k: nat | k < 3
      ensures Sendable(Plain(k), ClientPayload(g, v, k), ClientPad(g, k))
      ensures Sendable(Plain(k), ServerPayload(g, v, k), ServerPad(g, k))
    {
      FitsOne(k, ClientPayload(g, v, k), ClientPad(g, k));
      FitsOne(k, ServerPayload(g, v, k), ServerPad(g, k));
    }
  }

  lemma {:induction false} FitsOne(n: uint32, payload: Bytes, padding: Bytes)
    requires 1 <= |payload| <= 652 && |padding| == PadLen(|payload|, 8)
    ensures Sendable(Plain(n), payload, padding)
  {
  }

  // ----- every move of the two programs is the scripted one -----

  ghost predicate ClientOk(g: Config, v: Outcome, i: nat, rest: Bytes) {
    i < 8 && StepOk(ClientPart(g, v), ServerPart(g, v), i, rest)
  }

  ghost predicate ServerOk(g: Config, v: Outcome, i: nat, rest: Bytes) {
    i < 8 && StepOk(ServerPart(g, v), ClientPart(g, v), i, rest)
  }

  lemma {:induction false} ClientLine(g: Config, v: Outcome, i: nat, rest: Bytes)
    requires GoodIdent(g.serverIdent) && i < 2
    ensures ClientOk(g, v, i, rest)
  {
    hide ClientMove;
    ClientSendsLine(g, v, rest);
    ClientTakesLine(g, v, rest);
    if i == 1 {
      ClientWaits(g, ClientAt(g, v, i));
    }
  }

  lemma {:induction false} ServerLine(g: Config, v: Outcome, i: nat, rest: Bytes)
    requires GoodIdent(g.clientIdent) && i < 2
    ensures ServerOk(g, v, i, rest)
  {
    hide ServerMove;
    ServerSendsLine(g, v, rest);
    ServerTakesLine(g, v, rest);
    if i == 0 {
      ServerWaits(g, ServerAt(g, v, i));
    }
  }

  lemma {:induction false} ClientSend(g: Config, v: Outcome, i: nat, rest: Bytes)
    requires AllFit(g, v) && v.init == InitPayload(g) && (i == 2 || i == 4 || i == 6)
    ensures ClientOk(g, v, i, rest)
  {
    hide ClientMove, PlainPacket, PadLen;
    var k := i / 2 - 1;
    assert Sendable(Plain(k), ClientPayload(g, v, k), ClientPad(g, k));
    if i == 2 {
      ClientSends1(g, v, rest);
    } else if i == 4 {
      ClientSends2(g, v, rest);
    } else {
      ClientSends3(g, v, rest);
    }
  }

  lemma {:induction false} ServerSend(g: Config, v: Outcome, i: nat, rest: Bytes)
    requires AllFit(g, v) && v.reply == ReplyPayload(g, v.hash) && (i == 3 || i == 5 || i == 6)
    ensures ServerOk(g, v, i, rest)
  {
    hide ServerMove, PlainPacket, PadLen;
    var k := if i == 3 then 0 else if i == 5 then 1 else 2;
    assert Sendable(Plain(k), ServerPayload(g, v, k), ServerPad(g, k));
    if i == 3 {
      ServerSends1(g, v, rest);
    } else if i == 5 {
      ServerSends2(g, v, rest);
    } else {
      ServerSends3(g, v, rest);
    }
  }

  lemma {:induction false} ClientTake3(g: Config, v: Outcome, rest: Bytes)
    requires KexInitsAccepted(g) && Sendable(Plain(0), ServerPayload(g, v, 0), ServerPad(g, 0))
    ensures ClientOk(g, v, 3, rest)
  {
    ClientTakesServerKexInit(g, v, rest);
    ClientWaits(g, ClientAt(g, v, 3));
  }

  lemma {:induction false} ServerTake2(g: Config, v: Outcome, rest: Bytes)
    requires KexInitsAccepted(g) && Sendable(Plain(0), ClientPayload(g, v, 0), ClientPad(g, 0))
    ensures ServerOk(g, v, 2, rest)
  {
    ServerTakesClientKexInit(g, v, rest);
    ServerWaits(g, ServerAt(g, v, 2));
  }

  lemma {:induction false} ClientTake5(g: Config, v: Outcome, rest: Bytes)
    requires Agreed(g, v) && Sendable(Plain(1), ServerPayload(g, v, 1), ServerPad(g, 1))
    ensures ClientOk(g, v, 5, rest)
  {
    ClientTakesServerReply(g, v, rest);
    ClientWaits(g, ClientAt(g, v, 5));
  }

  lemma {:induction false} ServerTake4(g: Config, v: Outcome, rest: Bytes)
    requires Agreed(g, v) && Sendable(Plain(1), ClientPayload(g, v, 1), ClientPad(g, 1))
    ensures ServerOk(g, v, 4, rest)
  {
    ServerTakesClientInit(g, v, rest);
    ServerWaits(g, ServerAt(g, v, 4));
  }

  lemma {:induction false} ClientTake7(g: Config, v: Outcome, rest: Bytes)
    requires Agreed(g, v) && Sendable(Plain(2), ServerPayload(g, v, 2), ServerPad(g, 2))
    ensures ClientOk(g, v, 7, rest)
  {
    ClientTakesServerNewKeys(g, v, rest);
    ClientWaits(g, ClientAt(g, v, 7));
  }

  lemma {:induction false} ServerTake7(g: Config, v: Outcome, rest: Bytes)
    requires Agreed(g, v) && Sendable(Plain(2), ClientPayload(g, v, 2), ClientPad(g, 2))
    ensures ServerOk(g, v, 7, rest)
  {
    ServerTakesClientNewKeys(g, v, rest);
    ServerWaits(g, ServerAt(g, v, 7));
  }

  lemma {:induction false} ClientStep(g: Config, v: Outcome, i: nat, rest: Bytes)
    requires AllFit(g, v) && KexInitsAccepted(g) && Agreed(g, v) && GoodIdent(g.serverIdent) && i < 8
    ensures ClientOk(g, v, i, rest)
  {
    if i < 2 {
      ClientLine(g, v, i, rest);
    } else if i == 3 {
      ClientTake3(g, v, rest);
    } else if i == 5 {
      ClientTake5(g, v, rest);
    } else if i == 7 {
      ClientTake7(g, v, rest);
    } else {
      ClientSend(g, v, i, rest);
    }
  }

  lemma {:induction false} ServerStep(g: Config, v: Outcome, i: nat, rest: Bytes)
    requires AllFit(g, v) && KexInitsAccepted(g) && Agreed(g, v) && GoodIdent(g.clientIdent) && i < 8
    ensures ServerOk(g, v, i, rest)
  {
    if i < 2 {
      ServerLine(g, v, i, rest);
    } else if i == 2 {
      ServerTake2(g, v, rest);
    } else if i == 4 {
      ServerTake4(g, v, rest);
    } else if i == 7 {
      ServerTake7(g, v, rest);
    } else {
      ServerSend(g, v, i, rest);
    }
  }

  lemma {:induction false} ClientFollows(g: Config, v: Outcome)
    requires AllFit(g, v) && KexInitsAccepted(g) && Agreed(g, v) && GoodIdent(g.serverIdent)
    ensures Follows(ClientPart(g, v), ServerPart(g, v))
  {
    forall i: nat, rest: Bytes | i < 8
      ensures ClientOk(g, v, i, rest)
    {
      ClientStep(g, v, i, rest);
    }
    ClientIsFollowing(g, v);
  }

  lemma {:induction false} ClientIsFollowing(g: Config, v: Outcome)
    requires forall i: nat, rest :: i < 8 ==> ClientOk(g, v, i, rest)
    ensures Follows(ClientPart(g, v), ServerPart(g, v))
  {
    LastStates(g, v);
    forall i: nat, rest | i < 8
      ensures StepOk(ClientPart(g, v), ServerPart(g, v), i, rest)
    {
      assert ClientOk(g, v, i, rest);
    }
  }

  lemma {:induction false} ServerFollows(g: Config, v: Outcome)
    requires AllFit(g, v) && KexInitsAccepted(g) && Agreed(g, v) && GoodIdent(g.clientIdent)
    ensures Follows(ServerPart(g, v), ClientPart(g, v))
  {
    forall i: nat, rest: Bytes | i < 8
      ensures ServerOk(g, v, i, rest)
    {
      ServerStep(g, v, i, rest);
    }
    ServerIsFollowing(g, v);
  }

  lemma {:induction false} ServerIsFollowing(g: Config, v: Outcome)
    requires forall i: nat, rest :: i < 8 ==> ServerOk(g, v, i, rest)
    ensures Follows(ServerPart(g, v), ClientPart(g, v))
  {
    LastStates(g, v);
    forall i: nat, rest | i < 8
      ensures StepOk(ServerPart(g, v), ClientPart(g, v), i, rest)
    {
      assert ServerOk(g, v, i, rest);
    }
  }

  lemma {:induction false} BothCorrect(g: Config, v: Outcome)
    requires Ready(g, v)
    ensures Both(g, v).Correct()
  {
    Agrees(g, v);
    Accepts(g);
    Fits(g, v);
    ClientFollows(g, v);
    ServerFollows(g, v);
  }

  // ----- every choice of inputs is covered -----

  function Zeros(n: nat): Bytes {
    seq(n, i => 0)
  }

  /** Padding for three payloads; its bytes do not matter. */
  function Paddings(p: Bytes, q: Bytes, r: Bytes): seq<Bytes> {
    [Zeros(PadLen(|p|, 8)), Zeros(PadLen(|q|, 8)), Zeros(PadLen(|r|, 8))]
  }

  lemma {:induction false} PaddingsFit(g: Config, v: Outcome)
    requires g.clientPads == Paddings(g.clientKexInit, v.init, [MSG_NEWKEYS])
    requires g.serverPads == Paddings(g.serverKexInit, v.reply, [MSG_NEWKEYS])
    ensures PadsFit(g, v)
  {
    forall k | 0 <= k < 3
      ensures |ClientPad(g, k)| == PadLen(|ClientPayload(g, v, k)|, 8)
      ensures |ServerPad(g, k)| == PadLen(|ServerPayload(g, v, k)|, 8)
    {
      assert k == 0 || k == 1 || k == 2;
    }
  }

  function OutcomeOf(g: Config, secret: Digest): Outcome {
    var hash := g.suite.sha(HashInput(TheTranscript(g, secret)));
    Outcome(secret, hash, Keys(g.suite, secret, hash), InitPayload(g), ReplyPayload(g, hash))
  }

  lemma {:induction false} PadsDoNotMatter(g: Config, clientPads: seq<Bytes>, serverPads: seq<Bytes>, secret: Digest)
    ensures OutcomeOf(g.(clientPads := clientPads, serverPads := serverPads), secret) == OutcomeOf(g, secret)
  {
  }

  lemma {:induction false} DeterminedBy(g: Config, secret: Digest)
    requires g.suite.dhShared(g.clientSecret, g.suite.dhPublic(g.serverSecret)) == Some(secret)
    ensures Determined(g, OutcomeOf(g, secret))
  {
  }

  lemma {:induction false} PadsKeepKexInits(g: Config, clientPads: seq<Bytes>, serverPads: seq<Bytes>)
    requires KexInitsBuilt(g)
    ensures KexInitsBuilt(g.(clientPads := clientPads, serverPads := serverPads))
  {
  }

  lemma {:induction false} BuiltFrom(g: Config, a: Block, b: Block)
    requires g.clientKexInit == KexInit.Payload(a, KexInit.ClientLists())
    requires g.serverKexInit == KexInit.Payload(b, KexInit.ServerLists())
    ensures KexInitsBuilt(g)
  {
  }

  lemma {:induction false} Padded(g: Config, secret: Digest) returns (h: Config, v: Outcome)
    requires g.suite.Lawful() && GoodIdent(g.clientIdent) && GoodIdent(g.serverIdent) && g.waitLimit == WAIT_LIMIT
    requires g.suite.dhShared(g.clientSecret, g.suite.dhPublic(g.serverSecret)) == Some(secret)
    requires KexInitsBuilt(g)
    ensures Ready(h, v) && h == g.(clientPads := h.clientPads, serverPads := h.serverPads)
  {
    v := OutcomeOf(g, secret);
    var clientPads := Paddings(g.clientKexInit, v.init, [MSG_NEWKEYS]);
    var serverPads := Paddings(g.serverKexInit, v.reply, [MSG_NEWKEYS]);
    h := g.(clientPads := clientPads, serverPads := serverPads);
    PadsDoNotMatter(g, clientPads, serverPads, secret);
    PadsKeepKexInits(g, clientPads, serverPads);
    PaddingsFit(h, v);
    DeterminedBy(h, secret);
  }

  /** Whatever identifications, cookies and secrets the two ends choose, unless the library refuses, the theorems apply. */
  lemma {:induction false} AnyChoiceIsReady(g: Config, clientCookie: Block, serverCookie: Block)
    returns (h: Config, v: Outcome)
    requires g.suite.Lawful() && GoodIdent(g.clientIdent) && GoodIdent(g.serverIdent) && g.waitLimit == WAIT_LIMIT
    requires g.suite.dhShared(g.clientSecret, g.suite.dhPublic(g.serverSecret)).Some?
    requires g.clientKexInit == KexInit.Payload(clientCookie, KexInit.ClientLists())
    requires g.serverKexInit == KexInit.Payload(serverCookie, KexInit.ServerLists())
    ensures Ready(h, v) && h == g.(clientPads := h.clientPads, serverPads := h.serverPads)
  {
    BuiltFrom(g, clientCookie, serverCookie);
    h, v := Padded(g, g.suite.dhShared(g.clientSecret, g.suite.dhPublic(g.serverSecret)).value);
  }

  // ----- the theorems -----

  /** Any interleaving of moves of the two programs and of later packets, from two fresh ends. */
  predicate Reaches(g: Config, actions: seq<Action>, w: World) {
    PerformAll(Machine(g.suite, ClientRuns(g), ServerRuns(g)), Begin(Fresh(), Fresh()), actions) == Some(w)
  }

  lemma {:induction false} ReachesLeads(g: Config, v: Outcome, actions: seq<Action>, w: World)
    requires Reaches(g, actions, w)
    ensures Leads(Both(g, v), actions, w)
  {
    assert ClientAt(g, v, 0) == Fresh() && ServerAt(g, v, 0) == Fresh();
  }

  /** Every packet is taken in the order and in the mode, plain or encrypted, that it was sent in. */
  lemma {:induction false} ModesMatch(g: Config, v: Outcome, actions: seq<Action>, w: World)
    requires Ready(g, v) && Reaches(g, actions, w)
    ensures w.gotV <= w.sentC && w.gotC <= w.sentV
  {
    BothCorrect(g, v);
    ReachesLeads(g, v, actions, w);
    InOrderAndMode(Both(g, v), actions, w);
  }

  /** No reachable state of the exchange is stuck; once both programs are done, every packet in flight can be taken. */
  lemma {:induction false} AlwaysProgress(g: Config, v: Outcome, actions: seq<Action>, w: World)
    requires Ready(g, v) && Reaches(g, actions, w)
    ensures w.c.pc < 8 || w.v.pc < 8 ==> exists a :: a in {ClientProgram, ServerProgram} && CanGo(g, w, a)
    ensures w.c.pc == 8 && w.v.pc == 8 && w.gotV != w.sentC ==> CanGo(g, w, ServerTakes)
    ensures w.c.pc == 8 && w.v.pc == 8 && w.gotC != w.sentV ==> CanGo(g, w, ClientTakes)
  {
    BothCorrect(g, v);
    ReachesLeads(g, v, actions, w);
    if w.c.pc < 8 || w.v.pc < 8 {
      NeverStuck(Both(g, v), actions, w);
      assert CanGo(g, w, ClientProgram) || CanGo(g, w, ServerProgram);
    }
    if w.c.pc == 8 && w.v.pc == 8 {
      DataArrives(Both(g, v), actions, w);
    }
  }

  predicate CanGo(g: Config, w: World, a: Action) {
    Perform(Machine(g.suite, ClientRuns(g), ServerRuns(g)), w, a).Some?
  }

  /**
   * When both programs are done, the two sides hold the same session id, the same secret and the same six values; with
   * nothing in flight each direction's key, counter and sequence number are the same at both ends.
   */
  lemma {:induction false} SidesAgree(g: Config, v: Outcome, actions: seq<Action>, w: World)
    requires Ready(g, v) && Reaches(g, actions, w) && w.c.pc == 8 && w.v.pc == 8
    ensures w.c.sessionId == w.v.sessionId == v.hash && w.c.secret == w.v.secret == v.secret
    ensures w.c.keys == w.v.keys == Some(v.keys)
    ensures w.c.peerIdent == g.serverIdent && w.v.peerIdent == g.clientIdent
    ensures w.c.peerKexInit == g.serverKexInit && w.v.peerKexInit == g.clientKexInit
    ensures w.gotV == w.sentC ==> w.c.out == w.v.inp
    ensures w.gotC == w.sentV ==> w.v.out == w.c.inp
  {
    BothCorrect(g, v);
    ReachesLeads(g, v, actions, w);
    Agreement(Both(g, v), actions, w);
    LastStates(g, v);
  }

  lemma {:induction false} LastStates(g: Config, v: Outcome)
    ensures Both(g, v).client.states[8] == ClientAt(g, v, 8) && Both(g, v).server.states[8] == ServerAt(g, v, 8)
  {
  }

  /** The six values, letter by letter. */
  lemma {:induction false} KeysWritten(s: Suite, secret: Digest, sessionId: Digest)
    ensures var pre, k := EncodeMpint(secret) + sessionId, Keys(s, secret, sessionId);
      && k.c2sIv == s.sha(pre + [65] + sessionId)[..16] && k.s2cIv == s.sha(pre + [66] + sessionId)[..16]
      && k.c2sKey == s.sha(pre + [67] + sessionId)[..16] && k.s2cKey == s.sha(pre + [68] + sessionId)[..16]
      && k.c2sMac == s.sha(pre + [69] + sessionId) && k.s2cMac == s.sha(pre + [70] + sessionId)
  {
    hide EncodeMpint, Key;
    forall l: byte, n: nat | 0 < n <= 32
      ensures Key(s, secret, sessionId, l, n) == s.sha(EncodeMpint(secret) + sessionId + [l] + sessionId)[..n]
    {
      ShortKey(s, secret, sessionId, l, n);
    }
  }

  /** Key and MAC key of a direction are the digests over K, H, these letters and H again. */
  ghost predicate KeyedFrom(s: Suite, h: Half, secret: Digest, sessionId: Digest, key: byte, mac: byte) {
    var pre := EncodeMpint(secret) + sessionId;
    h.encrypted && h.key == s.sha(pre + [key] + sessionId)[..16] && h.macKey == s.sha(pre + [mac] + sessionId)
  }

  /** And its counter is the digest for a third letter. */
  ghost predicate FromLetters(s: Suite, h: Half, secret: Digest, sessionId: Digest, iv: byte, key: byte, mac: byte) {
    KeyedFrom(s, h, secret, sessionId, key, mac) && h.counter == s.sha(EncodeMpint(secret) + sessionId + [iv] + sessionId)[..16]
  }

  /** The session id of the exchange, field by field. */
  lemma {:induction false} SessionIdWritten(g: Config, v: Outcome, actions: seq<Action>, w: World)
    requires Ready(g, v) && Reaches(g, actions, w) && w.c.pc == 8 && w.v.pc == 8
    ensures var hostKey := Str(Ascii("ssh-ed25519")) + Str(g.suite.edPublic(g.hostSecret));
      w.c.sessionId == w.v.sessionId == g.suite.sha(
        Str(g.clientIdent) + Str(g.serverIdent) + Str(g.clientKexInit) + Str(g.serverKexInit) + Str(hostKey)
        + Str(g.suite.dhPublic(g.clientSecret)) + Str(g.suite.dhPublic(g.serverSecret)) + EncodeMpint(w.c.secret))
  {
    hide Str, EncodeMpint, Reaches, HashInput;
    SidesAgree(g, v, actions, w);
    HashInputWritten(TheTranscript(g, v.secret));
  }

  /** At the end of the exchange itself, both sides encrypt both ways with the agreed values and have counted three packets each way. */
  lemma {:induction false} StartOfEncryption(g: Config, v: Outcome, actions: seq<Action>, w: World)
    requires Ready(g, v) && Reaches(g, actions, w) && w.c.pc == 8 && w.v.pc == 8
    requires forall a :: a in actions ==> a == ClientProgram || a == ServerProgram
    ensures w.c.out == w.v.inp == Half(true, v.keys.c2sKey, v.keys.c2sMac, v.keys.c2sIv, 3)
    ensures w.v.out == w.c.inp == Half(true, v.keys.s2cKey, v.keys.s2cMac, v.keys.s2cIv, 3)
    ensures w.c.sessionId == w.v.sessionId && w.c.secret == w.v.secret
    ensures FromLetters(g.suite, w.c.out, w.c.secret, w.c.sessionId, 65, 67, 69)
    ensures FromLetters(g.suite, w.v.out, w.c.secret, w.c.sessionId, 66, 68, 70)
  {
    KeysWritten(g.suite, v.secret, v.hash);
    SidesAgree(g, v, actions, w);
    BothCorrect(g, v);
    ReachesLeads(g, v, actions, w);
    ProgramsOnly(Both(g, v), actions, w);
    LastStates(g, v);
  }
}
