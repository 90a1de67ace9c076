/**
 * The server from the end of the key exchange on: serve_one's packet loop, authentication, the channel, the session and the
 * drain. What the transport, the clock, the callback and the child do is chosen freely; every choice is one run.
 * A loop runs for at most `horizon` turns and then reports Running, so that every finite beginning of a run is covered.
 */
module Server {
  import opened Octets
  import opened Wrappers
  import opened Cipher
  import opened Wire
  import Packet
  import UserAuth
  import opened Messages
  import opened ServerTrace

  const REKEY_THRESHOLD := 0x1000_0000
  const CHANNEL_MAX_PACKET: uint32 := 32768
  const MAX_COMMAND_LEN := 512
  const TERM_SIZE := 65
  const DRAIN_MS := 10000
  /** A full data chunk in an encrypted packet. */
  const SENT_MAX := 4160

  datatype Outcome = Running | Success | Failure

  datatype Next = Continue | Return(outcome: Outcome)

  datatype Ready = Readable | Interrupted | HungUp | WaitFailed

  /** What poll reports in the session loop. */
  datatype Poll = PollInterrupted | PollFailed | TimedOut | Events(peerError: bool, peerInput: bool, childInput: bool)

  datatype ChildAnswer = ChildBytes(data: Bytes) | ChildEof | ReadAgain | ReadFailed

  datatype SessionStep = Go | Break | PeerClosed

  /** How a turn of the session loop ends: the loop goes on, breaks off, has answered the peer's CLOSE, or has sent its own. */
  datatype Turn = Onward | BrokenOff | Answered | Completed

  /** What the loop knows of the child: whether its output has ended and whether it was reaped. */
  datatype Tail = Tail(outputEof: bool, reaped: bool, status: ChildStatus)

  datatype Pumped = Pumped | NoRoom | SawEof | PumpFailed

  function ExitCode(s: ChildStatus): uint32 {
    match s
    case Exited(code) => code
    case Signalled(signal) => 128 + signal
  }

  /** The padding fills the last of the blocks that the message counts. */
  lemma {:induction false} PacketSize(len: nat)
    ensures 5 + len + Packet.PadLen(len, 16) == 16 * ((len + 24) / 16)
  {
    var pad := Packet.PadLen(len, 16);
    assert Packet.Aligned(len, pad, 16);
  }

  /** The bytes of an encrypted packet with this message: whole blocks and the MAC. */
  function PacketBytes(m: Message): (n: nat)
    requires m.Fits()
    ensures n == 16 * m.Blocks() + 32 && 48 <= n <= SENT_MAX
  {
    m.PayloadLength();
    PacketSize(|m.Payload()|);
    5 + |m.Payload()| + Packet.PadLen(|m.Payload()|, 16) + Packet.MAC_LEN
  }

  lemma {:induction false} SendCounts(cx: Context, st: State, m: Message, ok: bool)
    ensures AfterEvent(st, Sent(m, ok)).count == CountSend(st.count, m, ok)
    ensures Allowed(cx, st, Sent(m, ok)) == Allowed(cx, st, Sent(m, true))
  {
  }

  // What sending these messages does to the policy's state.

  lemma {:induction false} ConfirmEffect(st: State, m: Message, ok: bool)
    requires m.OpenConfirm?
    ensures AfterEvent(st, Sent(m, ok))
         == st.(count := CountSend(st.count, m, ok), peer := m.recipient, window := m.window,
                channel := if ok then Open else Stopped)
  {
  }

  lemma {:induction false} AdjustEffect(st: State, m: Message, ok: bool)
    requires m.Adjust?
    ensures AfterEvent(st, Sent(m, ok))
         == st.(count := CountSend(st.count, m, ok), window := st.window + m.amount, reply := None)
  {
  }

  lemma {:induction false} CloseEffect(st: State, m: Message, ok: bool)
    requires m.Close?
    ensures AfterEvent(st, Sent(m, ok))
         == st.(count := CountSend(st.count, m, ok), channel := if ok then Closed else Stopped)
  {
  }

  lemma {:induction false} VerdictEffect(st: State, m: Message, ok: bool)
    requires m.AuthFailure? || m.PkOk? || m.AuthSuccess?
    ensures AfterEvent(st, Sent(m, ok)) == st.(count := CountSend(st.count, m, ok), due := false)
  {
  }

  lemma {:induction false} RequestEffect(st: State, m: Message, ok: bool)
    requires m.ChannelSuccess? || m.ChannelFailure?
    ensures AfterEvent(st, Sent(m, ok))
         == st.(count := CountSend(st.count, m, ok), handled := true, granted := ok && m.ChannelSuccess?)
  {
  }

  lemma {:induction false} DataEffect(st: State, m: Message, ok: bool)
    requires m.Data?
    ensures AfterEvent(st, Sent(m, ok))
         == st.(count := CountSend(st.count, m, ok), child := st.child.(pending := []), remote := st.remote - |m.data|,
                channel := if ok then st.channel else Stopped)
  {
  }

  /** At most one packet was sent, and none failed if all is well. */
  ghost predicate OneSend(before: nat, after: nat, a: State, b: State, ok: bool) {
    after <= before + SENT_MAX && b.count.fails <= a.count.fails + if ok then 0 else 1
  }

  ghost predicate LastSendFailed(trace: seq<Event>) {
    trace != [] && trace[|trace| - 1].Sent? && !trace[|trace| - 1].ok
  }

  ghost predicate LastIsReading(trace: seq<Event>) {
    trace != [] && trace[|trace| - 1].ClockRead?
  }

  /** The last event is a reply of this kind. */
  ghost predicate Replied(trace: seq<Event>, m: Message, ok: bool) {
    trace != [] && trace[|trace| - 1] == Sent(m, ok)
  }

  /** Nothing changed but for what counts packets, and the answer that was due is given. */
  ghost predicate Quiet(a: State, b: State) {
    b == a.(count := b.count, reply := None)
  }

  /** Only data and requests to the connection as a whole wait for an answer. */
  lemma OthersWaitForNothing(p: Bytes, loggedIn: bool, inSession: bool)
    ensures p == [] || p[0] != MSG_CHANNEL_DATA ==> DataFor(p, inSession).None?
    ensures p == [] || (p[0] != MSG_GLOBAL_REQUEST && p[0] != MSG_SERVICE_REQUEST) ==> RequestReply(p, loggedIn, inSession).None?
    ensures p == [] || (p[0] != MSG_GLOBAL_REQUEST && inSession) ==> RequestReply(p, loggedIn, inSession).None?
  {
  }

  function PtyKind(): (b: Bytes)
    ensures |b| == 7
  {
    Ascii("pty-req")
  }

  function ExecKind(): (b: Bytes)
    ensures |b| == 4
  {
    Ascii("exec")
  }

  function ShellKind(): (b: Bytes)
    ensures |b| == 5
  {
    Ascii("shell")
  }

  /** Terminal name, four sizes and modes, with nothing behind them. */
  predicate IsPtyRequest(p: Bytes, off: nat) {
    match ReadString(p, off)
    case None => false
    case Some(term) =>
      && |term.data| < TERM_SIZE && 0 !in term.data && term.next + 16 <= |p|
      && var modes := ReadString(p, term.next + 16);
      && modes.Some? && modes.value.next == |p|
  }

  /** A command without NUL bytes that fits the buffer, with nothing behind it. */
  predicate IsCommand(p: Bytes, off: nat) {
    match ReadString(p, off)
    case None => false
    case Some(cmd) => |cmd.data| <= MAX_COMMAND_LEN && 0 !in cmd.data && cmd.next == |p|
  }

  /** The request starts a session: a command, or a shell with nothing behind it. */
  predicate Launches(p: Bytes, r: ChannelRequest) {
    (r.kind == ExecKind() && IsCommand(p, r.next)) || (r.kind == ShellKind() && r.next == |p|)
  }

  predicate Requests(kind: byte) {
    kind == MSG_GLOBAL_REQUEST || kind == MSG_SERVICE_REQUEST || kind == UserAuth.MSG_USERAUTH_REQUEST || kind == MSG_CHANNEL_OPEN
  }

  predicate Handled(kind: byte) {
    Requests(kind) || kind == MSG_CHANNEL_DATA || kind == MSG_CHANNEL_EOF || kind == MSG_CHANNEL_CLOSE
  }

  function SessionKind(): (b: Bytes)
    ensures |b| == 7
  {
    Ascii("session")
  }

  function ReadSessionOpen(p: Bytes): Option<OpenRequest> {
    match ReadOpen(p)
    case None => None
    case Some(r) => if r.kind == SessionKind() then Some(r) else None
  }

  /** The bytes of an open for a session channel, and whatever follows. */
  predicate Opening(p: Bytes, sender: uint32, window: uint32, maxPacket: uint32) {
    [90] + Str(Ascii("session")) + U32(sender) + U32(window) + U32(maxPacket) <= p
  }

  lemma {:induction false} OpeningRead(p: Bytes, sender: uint32, window: uint32, maxPacket: uint32)
    requires p != [] && p[0] == 90
    ensures ReadSessionOpen(p) == Some(OpenRequest(Ascii("session"), sender, window, maxPacket)) <==>
            Opening(p, sender, window, maxPacket)
  {
    hide ReadOpen, Str, U32;
    OpenExactly(p, OpenRequest(Ascii("session"), sender, window, maxPacket));
  }

  /** Any packet is read as an open exactly by the fields it is written from. */
  lemma {:induction false} OpeningsRead(p: Bytes)
    requires p != [] && p[0] == 90
    ensures forall sender, window, maxPacket :: Opening(p, sender, window, maxPacket) ==>
      ReadSessionOpen(p) == Some(OpenRequest(Ascii("session"), sender, window, maxPacket))
    ensures ReadSessionOpen(p).Some? ==> var r := ReadSessionOpen(p).value; Opening(p, r.sender, r.window, r.maxPacket)
  {
    hide Opening, ReadOpen;
    forall sender, window, maxPacket
      ensures Opening(p, sender, window, maxPacket) ==>
        ReadSessionOpen(p) == Some(OpenRequest(Ascii("session"), sender, window, maxPacket))
    {
      OpeningRead(p, sender, window, maxPacket);
    }
    if ReadSessionOpen(p).Some? {
      var r := ReadSessionOpen(p).value;
      OpeningRead(p, r.sender, r.window, r.maxPacket);
    }
  }

  ghost predicate SameButAuth(a: State, b: State) {
    b == a.(count := b.count, due := b.due, approved := b.approved, user := b.user)
  }

  /** The most that is read from the child at a time: a buffer, the peer's window, and the peer's packet size less 64. */
  function Cap(window: uint32, maxPacket: uint32): nat {
    var a := if MAX_DATA_LEN > window then window else MAX_DATA_LEN;
    if maxPacket > 64 && a > maxPacket - 64 then maxPacket - 64 else a
  }

  /** What a data packet takes of the bytes it is given: cut to the packet size, and refused beyond the window. */
  function ChunkOf(data: Bytes, window: uint32, maxPacket: uint32): Option<Bytes> {
    var most := if maxPacket > 64 && MAX_DATA_LEN > maxPacket - 64 then maxPacket - 64 else MAX_DATA_LEN;
    var chunk := if |data| > most then data[..most] else data;
    if data == [] || window < |chunk| then None else Some(chunk)
  }

  /** Bytes go out whole exactly when they fit what is read at a time: a chunk that was read under the cap is never cut or refused. */
  lemma ChunkWhole(data: Bytes, window: uint32, maxPacket: uint32)
    ensures ChunkOf(data, window, maxPacket) == Some(data) <==> 0 < |data| <= Cap(window, maxPacket)
  {
  }

  /**
   * The packets that end a session at once: data that are malformed or beyond the window, an adjustment that is malformed or
   * beyond 32 bits, a malformed global request, EOF or CLOSE, under a terminal a malformed channel request, and DISCONNECT.
   */
  predicate EndsSession(p: Bytes, localWindow: uint32, remoteWindow: uint32, pty: bool) {
    p == [] ||
    if p[0] == 94 then ReadData(p, 0).None? || |ReadData(p, 0).value| > localWindow
    else if p[0] == 93 then ReadAdjust(p, 0).None? || remoteWindow + ReadAdjust(p, 0).value >= 0x1_0000_0000
    else if p[0] == 80 then ReadGlobal(p).None?
    else if p[0] == 96 || p[0] == 97 then !IsChannelEnd(p, 0)
    else if p[0] == 98 then pty && (ReadU32(p, 1) != Some(0) || ReadRequest(p).None?)
    else p[0] == 1
  }

  /** The child's output and exit are as they were, and nothing is in hand. */
  ghost predicate SameTail(a: Child, b: Child) {
    b == a.(owed := b.owed, written := b.written, eots := b.eots)
  }

  ghost predicate Refused(before: seq<Event>, after: seq<Event>, channel: uint32, wantReply: bool) {
    if wantReply then exists ok :: after == before + [Sent(ChannelFailure(channel), ok)] else after == before
  }

  ghost predicate Accepted(before: seq<Event>, after: seq<Event>, channel: uint32, wantReply: bool, ok: bool) {
    if wantReply then after == before + [Sent(ChannelSuccess(channel), ok)] else ok && after == before
  }

  /** An offer whose signature verifies over this session's id, the user and the key. */
  predicate SignedOffer(cx: Context, p: Bytes) {
    match UserAuth.ReadOffer(p)
    case Offered(user, flag, key, reqLen) =>
      && flag == 1 && reqLen <= |p|
      && var signature := UserAuth.ReadSignature(p, reqLen);
      && signature.Some? && cx.suite.edVerify(key, UserAuth.Rebuilt(cx.sessionId, p, reqLen), signature.value)
    case _ => false
  }

  /** The answer to a request that is not malformed: success, the key's acceptance, or failure. */
  function AuthReply(p: Bytes, approved: bool, admitted: bool): Message {
    match UserAuth.ReadOffer(p)
    case Offered(_, flag, key, reqLen) =>
      if admitted then AuthSuccess
      else if approved && flag == 0 && reqLen == |p| then PkOk(UserAuth.Ed25519(), UserAuth.Blob(key))
      else AuthFailure
    case _ => AuthFailure
  }

  /** For every user name of 1 to 64 bytes without NUL, the client's own request is such an offer, for the key it signs with. */
  lemma {:induction false} ClientRequestIsSigned(cx: Context, user: Bytes, secretKey: Digest)
    requires cx.suite.Lawful() && 1 <= |user| <= UserAuth.MAX_USERNAME_LEN && 0 !in user
    ensures var key := cx.suite.edPublic(secretKey);
      var signature := cx.suite.edSign(secretKey, UserAuth.ToSign(cx.sessionId, UserAuth.Request(user, 1, key)));
      SignedOffer(cx, UserAuth.SignedRequest(user, key, signature))
  {
    UserAuth.SignedRequestVerifies(cx.suite, user, cx.sessionId, secretKey);
  }

  class Connection {
    const cx: Context
    const hasTransportFd: bool
    const s2cIv: Block
    var s2cCounter: Block
    var userauthServiceReady: bool
    var connectionServiceReady: bool
    var authenticated: bool
    var authenticatedUser: Bytes
    var authAttempts: nat
    var sessionStarted: bool
    var wantPty: bool
    var channelOpen: bool
    var localChannelId: uint32
    var remoteChannelId: uint32
    var localWindowSize: uint32
    var remoteWindowSize: uint32
    var remoteMaxPacketSize: uint32
    var sendSeq: uint32
    var encryptedBytesSent: nat
    var encryptedBytesRecv: nat
    var closeDeadline: uint64
    ghost var trace: seq<Event>
    ghost var st: State
    ghost var childInput: Bytes
    ghost var hindered: bool        // the transport, poll, fork or the child has failed

    // ----- what holds -----

    /** The trace so far keeps to the policy, and st is the state it leads to. */
    ghost predicate Follows()
      reads this`trace, this`st
    {
      Lawful(cx, trace) && st == StateOf(trace)
    }

    /**
     * Every packet sent is counted once in the sequence number and with at least 48 bytes; three went out in the clear. The
     * counter has moved on from the IV by the blocks of all packets, those that could not be sent included.
     */
    ghost predicate Counted()
      reads this`s2cCounter, this`sendSeq, this`encryptedBytesSent, this`st
    {
      && sendSeq == 3 + st.count.packets && 48 * st.count.packets <= encryptedBytesSent
      && s2cCounter == CtrAdd(s2cIv, st.count.blocks)
    }

    /** At most k packets since the threshold was last checked. */
    ghost predicate Within(k: nat)
      reads this`encryptedBytesSent
    {
      encryptedBytesSent < REKEY_THRESHOLD + k * SENT_MAX
    }

    ghost predicate AuthLinked()
      reads this`authenticated, this`authenticatedUser, this`st
    {
      && (authenticated <==> st.user.Some?)
      && (authenticated ==> authenticatedUser == st.user.value && authenticatedUser != [])
    }

    /** What the fields and the policy's state have in common at any time. */
    ghost predicate Linked()
      reads this`trace, this`st, this`s2cCounter, this`sendSeq, this`encryptedBytesSent, this`authenticated
      reads this`authenticatedUser, this`authAttempts, this`closeDeadline, this`localChannelId, this`remoteChannelId
      reads this`localWindowSize
    {
      && Follows() && Counted() && AuthLinked()
      && authAttempts == st.count.tries && closeDeadline == st.drain.deadline && !st.drain.expired && !st.done
      && localChannelId == 0 && localWindowSize == st.window <= WINDOW_SIZE + WINDOW_BUMP && remoteChannelId == st.peer
    }

    /** This packet was received last, and nothing was done about it. */
    ghost predicate Posed(p: Bytes)
      reads this`st
    {
      && st.last == p && !st.handled && st.child.owed == DataFor(p, st.channel == InSession)
      && st.reply == if st.child.owed.Some? then None else RequestReply(p, st.user.Some?, st.channel == InSession)
    }

    /** Between packets, outside a session. */
    ghost predicate Idle()
      reads this
    {
      && Linked() && st.child.pending == [] && !st.due
      && (channelOpen <==> st.channel == Open)
      && (channelOpen ==> authenticated && closeDeadline == 0 && remoteMaxPacketSize >= 128)
      && (!channelOpen ==> st.channel == NoChannel || (st.channel == Closed && closeDeadline != 0))
      && (st.channel != Closed ==> Fresh())
    }

    /** No session has run. */
    ghost predicate Fresh()
      reads this`st, this`childInput
    {
      childInput == st.child.written && !st.child.ended && st.child.exited == None && st.status == None
    }

    /** The packet received last is a channel request that nothing was done about. */
    ghost predicate Requested(wantReply: bool)
      reads this`st
    {
      st.last != [] && st.last[0] == MSG_CHANNEL_REQUEST && WantsReply(st.last) == wantReply && !st.handled
    }

    /** Its reply, if it wants one, was sent. */
    ghost predicate Granted()
      reads this`st
    {
      st.last != [] && st.last[0] == MSG_CHANNEL_REQUEST && (WantsReply(st.last) ==> st.granted)
    }

    /** Between packets, while the session runs: what the child was given is what the trace says. */
    ghost predicate InTheSession()
      reads this
    {
      && Linked() && st.channel == InSession && st.child.pending == [] && Clear(st) && !st.due
      && remoteWindowSize == st.remote && remoteMaxPacketSize >= 128
      && channelOpen && closeDeadline == 0
      && childInput == st.child.written && wantPty == st.child.pty
    }

    /** What the session loop knows of the child is what the trace says. */
    ghost predicate Knows(tail: Tail)
      reads this`st
    {
      && tail.outputEof == st.child.ended
      && st.child.exited == if tail.reaped then Some(tail.status) else None
    }

    /** The session's channel is closed, by its own CLOSE or by the answer to the peer's. */
    ghost predicate Over()
      reads this
    {
      Linked() && st.child.pending == [] && Clear(st) && !st.due && !channelOpen && st.channel == Closed && closeDeadline == 0
    }

    /** The child is done and its exit status was sent, or the peer closed the channel. */
    ghost predicate EndedWell()
      reads this`st
    {
      (st.child.ended && st.status.Some? && Reports(st.child.exited, st.status.value)) || IsClose(st.last, 0)
    }

    /** What is certain however the run ends. */
    ghost predicate Kept()
      reads this`trace, this`st, this`s2cCounter, this`sendSeq, this`encryptedBytesSent
    {
      Follows() && Counted() && Within(5) && 48 * st.count.fails < REKEY_THRESHOLD
    }

    /** Each packet received pays for one more packet that cannot be sent. */
    ghost predicate Paid(k: nat)
      reads this`st, this`encryptedBytesRecv
    {
      48 * (st.count.fails + k) <= encryptedBytesRecv
    }

    constructor (cx: Context, hasTransportFd: bool, s2cIv: Block)
      ensures Idle() && Clear(st) && Within(0) && Paid(0) && trace == [] && this.cx == cx && this.s2cIv == s2cIv && s2cCounter == s2cIv
    {
      AdvanceZero(s2cIv);
      this.cx := cx;
      this.hasTransportFd := hasTransportFd;
      this.s2cIv, s2cCounter := s2cIv, s2cIv;
      userauthServiceReady, connectionServiceReady, authenticated, authenticatedUser := false, false, false, [];
      authAttempts, sessionStarted, wantPty, channelOpen := 0, false, false, false;
      localChannelId, remoteChannelId, localWindowSize, remoteWindowSize, remoteMaxPacketSize := 0, 0, 0, 0, 0;
      sendSeq, encryptedBytesSent, encryptedBytesRecv, closeDeadline := 3, 0, 0, 0;
      trace, st, childInput := [], Initial(), [];
    }

    /** The ghost record of an event: it must be one that the policy allows here. */
    ghost method Log(e: Event)
      requires Follows() && Allowed(cx, st, e)
      modifies this`trace, this`st
      ensures Follows() && trace == old(trace) + [e] && st == AfterEvent(old(st), e)
    {
      LawfulGrows(cx, trace, e);
      trace := trace + [e];
      st := AfterEvent(st, e);
    }

    // ----- packets -----

    /** srv_send_packet: the counter moves on before sending is tried; the rest is counted only if it succeeds. */
    method Send(m: Message) returns (ok: bool)
      requires Follows() && Counted() && Within(5) && Allowed(cx, st, Sent(m, true))
      modifies this`s2cCounter, this`sendSeq, this`encryptedBytesSent, this`trace, this`st
      ensures Follows() && Counted() && OneSend(old(encryptedBytesSent), encryptedBytesSent, old(st), st, ok)
      ensures s2cCounter == CtrAdd(old(s2cCounter), m.Blocks())
      ensures encryptedBytesSent == old(encryptedBytesSent) + if ok then PacketBytes(m) else 0
      ensures st == AfterEvent(old(st), Sent(m, ok)) && trace == old(trace) + [Sent(m, ok)]
    {
      hide StateOf, Lawful, MaySend, AfterEvent;
      ok :| true;
      SendCounts(cx, st, m, ok);
      s2cCounter := CtrAdd(s2cCounter, m.Blocks());
      AdvanceAdvance(s2cIv, st.count.blocks, m.Blocks());
      if ok {
        CountPacket(PacketBytes(m));
      }
      Log(Sent(m, ok));
    }

    method CountPacket(size: nat)
      requires 48 <= size <= SENT_MAX && Within(5)
      requires sendSeq == 3 + st.count.packets && 48 * st.count.packets <= encryptedBytesSent
      modifies this`sendSeq, this`encryptedBytesSent
      ensures sendSeq == 3 + st.count.packets + 1 && 48 * (st.count.packets + 1) <= encryptedBytesSent
      ensures encryptedBytesSent == old(encryptedBytesSent) + size
    {
      encryptedBytesSent := encryptedBytesSent + size;
      sendSeq := Wrap32(sendSeq + 1);
    }

    /** srv_recv_packet: any payload at all, or failure. A packet has at least one block and a MAC. */
    method Receive() returns (p: Option<Bytes>)
      requires Follows() && MayReceive(st) && !st.done && !st.drain.expired
      modifies this`encryptedBytesRecv, this`hindered, this`trace, this`st
      ensures Follows() && hindered == (old(hindered) || p.None?)
      ensures st == if p.Some? then AfterEvent(old(st), Received(p.value)) else old(st)
      ensures trace == if p.Some? then old(trace) + [Received(p.value)] else old(trace)
      ensures encryptedBytesRecv >= old(encryptedBytesRecv) + if p.Some? then 48 else 0
    {
      var size: nat :| size >= 48;
      p :| true;
      if p.Some? {
        encryptedBytesRecv := encryptedBytesRecv + size;
        Log(Received(p.value));
      } else {
        hindered := true;
      }
    }

    predicate ThresholdReached()
      reads this`encryptedBytesSent, this`encryptedBytesRecv
    {
      encryptedBytesSent >= REKEY_THRESHOLD || encryptedBytesRecv >= REKEY_THRESHOLD
    }

    // ----- service requests, authentication and opening -----

    /** Answers the packet received last. */
    method SendAnswer(m: Message) returns (ok: bool)
      requires Linked() && Within(4) && m.Fits() && st.reply == Some(m) && (m.ServiceAccept? || m.RequestFailure?)
      modifies this`s2cCounter, this`sendSeq, this`encryptedBytesSent, this`trace, this`st
      ensures Linked() && OneSend(old(encryptedBytesSent), encryptedBytesSent, old(st), st, ok)
      ensures Quiet(old(st), st) && trace == old(trace) + [Sent(m, ok)]
    {
      hide StateOf;
      ok := Send(m);
    }

    /** srv_handle_global_request */
    method HandleGlobalRequest(p: Bytes) returns (ok: bool)
      requires Linked() && Within(4) && Posed(p) && p != [] && p[0] == MSG_GLOBAL_REQUEST
      modifies this`s2cCounter, this`sendSeq, this`encryptedBytesSent, this`trace, this`st
      ensures Linked() && OneSend(old(encryptedBytesSent), encryptedBytesSent, old(st), st, ok)
      ensures Quiet(old(st), st)
      ensures ReadGlobal(p).None? ==> !ok && trace == old(trace)
      ensures ReadGlobal(p) == Some(false) ==> ok && trace == old(trace)
      ensures ReadGlobal(p) == Some(true) ==> trace == old(trace) + [Sent(RequestFailure, ok)]
      ensures !ok ==> ReadGlobal(p).None? || LastSendFailed(trace)
    {
      var reply := ReadGlobal(p);
      if reply.None? {
        return false;
      }
      ok := true;
      if reply.value {
        ok := SendAnswer(RequestFailure);
      }
    }

    /** Authentication may always be requested; the connection service only once authenticated. */
    method HandleServiceRequest(p: Bytes) returns (ok: bool)
      requires Linked() && Within(4) && Posed(p) && st.channel != InSession && p != [] && p[0] == MSG_SERVICE_REQUEST
      modifies this`userauthServiceReady, this`connectionServiceReady
      modifies this`s2cCounter, this`sendSeq, this`encryptedBytesSent, this`trace, this`st
      ensures Linked() && OneSend(old(encryptedBytesSent), encryptedBytesSent, old(st), st, ok)
      ensures Quiet(old(st), st)
      ensures userauthServiceReady <==> old(userauthServiceReady) || AsksFor(p, UserAuth.Userauth())
      ensures connectionServiceReady <==> old(connectionServiceReady) || (authenticated && AsksFor(p, UserAuth.Connection()))
      ensures if AsksFor(p, UserAuth.Userauth()) then trace == old(trace) + [Sent(ServiceAccept(UserAuth.Userauth()), ok)]
        else if authenticated && AsksFor(p, UserAuth.Connection())
          then trace == old(trace) + [Sent(ServiceAccept(UserAuth.Connection()), ok)]
        else !ok && trace == old(trace)
    {
      hide StateOf, Lawful, Allowed, AfterEvent;
      var service := ReadString(p, 1);
      if service.None? {
        return false;
      }
      if service.value.data == UserAuth.Userauth() {
        userauthServiceReady := true;
        ok := SendAnswer(ServiceAccept(UserAuth.Userauth()));
      } else if authenticated && service.value.data == UserAuth.Connection() {
        connectionServiceReady := true;
        ok := SendAnswer(ServiceAccept(UserAuth.Connection()));
      } else {
        ok := false;
      }
    }

    /** The public-key callback. */
    method Ask(user: Bytes, key: Digest) returns (yes: bool)
      requires Linked() && st.user.None?
      modifies this`trace, this`st
      ensures Linked() && st == old(st).(approved := if yes then Some(Approval(user, key)) else None)
      ensures trace == old(trace) + [Asked(user, key, yes)]
    {
      yes :| true;
      Log(Asked(user, key, yes));
    }

    predicate AuthDue(p: Bytes)
      reads this`userauthServiceReady, this`authenticated, this`authAttempts
    {
      userauthServiceReady && !authenticated && authAttempts < 6 && !UserAuth.ReadOffer(p).Malformed?
    }

    /** USERAUTH_REQUEST as the packet loop takes it: the service must be ready, nobody logged in, and six tries not used up. */
    method HandleAuth(p: Bytes) returns (ok: bool)
      requires Linked() && Within(4)
      modifies this`authAttempts, this`authenticated, this`authenticatedUser, this`connectionServiceReady
      modifies this`s2cCounter, this`sendSeq, this`encryptedBytesSent, this`trace, this`st
      ensures Follows() && Counted() && OneSend(old(encryptedBytesSent), encryptedBytesSent, old(st), st, ok) && !st.done
      ensures ok ==> Linked() && SameButAuth(old(st), st) && !st.due
      ensures !userauthServiceReady || old(authenticated) || old(authAttempts) >= 6 ==> !ok && trace == old(trace)
      ensures old(AuthDue(p)) ==> Replied(trace, AuthReply(p, st.approved.Some?, authenticated), ok)
      ensures !old(AuthDue(p)) ==> !ok
      ensures userauthServiceReady && !old(authenticated) && old(authAttempts) < 6 && !UserAuth.ReadOffer(p).Malformed? ==>
        Replied(trace, AuthReply(p, st.approved.Some?, authenticated), ok)
    {
      hide StateOf, Lawful, CountSend, MaySend;
      if !userauthServiceReady {
        return false;
      }
      if authenticated {
        return false;
      }
      authAttempts := authAttempts + 1;
      if authAttempts > 6 {
        return false;
      }
      Log(AuthTried);
      ok := HandleUserAuthRequest(p);
    }

    /** srv_handle_userauth_request: the callback is asked before the signature is looked at. */
    method HandleUserAuthRequest(p: Bytes) returns (ok: bool)
      requires Linked() && Within(4) && st.user.None? && st.approved.None? && st.due
      modifies this`authenticated, this`authenticatedUser, this`connectionServiceReady
      modifies this`s2cCounter, this`sendSeq, this`encryptedBytesSent, this`trace, this`st
      ensures Linked() && OneSend(old(encryptedBytesSent), encryptedBytesSent, old(st), st, ok)
      ensures SameButAuth(old(st), st) && (ok ==> !st.due)
      ensures authenticated <==> SignedOffer(cx, p) && st.approved.Some?
      ensures authenticated ==> authenticatedUser == UserAuth.ReadOffer(p).user
      ensures UserAuth.ReadOffer(p).Malformed? ==> !ok && trace == old(trace)
      ensures !UserAuth.ReadOffer(p).Malformed? ==> Replied(trace, AuthReply(p, st.approved.Some?, authenticated), ok)
    {
      var offer := UserAuth.ReadOffer(p);
      match offer {
        case Malformed =>
          ok := false;
        case Refused =>
          ok := SendVerdict(AuthFailure);
        case Offered(_, _, _, _) =>
          ok := HandleOffer(p);
      }
    }

    /** Answers the authentication request in hand. */
    method SendVerdict(m: Message) returns (ok: bool)
      requires Linked() && Within(4) && m.Fits() && st.due
      requires m.AuthFailure? || m.PkOk? || (m.AuthSuccess? && authenticated)
      modifies this`s2cCounter, this`sendSeq, this`encryptedBytesSent, this`trace, this`st
      ensures Linked() && OneSend(old(encryptedBytesSent), encryptedBytesSent, old(st), st, ok)
      ensures st == old(st).(count := st.count, due := false) && trace == old(trace) + [Sent(m, ok)]
    {
      hide StateOf, Lawful, AfterEvent;
      ghost var before := st;
      ok := Send(m);
      VerdictEffect(before, m, ok);
    }

    method HandleOffer(p: Bytes) returns (ok: bool)
      requires Linked() && Within(4) && st.user.None? && st.approved.None? && st.due && UserAuth.ReadOffer(p).Offered?
      modifies this`authenticated, this`authenticatedUser, this`connectionServiceReady
      modifies this`s2cCounter, this`sendSeq, this`encryptedBytesSent, this`trace, this`st
      ensures Linked() && OneSend(old(encryptedBytesSent), encryptedBytesSent, old(st), st, ok)
      ensures SameButAuth(old(st), st) && !st.due
      ensures authenticated <==> SignedOffer(cx, p) && st.approved.Some?
      ensures authenticated ==> authenticatedUser == UserAuth.ReadOffer(p).user
      ensures Replied(trace, AuthReply(p, st.approved.Some?, authenticated), ok)
    {
      hide StateOf, AfterEvent;
      var offer := UserAuth.ReadOffer(p);
      UserAuth.OfferIsBound(cx.sessionId, p);
      var yes := Ask(offer.user, offer.key);
      if !yes {
        ok := SendVerdict(AuthFailure);
      } else if offer.flag == 0 {
        ok := AnswerQuery(offer.reqLen == |p|, offer.key);
      } else {
        ok := CheckSignature(p, offer.user, offer.flag, offer.key, offer.reqLen);
      }
    }

    /** A request without signature asks whether the key would do. */
    method AnswerQuery(complete: bool, key: Digest) returns (ok: bool)
      requires Linked() && Within(4) && st.due
      modifies this`s2cCounter, this`sendSeq, this`encryptedBytesSent, this`trace, this`st
      ensures Linked() && OneSend(old(encryptedBytesSent), encryptedBytesSent, old(st), st, ok)
      ensures st == old(st).(count := st.count, due := false)
      ensures Replied(trace, if complete then PkOk(UserAuth.Ed25519(), UserAuth.Blob(key)) else AuthFailure, ok)
    {
      if complete {
        ok := SendVerdict(PkOk(UserAuth.Ed25519(), UserAuth.Blob(key)));
      } else {
        ok := SendVerdict(AuthFailure);
      }
    }

    method CheckSignature(p: Bytes, user: Bytes, flag: byte, key: Digest, reqLen: nat) returns (ok: bool)
      requires Linked() && Within(4) && st.user.None? && st.approved == Some(Approval(user, key)) && st.due
      requires UserAuth.ReadOffer(p) == UserAuth.Offered(user, flag, key, reqLen) && flag == 1
      requires reqLen <= |p| && 1 <= |user| <= UserAuth.MAX_USERNAME_LEN
      requires UserAuth.Rebuilt(cx.sessionId, p, reqLen) == UserAuth.ToSign(cx.sessionId, UserAuth.Request(user, flag, key))
      modifies this`authenticated, this`authenticatedUser, this`connectionServiceReady
      modifies this`s2cCounter, this`sendSeq, this`encryptedBytesSent, this`trace, this`st
      ensures Linked() && OneSend(old(encryptedBytesSent), encryptedBytesSent, old(st), st, ok)
      ensures SameButAuth(old(st), st) && st.approved == old(st).approved && !st.due
      ensures authenticated <==> SignedOffer(cx, p)
      ensures authenticated ==> authenticatedUser == user
      ensures Replied(trace, if authenticated then AuthSuccess else AuthFailure, ok)
    {
      hide StateOf, Lawful, Allowed, AfterEvent, UserAuth.ToSign, UserAuth.Rebuilt;
      var signature := UserAuth.ReadSignature(p, reqLen);
      if signature.None? || !cx.suite.edVerify(key, UserAuth.Rebuilt(cx.sessionId, p, reqLen), signature.value) {
        ok := SendVerdict(AuthFailure);
      } else {
        Store(user, key, signature.value);
        ok := SendVerdict(AuthSuccess);
      }
    }

    method Store(user: Bytes, key: Digest, signature: Signature)
      requires Linked() && st.user.None? && st.approved == Some(Approval(user, key)) && 1 <= |user| <= UserAuth.MAX_USERNAME_LEN
      requires cx.suite.edVerify(key, UserAuth.ToSign(cx.sessionId, UserAuth.Request(user, 1, key)), signature)
      modifies this`authenticated, this`authenticatedUser, this`connectionServiceReady, this`trace, this`st
      ensures Linked() && st == old(st).(user := Some(user))
      ensures authenticated && authenticatedUser == user && connectionServiceReady
    {
      hide StateOf, Lawful, CountSend, MaySend;
      authenticatedUser := user;
      authenticated := true;
      connectionServiceReady := true;
      Log(Login(user, key, signature));
    }

    predicate MayOpen(p: Bytes, open: bool)
      reads this`closeDeadline, this`authenticated, this`connectionServiceReady
    {
      && closeDeadline == 0 && authenticated && connectionServiceReady && !open
      && var r := ReadSessionOpen(p);
      && r.Some? && r.value.maxPacket >= 128
    }

    /** CHANNEL_OPEN: one session channel, for a logged-in user, before the drain, with packets of at least 128 bytes. */
    method HandleOpen(p: Bytes) returns (ok: bool)
      requires st.last == p && p != [] && p[0] == MSG_CHANNEL_OPEN
      requires Idle() && Clear(st) && Within(4)
      modifies this`channelOpen, this`remoteChannelId, this`localChannelId, this`localWindowSize
      modifies this`remoteWindowSize, this`remoteMaxPacketSize
      modifies this`s2cCounter, this`sendSeq, this`encryptedBytesSent, this`trace, this`st
      ensures st.drain == old(st).drain
      ensures Linked() && OneSend(old(encryptedBytesSent), encryptedBytesSent, old(st), st, ok)
      ensures ok ==> Idle() && Clear(st) && channelOpen
      ensures MayOpen(p, old(channelOpen)) ==>
        && trace == old(trace) + [Sent(OpenConfirm(ReadSessionOpen(p).value.sender, 0, WINDOW_SIZE, CHANNEL_MAX_PACKET), ok)]
        && remoteWindowSize == ReadSessionOpen(p).value.window && remoteMaxPacketSize == ReadSessionOpen(p).value.maxPacket
      ensures !MayOpen(p, old(channelOpen)) ==> !ok && trace == old(trace)
      ensures forall sender, window, maxPacket ::
        Opening(p, sender, window, maxPacket) && maxPacket >= 128 && closeDeadline == 0 && authenticated && connectionServiceReady
        && !old(channelOpen) ==>
          && trace == old(trace) + [Sent(OpenConfirm(sender, 0, 65536, 32768), ok)] && remoteChannelId == sender
          && remoteWindowSize == window && remoteMaxPacketSize == maxPacket && localWindowSize == 65536
      ensures trace != old(trace) ==> exists sender, window, maxPacket :: Opening(p, sender, window, maxPacket) && maxPacket >= 128
      ensures trace != old(trace) ==> closeDeadline == 0 && authenticated && connectionServiceReady && !old(channelOpen)
      ensures trace == old(trace) ==> !ok
    {
      hide StateOf, Lawful, Allowed, AfterEvent, ReadSessionOpen, Opening;
      OpeningsRead(p);
      if !MayOpen(p, channelOpen) {
        return false;
      }
      var r := ReadSessionOpen(p).value;
      remoteWindowSize := r.window;
      remoteMaxPacketSize := r.maxPacket;
      ok := OpenChannel(r.sender);
    }

    method OpenChannel(sender: uint32) returns (ok: bool)
      requires st.last != [] && st.last[0] == MSG_CHANNEL_OPEN
      requires Idle() && Clear(st) && Within(4) && closeDeadline == 0 && authenticated && !channelOpen && remoteMaxPacketSize >= 128
      modifies this`channelOpen, this`remoteChannelId, this`localChannelId, this`localWindowSize
      modifies this`s2cCounter, this`sendSeq, this`encryptedBytesSent, this`trace, this`st
      ensures st.drain == old(st).drain
      ensures Linked() && OneSend(old(encryptedBytesSent), encryptedBytesSent, old(st), st, ok)
      ensures ok ==> Idle() && Clear(st) && channelOpen
      ensures remoteChannelId == sender && localWindowSize == WINDOW_SIZE
      ensures trace == old(trace) + [Sent(OpenConfirm(sender, 0, WINDOW_SIZE, CHANNEL_MAX_PACKET), ok)]
    {
      ok := ConfirmOpen(sender);
      if ok {
        channelOpen := true;
      }
    }

    method ConfirmOpen(sender: uint32) returns (ok: bool)
      requires st.last != [] && st.last[0] == MSG_CHANNEL_OPEN
      requires Linked() && Clear(st) && Within(4) && st.channel == NoChannel && authenticated && closeDeadline == 0 && !st.due
      modifies this`remoteChannelId, this`localChannelId, this`localWindowSize
      modifies this`s2cCounter, this`sendSeq, this`encryptedBytesSent, this`trace, this`st
      ensures Linked() && OneSend(old(encryptedBytesSent), encryptedBytesSent, old(st), st, ok)
      ensures st == old(st).(count := st.count, peer := sender, window := WINDOW_SIZE, channel := if ok then Open else Stopped)
      ensures remoteChannelId == sender && localWindowSize == WINDOW_SIZE
      ensures trace == old(trace) + [Sent(OpenConfirm(sender, 0, WINDOW_SIZE, CHANNEL_MAX_PACKET), ok)]
    {
      hide StateOf, Lawful, AfterEvent;
      localChannelId := 0;
      remoteChannelId := sender;
      localWindowSize := WINDOW_SIZE;
      ghost var before := st;
      ok := Send(OpenConfirm(sender, localChannelId, localWindowSize, CHANNEL_MAX_PACKET));
      ConfirmEffect(before, OpenConfirm(sender, 0, WINDOW_SIZE, CHANNEL_MAX_PACKET), ok);
    }

    // ----- windows and the end of the channel -----

    /** srv_maybe_window_adjust: what it leaves is above the mark, and never above 327680. */
    method MaybeWindowAdjust() returns (ok: bool)
      requires Linked() && Within(4) && st.reply == AdjustAt(localWindowSize)
      modifies this`localWindowSize, this`s2cCounter, this`sendSeq, this`encryptedBytesSent, this`trace, this`st
      ensures Linked() && OneSend(old(encryptedBytesSent), encryptedBytesSent, old(st), st, ok)
      ensures st == old(st).(count := st.count, reply := None, window := localWindowSize)
      ensures localWindowSize > 65536
      ensures old(localWindowSize) > 65536 ==> ok && localWindowSize == old(localWindowSize) && trace == old(trace)
      ensures old(localWindowSize) <= 65536 ==>
        localWindowSize == old(localWindowSize) + 262144 && trace == old(trace) + [Sent(Adjust(0, 262144), ok)]
    {
      hide StateOf, Lawful, AfterEvent;
      if localWindowSize > WINDOW_SIZE {
        return true;
      }
      localWindowSize := localWindowSize + WINDOW_BUMP;
      ghost var before := st;
      ok := Send(Adjust(localChannelId, WINDOW_BUMP));
      AdjustEffect(before, Adjust(0, WINDOW_BUMP), ok);
    }

    /**
     * CHANNEL_DATA outside a session: the data are dropped, and the window is kept up regardless of whether that works. An
     * adjustment goes out exactly when the data are for the channel and leave no more than 65536 of the window.
     */
    method DropData(p: Bytes) returns (ok: bool)
      requires Idle() && Within(4) && Posed(p) && p != [] && p[0] == MSG_CHANNEL_DATA
      modifies this`localWindowSize, this`s2cCounter, this`sendSeq, this`encryptedBytesSent, this`trace, this`st
      ensures Idle() && Clear(st) && OneSend(old(encryptedBytesSent), encryptedBytesSent, old(st), st, false)
      ensures st.drain == old(st).drain
      ensures ok <==> ReadU32(p, 1).Some? && (ReadU32(p, 1) != Some(0) || ReadString(p, 5).Some?)
      ensures CarriedData(p, 0).None? ==> trace == old(trace) && localWindowSize == old(localWindowSize)
      ensures CarriedData(p, 0).Some? ==>
        DroppedData(old(trace), trace, CarriedData(p, 0).value, old(localWindowSize), localWindowSize)
    {
      hide StateOf, Lawful, CountSend, MaySend;
      OthersWaitForNothing(p, st.user.Some?, false);
      var recipient := ReadU32(p, 1);
      if recipient.None? {
        return false;
      }
      if recipient.value != localChannelId {
        return true;
      }
      var data := ReadString(p, 5);
      if data.None? {
        return false;
      }
      TakeOff(data.value.data);
      var _ := MaybeWindowAdjust();
      ok := true;
    }

    method TakeOff(data: Bytes)
      requires Linked() && Allowed(cx, st, Dropped(data))
      modifies this`localWindowSize, this`trace, this`st
      ensures Linked() && localWindowSize == WindowLeft(old(localWindowSize), |data|)
      ensures st == AfterEvent(old(st), Dropped(data)) && trace == old(trace) + [Dropped(data)]
    {
      hide StateOf, Lawful, CountSend, Allowed;
      if localWindowSize >= |data| {
        localWindowSize := localWindowSize - |data|;
      }
      Log(Dropped(data));
    }

    ghost predicate DroppedData(before: seq<Event>, after: seq<Event>, data: Bytes, window: uint32, windowNow: uint32) {
      var left := if |data| <= window then window - |data| else window;
      if left <= 65536
      then windowNow == left + 262144 && exists ok :: after == before + [Dropped(data)] + [Sent(Adjust(0, 262144), ok)]
      else windowNow == left && after == before + [Dropped(data)]
    }

    /** srv_handle_channel_end: a CLOSE is answered once, while the channel is open; EOF closes nothing. */
    method HandleChannelEnd(p: Bytes) returns (ok: bool)
      requires Linked() && Clear(st) && Within(4) && st.last == p && st.child.pending == []
      requires channelOpen ==> st.channel in {Open, InSession}
      modifies this`channelOpen, this`s2cCounter, this`sendSeq, this`encryptedBytesSent, this`trace, this`st
      ensures Linked() && OneSend(old(encryptedBytesSent), encryptedBytesSent, old(st), st, ok)
      ensures st == old(st).(count := st.count, channel := st.channel)
      ensures !IsChannelEnd(p, 0) ==> !ok
      ensures trace == if IsClose(p, 0) && old(channelOpen) then old(trace) + [Sent(Close(remoteChannelId), ok)] else old(trace)
      ensures IsChannelEnd(p, 0) && !(IsClose(p, 0) && old(channelOpen)) ==>
        ok && st.channel == old(st).channel && channelOpen == old(channelOpen)
      ensures ok && IsClose(p, 0) && old(channelOpen) ==> !channelOpen && st.channel == Closed
      ensures !ok ==> !IsChannelEnd(p, 0) || LastSendFailed(trace)
    {
      hide StateOf, Lawful, Allowed, AfterEvent;
      if !IsChannelEnd(p, localChannelId) {
        return false;
      }
      ok := true;
      if IsClose(p, localChannelId) && channelOpen {
        ok := SendClose();
        if ok {
          channelOpen := false;
        }
      }
    }

    /** A CLOSE ends the channel, whether it answers the peer's or follows the server's own EOF. */
    method SendClose() returns (ok: bool)
      requires Linked() && Clear(st) && Within(4) && st.child.pending == []
      requires st.channel == EofSent || (st.channel in {Open, InSession} && IsClose(st.last, 0))
      modifies this`s2cCounter, this`sendSeq, this`encryptedBytesSent, this`trace, this`st
      ensures Linked() && OneSend(old(encryptedBytesSent), encryptedBytesSent, old(st), st, ok)
      ensures st == old(st).(count := st.count, channel := if ok then Closed else Stopped)
      ensures trace == old(trace) + [Sent(Close(remoteChannelId), ok)]
    {
      hide StateOf, Lawful, AfterEvent;
      ghost var before := st;
      ok := Send(Close(remoteChannelId));
      CloseEffect(before, Close(remoteChannelId), ok);
    }

    method SendEof() returns (ok: bool)
      requires Linked() && Clear(st) && Within(4) && st.channel == StatusSent
      modifies this`s2cCounter, this`sendSeq, this`encryptedBytesSent, this`trace, this`st
      ensures Linked() && OneSend(old(encryptedBytesSent), encryptedBytesSent, old(st), st, ok)
      ensures st == old(st).(count := st.count, channel := if ok then EofSent else Stopped)
      ensures trace == old(trace) + [Sent(Eof(remoteChannelId), ok)]
    {
      hide StateOf, Lawful;
      ok := Send(Eof(remoteChannelId));
    }

    // ----- the drain -----

    method ReadClock() returns (now: uint64)
      requires Linked() && Clear(st) && st.drain.deadline == 0
      modifies this`trace, this`st
      ensures Linked() && st == old(st).(drain := AfterReading(old(st).drain, now)) && trace == old(trace) + [ClockRead(now)]
    {
      now :| true;
      Log(ClockRead(now));
    }

    /** srv_begin_close_wait: sets the deadline once; late packets cannot extend it. */
    method BeginCloseWait() returns (ok: bool)
      requires Linked() && Clear(st) && !Busy(st.channel) && st.channel != Open
      modifies this`closeDeadline, this`trace, this`st
      ensures Linked() && st == old(st).(drain := st.drain)
      ensures old(closeDeadline) != 0 ==> ok && closeDeadline == old(closeDeadline) && trace == old(trace) && st == old(st)
      ensures ok ==> closeDeadline != 0
      ensures !ok ==> LastIsReading(trace)
      ensures old(closeDeadline) == 0 && ok ==>
        && st.drain.clock.None? && closeDeadline >= DRAIN_MS
        && trace == old(trace) + [ClockRead(closeDeadline - DRAIN_MS), DeadlineSet(closeDeadline)]
    {
      hide StateOf;
      if closeDeadline != 0 {
        return true;
      }
      var now := ReadClock();
      if now == UINT64_MAX || now > UINT64_MAX - DRAIN_MS {
        return false;
      }
      closeDeadline := now + DRAIN_MS;
      Log(DeadlineSet(closeDeadline));
      ok := true;
    }

    /** srv_wait_close_packet: one reading of the clock. Below the deadline, whatever poll says; from it on, the drain is over. */
    method WaitClosePacket() returns (ready: Ready)
      requires Linked() && Clear(st) && closeDeadline != 0
      modifies this`trace, this`st
      ensures Follows() && Counted() && !st.done
      ensures exists now :: trace == old(trace) + [ClockRead(now)] && st.drain == AfterReading(old(st).drain, now)
      ensures st == old(st).(drain := st.drain)
      ensures ready == Readable || ready == Interrupted ==>
        Linked() && st.drain.clock.Some? && st.drain.clock.value < closeDeadline
    {
      var now: uint64 :| true;
      Log(ClockRead(now));
      if now == UINT64_MAX || !hasTransportFd {
        return WaitFailed;
      }
      if now >= closeDeadline {
        return HungUp;
      }
      ready :| true;
    }

    // ----- the session -----

    /** srv_write_child: writes until everything is out, as long as the child keeps taking; `patience` bounds the retries. */
    method WriteChild(data: Bytes) returns (ok: bool)
      modifies this`childInput, this`hindered
      ensures hindered == (old(hindered) || !ok)
      ensures ok ==> childInput == old(childInput) + data
      ensures !ok ==> exists n: nat :: n < |data| && childInput == old(childInput) + data[..n]
    {
      var pos: nat := 0;
      var patience: nat :| true;
      while pos < |data|
        invariant pos <= |data|
        invariant childInput == old(childInput) + data[..pos] && hindered == old(hindered)
        decreases |data| - pos, patience
      {
        var n: int :| n <= |data| - pos;
        if n > 0 {
          childInput := childInput + data[pos..pos + n];
          assert data[..pos] + data[pos..pos + n] == data[..pos + n];
          pos := pos + n;
        } else if patience > 0 {
          patience := patience - 1;
        } else {
          hindered := true;
          return false;
        }
      }
      assert data[..pos] == data;
      ok := true;
    }

    /** CHANNEL_DATA in a session: within the window and written to the child in full, or the session breaks off. */
    method SessionData(p: Bytes) returns (step: SessionStep)
      requires Linked() && Within(4) && st.channel == InSession && Posed(p) && p != [] && p[0] == MSG_CHANNEL_DATA
      requires childInput == st.child.written
      modifies this`childInput, this`hindered, this`localWindowSize, this`sendSeq, this`s2cCounter, this`encryptedBytesSent
      modifies this`trace, this`st
      ensures Linked() && OneSend(old(encryptedBytesSent), encryptedBytesSent, old(st), st, step.Go?)
      ensures st == old(st).(count := st.count, child := st.child, handled := st.handled, window := st.window, reply := st.reply)
      ensures SameTail(old(st).child, st.child) && !step.PeerClosed?
      ensures step.Go? ==> Clear(st) && localWindowSize > WINDOW_SIZE && childInput == st.child.written
      ensures step.Go? ==> old(st).child.owed.Some? && |old(st).child.owed.value| <= old(localWindowSize)
      ensures step.Go? ==> childInput == old(childInput) + old(st).child.owed.value
      ensures step.Break? ==> EndsSession(p, old(localWindowSize), remoteWindowSize, wantPty) || hindered || LastSendFailed(trace)
      ensures EndsSession(p, old(localWindowSize), remoteWindowSize, wantPty) ==> step.Break? && trace == old(trace)
    {
      hide StateOf, Lawful, CountSend, Allowed, ReadData, CtrAdd, RequestReply;
      var data := ReadData(p, localChannelId);
      if data.None? || |data.value| > localWindowSize {
        return Break;
      }
      var ok := FeedChild(data.value);
      if ok {
        ok := MaybeWindowAdjust();
      }
      step := if ok then Go else Break;
    }

    /** The data go to the child, and off the window once they are written. */
    method FeedChild(data: Bytes) returns (ok: bool)
      requires Linked() && st.channel == InSession && st.child.owed == Some(data) && |data| <= localWindowSize
      modifies this`childInput, this`hindered, this`localWindowSize, this`trace, this`st
      ensures Linked()
      ensures st == if ok then AfterEvent(old(st), ChildFed(data)) else old(st)
      ensures ok ==> childInput == old(childInput) + data && trace == old(trace) + [ChildFed(data)]
      ensures !ok ==> hindered
    {
      hide StateOf, CountSend;
      ok := WriteChild(data);
      if ok {
        localWindowSize := localWindowSize - |data|;
        Log(ChildFed(data));
      }
    }

    /** CHANNEL_WINDOW_ADJUST in a session: added, unless it would overflow 32 bits. */
    method SessionAdjust(p: Bytes) returns (step: SessionStep)
      requires Linked() && st.channel == InSession && remoteWindowSize == st.remote && st.last == p && !st.handled
      modifies this`remoteWindowSize, this`trace, this`st
      ensures Linked() && remoteWindowSize == st.remote && !step.PeerClosed?
      ensures st == old(st).(remote := st.remote, handled := st.handled)
      ensures step.Go? <==> ReadAdjust(p, 0).Some? && old(remoteWindowSize) + ReadAdjust(p, 0).value <= UINT32_MAX
      ensures step.Go? ==> remoteWindowSize == old(remoteWindowSize) + ReadAdjust(p, 0).value
      ensures !step.Go? ==> remoteWindowSize == old(remoteWindowSize)
    {
      hide StateOf;
      var amount := ReadAdjust(p, localChannelId);
      if amount.None? || amount.value > UINT32_MAX - remoteWindowSize {
        return Break;
      }
      remoteWindowSize := remoteWindowSize + amount.value;
      Log(Credited(amount.value));
      step := Go;
    }

    /** CHANNEL_REQUEST in a session with a terminal: only the window size may change, which is no part of this state. */
    method SessionRequest(p: Bytes) returns (step: SessionStep)
      requires localChannelId == 0
      ensures step == if ReadU32(p, 1) != Some(0) || ReadRequest(p).None? then Break else Go
    {
      var r := ReadRequest(p);
      step := if ReadU32(p, 1) != Some(localChannelId) || r.None? then Break else Go;
    }

    /** One packet of the session loop. */
    method SessionPacket() returns (step: SessionStep)
      requires InTheSession() && Within(4)
      modifies this`encryptedBytesRecv, this`childInput, this`hindered, this`localWindowSize, this`remoteWindowSize, this`channelOpen
      modifies this`s2cCounter, this`sendSeq, this`encryptedBytesSent, this`trace, this`st
      ensures Linked() && OneSend(old(encryptedBytesSent), encryptedBytesSent, old(st), st, !step.Break?)
      ensures st.child.pending == [] && SameTail(old(st).child, st.child) && encryptedBytesRecv >= old(encryptedBytesRecv)
      ensures step.Go? ==> InTheSession()
      ensures step.PeerClosed? ==> Over() && IsClose(st.last, 0)
      ensures step.Break? ==>
        EndsSession(st.last, old(localWindowSize), old(remoteWindowSize), wantPty) || hindered || LastSendFailed(trace)
    {
      hide StateOf, Lawful, CountSend, Allowed;
      var got := Receive();
      if got.None? || got.value == [] {
        return Break;
      }
      step := SessionDispatch(got.value);
    }

    method SessionDispatch(p: Bytes) returns (step: SessionStep)
      requires Linked() && Within(4) && st.channel == InSession && st.child.pending == [] && !st.due
      requires Posed(p) && p != [] && !st.handled
      requires remoteWindowSize == st.remote && remoteMaxPacketSize >= 128 && channelOpen && closeDeadline == 0
      requires childInput == st.child.written && wantPty == st.child.pty
      modifies this`childInput, this`hindered, this`localWindowSize, this`remoteWindowSize, this`channelOpen
      modifies this`s2cCounter, this`sendSeq, this`encryptedBytesSent, this`trace, this`st
      ensures Linked() && OneSend(old(encryptedBytesSent), encryptedBytesSent, old(st), st, !step.Break?)
      ensures st.child.pending == [] && SameTail(old(st).child, st.child) && st.last == p
      ensures step.Go? ==> InTheSession()
      ensures step.PeerClosed? ==> Over() && IsClose(st.last, 0)
      ensures step.Break? ==>
        EndsSession(p, old(localWindowSize), old(remoteWindowSize), wantPty) || hindered || LastSendFailed(trace)
      ensures EndsSession(p, old(localWindowSize), old(remoteWindowSize), wantPty) ==> step.Break?
    {
      hide StateOf, Lawful, Allowed, AfterEvent, ReadRequest, ReadGlobal, ReadData, ReadAdjust, IsChannelEnd, CtrAdd;
      OthersWaitForNothing(p, st.user.Some?, true);
      if p[0] == MSG_CHANNEL_DATA {
        step := SessionData(p);
      } else if p[0] == MSG_CHANNEL_WINDOW_ADJUST {
        step := SessionAdjust(p);
      } else {
        step := SessionOther(p);
      }
    }

    /** Packets of the session that are neither data nor a window adjustment. */
    method SessionOther(p: Bytes) returns (step: SessionStep)
      requires Linked() && Within(4) && st.channel == InSession && st.child.pending == [] && !st.due
      requires Posed(p) && p != [] && p[0] != MSG_CHANNEL_DATA && p[0] != MSG_CHANNEL_WINDOW_ADJUST && !st.handled
      requires remoteWindowSize == st.remote && remoteMaxPacketSize >= 128 && channelOpen && closeDeadline == 0
      requires childInput == st.child.written && wantPty == st.child.pty
      modifies this`childInput, this`hindered, this`channelOpen, this`s2cCounter, this`sendSeq, this`encryptedBytesSent, this`trace, this`st
      ensures Linked() && OneSend(old(encryptedBytesSent), encryptedBytesSent, old(st), st, !step.Break?)
      ensures st.child.pending == [] && SameTail(old(st).child, st.child) && st.last == p
      ensures step.Go? ==> InTheSession()
      ensures step.PeerClosed? ==> Over() && IsClose(st.last, 0)
      ensures step.Break? ==> EndsSession(p, localWindowSize, remoteWindowSize, wantPty) || LastSendFailed(trace)
      ensures EndsSession(p, localWindowSize, remoteWindowSize, wantPty) ==> step.Break?
    {
      hide StateOf, Lawful, Allowed, AfterEvent, ReadRequest, ReadGlobal, ReadData, ReadAdjust, RequestReply, CtrAdd;
      OthersWaitForNothing(p, st.user.Some?, true);
      if p[0] == MSG_GLOBAL_REQUEST {
        var ok := HandleGlobalRequest(p);
        step := if ok then Go else Break;
      } else if p[0] == MSG_CHANNEL_EOF || p[0] == MSG_CHANNEL_CLOSE {
        step := SessionEnd(p);
      } else if p[0] == MSG_DISCONNECT {
        step := Break;
      } else if p[0] == MSG_CHANNEL_REQUEST && wantPty {
        step := SessionRequest(p);
      } else {
        step := Go;
      }
    }

    /** EOF passes the end of input on to the child, as byte 4 under a terminal; CLOSE ends the session. */
    method SessionEnd(p: Bytes) returns (step: SessionStep)
      requires Linked() && Clear(st) && Within(4) && st.last == p && st.child.pending == [] && channelOpen && st.channel == InSession
      requires childInput == st.child.written && wantPty == st.child.pty && !st.handled
      modifies this`childInput, this`hindered, this`channelOpen, this`s2cCounter, this`sendSeq, this`encryptedBytesSent, this`trace, this`st
      ensures Linked() && OneSend(old(encryptedBytesSent), encryptedBytesSent, old(st), st, !step.Break?)
      ensures st == old(st).(count := st.count, channel := st.channel, child := st.child, handled := st.handled)
      ensures SameTail(old(st).child, st.child) && st.child.owed == old(st).child.owed
      ensures step.Go? ==> st.channel == InSession && channelOpen && childInput == st.child.written
      ensures step.PeerClosed? ==> !channelOpen && st.channel == Closed && IsClose(p, 0)
      ensures step.Break? ==> !IsChannelEnd(p, 0) || LastSendFailed(trace)
      ensures !IsChannelEnd(p, 0) ==> step.Break?
    {
      hide StateOf, CountSend;
      var ok := HandleChannelEnd(p);
      if !ok {
        return Break;
      }
      if IsClose(p, localChannelId) {
        return PeerClosed;
      }
      if wantPty {
        FeedEot();
      }
      step := Go;
    }

    /** Byte 4, whether or not the terminal takes it. */
    method FeedEot()
      requires Linked() && Allowed(cx, st, EotFed) && childInput == st.child.written
      modifies this`childInput, this`hindered, this`trace, this`st
      ensures Linked() && childInput == st.child.written
      ensures st == old(st) || st == AfterEvent(old(st), EotFed)
    {
      hide StateOf, Lawful, CountSend, Allowed;
      var ok := WriteChild([4]);
      if ok {
        Log(EotFed);
      } else {
        assert childInput == old(childInput) + [];
      }
    }

    // ----- the child's output -----

    function ReadCap(): nat
      reads this`remoteWindowSize, this`remoteMaxPacketSize
    {
      Cap(remoteWindowSize, remoteMaxPacketSize)
    }

    /** srv_send_channel_data_chunk: cuts the data to size and checks the window. What is read under the cap goes out whole. */
    method SendDataChunk(data: Bytes) returns (ok: bool)
      requires Linked() && Within(4) && st.channel == InSession && remoteWindowSize == st.remote
      requires st.child.pending == data && 0 < |data| <= ReadCap()
      modifies this`remoteWindowSize, this`s2cCounter, this`sendSeq, this`encryptedBytesSent, this`trace, this`st
      ensures Linked() && OneSend(old(encryptedBytesSent), encryptedBytesSent, old(st), st, ok)
      ensures trace == old(trace) + [Sent(Data(remoteChannelId, data), ok)]
      ensures st == old(st).(count := st.count, child := old(st).child.(pending := []), remote := st.remote, channel := st.channel)
      ensures ok ==> st.channel == InSession
      ensures remoteWindowSize == st.remote == old(remoteWindowSize) - |data|
    {
      hide StateOf, Lawful, AfterEvent, CtrAdd;
      var chunk := ChunkOf(data, remoteWindowSize, remoteMaxPacketSize);
      ChunkWhole(data, remoteWindowSize, remoteMaxPacketSize);
      ok := false;
      if chunk.Some? {
        remoteWindowSize := remoteWindowSize - |chunk.value|;
        ghost var before := st;
        ok := Send(Data(remoteChannelId, chunk.value));
        DataEffect(before, Data(remoteChannelId, data), ok);
      }
    }

    /** What was read goes out at once. */
    method PassOn(data: Bytes) returns (ok: bool)
      requires InTheSession() && Within(4) && !st.child.ended && 0 < |data| <= ReadCap()
      modifies this`remoteWindowSize, this`s2cCounter, this`sendSeq, this`encryptedBytesSent, this`trace, this`st
      ensures Linked() && OneSend(old(encryptedBytesSent), encryptedBytesSent, old(st), st, ok)
      ensures st == old(st).(count := st.count, remote := st.remote, channel := st.channel)
      ensures trace == old(trace) + [ChildSaid(data)] + [Sent(Data(remoteChannelId, data), ok)]
      ensures ok ==> InTheSession()
    {
      hide StateOf;
      Log(ChildSaid(data));
      ok := SendDataChunk(data);
    }

    /** One read from the child, and what becomes of it. */
    method PumpOutput() returns (r: Pumped)
      requires InTheSession() && Within(4) && !st.child.ended
      modifies this`remoteWindowSize, this`hindered, this`s2cCounter, this`sendSeq, this`encryptedBytesSent, this`trace, this`st
      ensures Linked() && OneSend(old(encryptedBytesSent), encryptedBytesSent, old(st), st, !r.PumpFailed?)
      ensures r.PumpFailed? ==> hindered || LastSendFailed(trace)
      ensures st == old(st).(count := st.count, child := st.child, remote := st.remote, channel := st.channel)
      ensures st.child == old(st).child.(ended := r.SawEof?)
      ensures !r.PumpFailed? ==> InTheSession()
      ensures r.NoRoom? ==> old(remoteWindowSize) == 0
    {
      hide StateOf, Lawful, CountSend, MaySend;
      var cap := ReadCap();
      if cap == 0 {
        return NoRoom;
      }
      var answer: ChildAnswer :| answer.ChildBytes? ==> 0 < |answer.data| <= cap;
      match answer {
        case ChildBytes(data) =>
          var ok := PassOn(data);
          r := if ok then Pumped else PumpFailed;
        case ChildEof =>
          Log(ChildEnded);
          r := SawEof;
        case ReadAgain =>
          r := Pumped;
        case ReadFailed =>
          hindered := true;
          r := PumpFailed;
      }
    }

    /** Exit status, EOF and CLOSE, each only if the one before went out. */
    method SendEnd(code: uint32) returns (ok: bool)
      requires InTheSession() && Within(2) && st.child.ended && Reports(st.child.exited, code)
      modifies this`s2cCounter, this`sendSeq, this`encryptedBytesSent, this`trace, this`st
      ensures Linked() && encryptedBytesSent <= old(encryptedBytesSent) + 3 * SENT_MAX
      ensures st.count.fails <= old(st).count.fails + if ok then 0 else 1
      ensures st == old(st).(count := st.count, channel := st.channel, status := st.status)
      ensures ok ==> st.channel == Closed && st.status == Some(code)
      ensures !ok ==> LastSendFailed(trace)
    {
      hide StateOf, Lawful;
      ok := Send(ExitStatus(remoteChannelId, code));
      if ok {
        ok := SendEofAndClose();
      }
    }

    method SendEofAndClose() returns (ok: bool)
      requires Linked() && Clear(st) && Within(3) && st.channel == StatusSent && st.child.pending == []
      modifies this`s2cCounter, this`sendSeq, this`encryptedBytesSent, this`trace, this`st
      ensures Linked() && encryptedBytesSent <= old(encryptedBytesSent) + 2 * SENT_MAX
      ensures st.count.fails <= old(st).count.fails + if ok then 0 else 1
      ensures st == old(st).(count := st.count, channel := st.channel)
      ensures ok ==> st.channel == Closed
      ensures !ok ==> LastSendFailed(trace)
    {
      hide StateOf, Lawful, Allowed, AfterEvent;
      ok := SendEof();
      if ok {
        ok := SendClose();
      }
    }

    // ----- the session loop -----

    /** waitpid: the child may have exited since the loop last looked. */
    method Reap(tail: Tail) returns (next: Tail)
      requires InTheSession() && Knows(tail)
      modifies this`trace, this`st
      ensures InTheSession() && Knows(next) && next.outputEof == tail.outputEof
      ensures st.count == old(st).count
    {
      next := tail;
      if !next.reaped {
        var exited: bool, status: ChildStatus :| true;
        next := next.(reaped := exited, status := status);
        if exited {
          Log(ChildExited(status));
        }
      }
    }

    /** The last part of a turn: when the child has exited and its output has ended, the channel is finished with its status. */
    method Finish(tail: Tail) returns (turn: Turn, next: Tail)
      requires InTheSession() && Within(2) && Knows(tail)
      modifies this`channelOpen, this`s2cCounter, this`sendSeq, this`encryptedBytesSent, this`trace, this`st
      ensures Linked() && Within(5) && st.child.pending == []
      ensures st.count.fails <= old(st).count.fails + if turn.BrokenOff? then 1 else 0
      ensures turn.Onward? ==> InTheSession() && Knows(next) && !(next.outputEof && next.reaped)
      ensures turn.Completed? ==> Over() && EndedWell() && st.child.exited == Some(next.status)
      ensures turn.Completed? && next.status.Exited? ==> st.status == Some(next.status.code)
      ensures turn.Completed? && next.status.Signalled? ==> st.status == Some(128 + next.status.signal)
      ensures turn.BrokenOff? ==> LastSendFailed(trace)
      ensures !turn.Answered?
    {
      hide StateOf, Lawful, Allowed, AfterEvent;
      next := Reap(tail);
      turn := Onward;
      if next.outputEof && next.reaped {
        var ok := SendEnd(ExitCode(next.status));
        if !ok {
          return BrokenOff, next;
        }
        channelOpen := false;
        turn := Completed;
      }
    }

    /** The packet of a turn, if the socket has one. */
    method TakeInput(ready: bool) returns (step: SessionStep)
      requires InTheSession() && Within(0)
      modifies this`encryptedBytesRecv, this`childInput, this`hindered, this`localWindowSize, this`remoteWindowSize, this`channelOpen
      modifies this`s2cCounter, this`sendSeq, this`encryptedBytesSent, this`trace, this`st
      ensures Linked() && Within(1) && st.child.pending == [] && SameTail(old(st).child, st.child)
      ensures st.count.fails <= old(st).count.fails + if step.Break? then 1 else 0
      ensures encryptedBytesRecv >= old(encryptedBytesRecv)
      ensures step.Go? ==> InTheSession()
      ensures step.PeerClosed? ==> Over() && IsClose(st.last, 0)
      ensures step.Break? ==>
        EndsSession(st.last, old(localWindowSize), old(remoteWindowSize), wantPty) || hindered || LastSendFailed(trace)
    {
      step := Go;
      if ready {
        step := SessionPacket();
      }
    }

    /** One turn of the session loop. */
    method SessionTurn(tail: Tail) returns (turn: Turn, next: Tail)
      requires InTheSession() && Within(5) && Knows(tail)
      modifies this`encryptedBytesRecv, this`childInput, this`hindered, this`localWindowSize, this`remoteWindowSize, this`channelOpen
      modifies this`s2cCounter, this`sendSeq, this`encryptedBytesSent, this`trace, this`st
      ensures Linked() && Within(5) && st.child.pending == []
      ensures st.count.fails <= old(st).count.fails + if turn.BrokenOff? then 1 else 0
      ensures encryptedBytesRecv >= old(encryptedBytesRecv)
      ensures turn.Onward? ==> InTheSession() && Knows(next)
      ensures turn.Completed? || turn.Answered? ==> Over() && EndedWell()
      ensures turn.BrokenOff? ==>
        || encryptedBytesSent >= 0x1000_0000 || encryptedBytesRecv >= 0x1000_0000 || hindered || LastSendFailed(trace)
        || EndsSession(st.last, old(localWindowSize), old(remoteWindowSize), wantPty)
    {
      hide StateOf, Lawful, Allowed, AfterEvent, EndsSession;
      next := tail;
      if ThresholdReached() {
        return BrokenOff, next;
      }
      var watched := !tail.outputEof && remoteWindowSize != 0;
      var poll: Poll :| true;
      if poll.PollInterrupted? {
        return Onward, next;
      }
      if poll.PollFailed? || (poll.TimedOut? && !tail.outputEof) || (poll.Events? && poll.peerError) {
        hindered := true;
        return BrokenOff, next;
      }
      var step := TakeInput(poll.Events? && poll.peerInput);
      if !step.Go? {
        return if step.PeerClosed? then Answered else BrokenOff, next;
      }
      turn, next := SessionOutput(tail, watched && poll.Events? && poll.childInput);
    }

    /** The child's part of a turn: its output, if there is any, and its exit. */
    method SessionOutput(tail: Tail, ready: bool) returns (turn: Turn, next: Tail)
      requires InTheSession() && Within(1) && Knows(tail) && (ready ==> !tail.outputEof)
      modifies this`remoteWindowSize, this`channelOpen, this`hindered
      modifies this`s2cCounter, this`sendSeq, this`encryptedBytesSent, this`trace, this`st
      ensures Linked() && Within(5) && st.child.pending == []
      ensures st.count.fails <= old(st).count.fails + if turn.BrokenOff? then 1 else 0
      ensures turn.Onward? ==> InTheSession() && Knows(next)
      ensures turn.Completed? ==> Over() && EndedWell()
      ensures turn.BrokenOff? ==> hindered || LastSendFailed(trace)
      ensures !turn.Answered?
    {
      next := tail;
      var pumped := Pumped;
      if ready {
        pumped := PumpOutput();
      }
      if pumped.PumpFailed? {
        return BrokenOff, next;
      }
      if pumped.NoRoom? {
        return Onward, next;
      }
      turn, next := Finish(tail.(outputEof := tail.outputEof || pumped.SawEof?));
    }

    /**
     * srv_run_session_unix: a success is a finished channel with the exit status of a child that is done, or the peer's CLOSE
     * answered.
     */
    method RunSession(horizon: nat) returns (r: Outcome)
      requires Idle() && Clear(st) && Granted() && channelOpen && authenticated && Within(1)
      modifies this`sessionStarted, this`encryptedBytesRecv, this`childInput, this`hindered, this`localWindowSize, this`remoteWindowSize
      modifies this`channelOpen, this`s2cCounter, this`sendSeq, this`encryptedBytesSent, this`trace, this`st
      ensures Linked() && Within(5)
      ensures st.count.fails <= old(st).count.fails + if r.Failure? then 1 else 0
      ensures encryptedBytesRecv >= old(encryptedBytesRecv)
      ensures r.Success? ==> Over() && EndedWell() && trace != [] && trace[|trace| - 1] == SessionEnded(true)
    {
      var forked: bool :| true;
      if !hasTransportFd || |authenticatedUser| == 0 || !forked {
        hindered := true;
        return Failure;
      }
      r := RunForked(horizon);
    }

    /** The session once the child runs. */
    method RunForked(horizon: nat) returns (r: Outcome)
      requires Idle() && Clear(st) && Granted() && channelOpen && authenticated && Within(1)
      modifies this`sessionStarted, this`encryptedBytesRecv, this`childInput, this`hindered, this`localWindowSize, this`remoteWindowSize
      modifies this`channelOpen, this`s2cCounter, this`sendSeq, this`encryptedBytesSent, this`trace, this`st
      ensures Linked() && Within(5)
      ensures st.count.fails <= old(st).count.fails + if r.Failure? then 1 else 0
      ensures encryptedBytesRecv >= old(encryptedBytesRecv)
      ensures r.Success? ==> Over() && EndedWell() && trace != [] && trace[|trace| - 1] == SessionEnded(true)
    {
      hide StateOf, Lawful, Allowed, AfterEvent;
      BeginSession();
      var turn := SessionLoop(horizon);
      r := EndSession(turn);
    }

    method BeginSession()
      requires Idle() && Clear(st) && Granted() && channelOpen && authenticated
      modifies this`sessionStarted, this`trace, this`st
      ensures InTheSession() && Knows(Tail(false, false, Exited(0))) && st.count == old(st).count
      ensures trace == old(trace) + [SessionBegan(authenticatedUser, remoteWindowSize, wantPty)]
    {
      hide StateOf, Lawful;
      sessionStarted := true;
      Log(SessionBegan(authenticatedUser, remoteWindowSize, wantPty));
    }

    method EndSession(turn: Turn) returns (r: Outcome)
      requires Linked() && Within(5) && st.child.pending == []
      requires turn.Completed? || turn.Answered? ==> Over() && EndedWell()
      modifies this`channelOpen, this`trace, this`st
      ensures Linked() && Within(5) && st.count == old(st).count
      ensures r.Failure? <==> turn.BrokenOff?
      ensures r.Success? ==> Over() && EndedWell() && trace == old(trace) + [SessionEnded(true)]
      ensures r.Failure? ==> trace == old(trace) + [SessionEnded(false)]
    {
      hide StateOf, CountSend;
      if turn.Onward? {
        return Running;
      }
      channelOpen := false;
      Log(SessionEnded(turn.Completed? || turn.Answered?));
      r := if turn.Completed? || turn.Answered? then Success else Failure;
    }

    /** What a session breaks off for: the threshold, a failure around it, a packet that could not be sent, or one that ends it. */
    ghost predicate Caused()
      reads this`encryptedBytesSent, this`encryptedBytesRecv, this`hindered, this`trace, this`st, this`wantPty
    {
      || encryptedBytesSent >= 0x1000_0000 || encryptedBytesRecv >= 0x1000_0000 || hindered || LastSendFailed(trace)
      || exists local: uint32, remote: uint32 :: EndsSession(st.last, local, remote, wantPty)
    }

    method SessionLoop(horizon: nat) returns (turn: Turn)
      requires InTheSession() && Within(5) && Knows(Tail(false, false, Exited(0)))
      modifies this`encryptedBytesRecv, this`childInput, this`hindered, this`localWindowSize, this`remoteWindowSize
      modifies this`channelOpen, this`s2cCounter, this`sendSeq, this`encryptedBytesSent, this`trace, this`st
      ensures Linked() && Within(5) && st.child.pending == []
      ensures st.count.fails <= old(st).count.fails + if turn.BrokenOff? then 1 else 0
      ensures encryptedBytesRecv >= old(encryptedBytesRecv)
      ensures turn.Completed? || turn.Answered? ==> Over() && EndedWell()
      ensures turn.BrokenOff? ==> Caused()
    {
      var tail, turns := Tail(false, false, Exited(0)), 0;
      turn := Onward;
      while turns < horizon && turn.Onward?
        invariant Linked() && Within(5) && st.child.pending == []
        invariant st.count.fails <= old(st).count.fails + if turn.BrokenOff? then 1 else 0
        invariant encryptedBytesRecv >= old(encryptedBytesRecv)
        invariant turn.Onward? ==> InTheSession() && Knows(tail)
        invariant turn.Completed? || turn.Answered? ==> Over() && EndedWell()
        invariant turn.BrokenOff? ==> Caused()
        decreases horizon - turns
      {
        turn, tail := SessionTurn(tail);
        turns := turns + 1;
      }
    }

    // ----- channel requests -----

    method Refuse(wantReply: bool)
      requires Requested(wantReply)
      requires Idle() && Clear(st) && channelOpen && Within(4)
      modifies this`s2cCounter, this`sendSeq, this`encryptedBytesSent, this`trace, this`st
      ensures Idle() && Clear(st) && OneSend(old(encryptedBytesSent), encryptedBytesSent, old(st), st, false)
      ensures Refused(old(trace), trace, remoteChannelId, wantReply)
    {
      hide StateOf, Lawful, AfterEvent;
      if wantReply {
        ghost var before := st;
        var ok := Send(ChannelFailure(remoteChannelId));
        RequestEffect(before, ChannelFailure(remoteChannelId), ok);
      }
    }

    method Accept(wantReply: bool) returns (ok: bool)
      requires Requested(wantReply)
      requires Idle() && Clear(st) && channelOpen && Within(4)
      modifies this`s2cCounter, this`sendSeq, this`encryptedBytesSent, this`trace, this`st
      ensures Idle() && Clear(st) && OneSend(old(encryptedBytesSent), encryptedBytesSent, old(st), st, ok)
      ensures Accepted(old(trace), trace, remoteChannelId, wantReply, ok)
      ensures ok ==> Granted()
    {
      hide StateOf, Lawful, AfterEvent;
      ok := true;
      if wantReply {
        ghost var before := st;
        ok := Send(ChannelSuccess(remoteChannelId));
        RequestEffect(before, ChannelSuccess(remoteChannelId), ok);
      }
    }

    /** A terminal may be asked for once. */
    method HandlePty(p: Bytes, r: ChannelRequest) returns (next: Next)
      requires Requested(r.wantReply)
      requires Idle() && Clear(st) && channelOpen && Within(4)
      modifies this`wantPty, this`s2cCounter, this`sendSeq, this`encryptedBytesSent, this`trace, this`st
      ensures Idle() && Clear(st) && OneSend(old(encryptedBytesSent), encryptedBytesSent, old(st), st, false)
      ensures next == Continue || next == Return(Failure)
      ensures wantPty <==> old(wantPty) || IsPtyRequest(p, r.next)
      ensures if !old(wantPty) && IsPtyRequest(p, r.next)
        then Accepted(old(trace), trace, remoteChannelId, r.wantReply, next.Continue?)
        else next == Continue && Refused(old(trace), trace, remoteChannelId, r.wantReply)
      ensures next.Return? ==> LastSendFailed(trace)
    {
      hide StateOf, Lawful, Allowed, AfterEvent;
      next := Continue;
      if wantPty || !IsPtyRequest(p, r.next) {
        Refuse(r.wantReply);
      } else {
        wantPty := true;
        var ok := Accept(r.wantReply);
        next := if ok then Continue else Return(Failure);
      }
    }

    /** A session ran and ended cleanly, and the deadline was set right behind it. */
    ghost predicate Drains(trace: seq<Event>) {
      |trace| >= 3 && trace[|trace| - 3] == SessionEnded(true) && trace[|trace| - 1].DeadlineSet?
    }

    /** exec and shell: reply, run the session, and start the drain. */
    method Launch(wantReply: bool, horizon: nat) returns (next: Next)
      requires Requested(wantReply)
      requires Idle() && Clear(st) && channelOpen && authenticated && Within(0)
      modifies this`sessionStarted, this`encryptedBytesRecv, this`childInput, this`hindered, this`localWindowSize, this`remoteWindowSize
      modifies this`channelOpen, this`closeDeadline, this`s2cCounter, this`sendSeq, this`encryptedBytesSent, this`trace, this`st
      ensures Linked() && Within(5) && next != Return(Success)
      ensures st.count.fails <= old(st).count.fails + 1 && encryptedBytesRecv >= old(encryptedBytesRecv)
      ensures next.Continue? ==> Idle() && Clear(st) && closeDeadline != 0 && EndedWell() && Drains(trace)
    {
      var ok := Accept(wantReply);
      if !ok {
        return Return(Failure);
      }
      next := RunAndDrain(horizon);
    }

    method RunAndDrain(horizon: nat) returns (next: Next)
      requires Idle() && Clear(st) && Granted() && channelOpen && authenticated && Within(1)
      modifies this`sessionStarted, this`encryptedBytesRecv, this`childInput, this`hindered, this`localWindowSize, this`remoteWindowSize
      modifies this`channelOpen, this`closeDeadline, this`s2cCounter, this`sendSeq, this`encryptedBytesSent, this`trace, this`st
      ensures Linked() && Within(5) && next != Return(Success)
      ensures st.count.fails <= old(st).count.fails + 1 && encryptedBytesRecv >= old(encryptedBytesRecv)
      ensures next.Continue? ==> Idle() && Clear(st) && closeDeadline != 0 && EndedWell() && Drains(trace)
    {
      hide StateOf, Lawful, Allowed, AfterEvent;
      var r := RunSession(horizon);
      next := if r.Success? then Continue else Return(r);
      if r.Success? {
        next := StartDrain();
      }
    }

    method StartDrain() returns (next: Next)
      requires Over() && trace != [] && trace[|trace| - 1] == SessionEnded(true)
      modifies this`closeDeadline, this`trace, this`st
      ensures Linked() && next != Return(Success) && next != Return(Running) && st == old(st).(drain := st.drain)
      ensures next.Continue? ==> Idle() && Clear(st) && closeDeadline != 0 && Drains(trace)
    {
      var ok := BeginCloseWait();
      next := if ok then Continue else Return(Failure);
    }

    method HandleRequest(p: Bytes, horizon: nat) returns (next: Next)
      requires Posed(p) && p != [] && p[0] == MSG_CHANNEL_REQUEST
      requires Idle() && Clear(st) && Within(0)
      modifies this
      ensures Follows() && Counted() && Within(5) && !st.done && next != Return(Success)
      ensures st.count.fails <= old(st).count.fails + 1 && encryptedBytesRecv >= old(encryptedBytesRecv)
      ensures next == Return(Running) ==> old(closeDeadline) == 0
      ensures next.Continue? ==> Idle() && Clear(st)
      ensures !old(channelOpen) ==> next == Continue && trace == old(trace) && st == old(st)
      ensures old(channelOpen) && ReadU32(p, 1).Some? && ReadU32(p, 1) != Some(0) ==> next == Continue && trace == old(trace)
      ensures old(channelOpen) && (ReadU32(p, 1).None? || (ReadU32(p, 1) == Some(0) && ReadRequest(p).None?)) ==>
        next == Return(Failure) && trace == old(trace)
      ensures old(channelOpen) && ReadU32(p, 1) == Some(0) && ReadRequest(p).Some? && !Launches(p, ReadRequest(p).value) ==>
        next == Continue || (next == Return(Failure) && LastSendFailed(trace))
    {
      hide StateOf, Lawful, Allowed, AfterEvent, ReadRequest, IsPtyRequest, IsCommand, Accepted, Refused;
      if !channelOpen {
        return Continue;
      }
      var recipient := ReadU32(p, 1);
      if recipient.None? {
        return Return(Failure);
      }
      if recipient.value != localChannelId {
        return Continue;
      }
      var r := ReadRequest(p);
      if r.None? {
        return Return(Failure);
      }
      next := DispatchRequest(p, r.value, horizon);
    }

    /** What becomes of a channel request: a terminal, a session and the drain behind it, or a refusal. */
    method DispatchRequest(p: Bytes, r: ChannelRequest, horizon: nat) returns (next: Next)
      requires Requested(r.wantReply)
      requires Idle() && Clear(st) && channelOpen && Within(0)
      modifies this
      ensures Follows() && Counted() && Within(5) && !st.done && next != Return(Success)
      ensures st.count.fails <= old(st).count.fails + 1 && encryptedBytesRecv >= old(encryptedBytesRecv)
      ensures next == Return(Running) ==> old(closeDeadline) == 0
      ensures next.Continue? ==> Idle() && Clear(st)
      ensures next.Continue? && Launches(p, r) ==> closeDeadline != 0 && EndedWell() && Drains(trace)
      ensures r.kind == PtyKind() && !old(wantPty) && IsPtyRequest(p, r.next) ==>
        wantPty && Accepted(old(trace), trace, remoteChannelId, r.wantReply, next.Continue?)
      ensures !Launches(p, r) && !(r.kind == PtyKind() && !old(wantPty) && IsPtyRequest(p, r.next)) ==>
        next == Continue && Refused(old(trace), trace, remoteChannelId, r.wantReply)
      ensures !Launches(p, r) ==> next == Continue || (next == Return(Failure) && LastSendFailed(trace))
    {
      hide StateOf, Lawful, Allowed, AfterEvent;
      next := Continue;
      if r.kind == PtyKind() {
        next := HandlePty(p, r);
      } else if r.kind == ExecKind() && IsCommand(p, r.next) {
        next := Launch(r.wantReply, horizon);
      } else if r.kind == ShellKind() && r.next == |p| {
        next := Launch(r.wantReply, horizon);
      } else {
        Refuse(r.wantReply);
      }
    }

    // ----- the packet loop -----

    /** EOF or CLOSE outside a session. A CLOSE starts the drain, whether or not a channel was open. */
    method HandleEnd(p: Bytes) returns (ok: bool)
      requires Idle() && Clear(st) && Within(4) && st.last == p
      modifies this`channelOpen, this`closeDeadline, this`s2cCounter, this`sendSeq, this`encryptedBytesSent, this`trace, this`st
      ensures Linked() && OneSend(old(encryptedBytesSent), encryptedBytesSent, old(st), st, ok)
      ensures ok ==> Idle() && Clear(st) && (p != [] && p[0] == MSG_CHANNEL_CLOSE ==> closeDeadline != 0)
      ensures ok && old(closeDeadline) != 0 ==> closeDeadline == old(closeDeadline) && st.drain == old(st).drain
      ensures !IsChannelEnd(p, 0) ==> !ok
      ensures !ok ==> !IsChannelEnd(p, 0) || LastSendFailed(trace) || LastIsReading(trace)
    {
      hide StateOf, Lawful, AfterEvent;
      ok := HandleChannelEnd(p);
      if ok && p[0] == MSG_CHANNEL_CLOSE {
        ok := BeginCloseWait();
      }
    }

    /** Logging in, and the opening of a channel. */
    method ReplyToClaim(p: Bytes) returns (ok: bool)
      requires st.last == p && p != [] && (p[0] == UserAuth.MSG_USERAUTH_REQUEST || p[0] == MSG_CHANNEL_OPEN)
      requires Idle() && Clear(st) && Within(4) && p != []
      modifies this
      ensures Follows() && Counted() && OneSend(old(encryptedBytesSent), encryptedBytesSent, old(st), st, ok) && !st.done
      ensures encryptedBytesRecv == old(encryptedBytesRecv) && closeDeadline == old(closeDeadline)
      ensures ok ==> Idle() && Clear(st) && st.drain == old(st).drain
      ensures p[0] == UserAuth.MSG_USERAUTH_REQUEST && old(AuthDue(p)) ==>
        Replied(trace, AuthReply(p, st.approved.Some?, authenticated), ok)
      ensures p[0] != UserAuth.MSG_USERAUTH_REQUEST && old(MayOpen(p, channelOpen)) ==>
        Replied(trace, OpenConfirm(ReadSessionOpen(p).value.sender, 0, WINDOW_SIZE, CHANNEL_MAX_PACKET), ok)
      ensures old(Unacceptable(p)) ==> !ok
      ensures !ok ==> old(Unacceptable(p)) || LastSendFailed(trace)
    {
      hide StateOf, Lawful, Allowed, AfterEvent, ReadSessionOpen, Opening;
      if p[0] == UserAuth.MSG_USERAUTH_REQUEST {
        ok := ReplyToLogin(p);
      } else {
        ok := HandleOpen(p);
      }
    }

    method ReplyToLogin(p: Bytes) returns (ok: bool)
      requires Idle() && Clear(st) && Within(4)
      modifies this`authAttempts, this`authenticated, this`authenticatedUser, this`connectionServiceReady
      modifies this`s2cCounter, this`sendSeq, this`encryptedBytesSent, this`trace, this`st
      ensures Follows() && Counted() && OneSend(old(encryptedBytesSent), encryptedBytesSent, old(st), st, ok) && !st.done
      ensures ok ==> Idle() && Clear(st) && st.drain == old(st).drain
      ensures old(AuthDue(p)) ==> Replied(trace, AuthReply(p, st.approved.Some?, authenticated), ok)
      ensures !old(AuthDue(p)) ==> !ok
    {
      ok := HandleAuth(p);
    }

    method ReplyToService(p: Bytes) returns (ok: bool)
      requires Idle() && Within(4) && p != [] && Posed(p) && (p[0] == MSG_GLOBAL_REQUEST || p[0] == MSG_SERVICE_REQUEST)
      modifies this`userauthServiceReady, this`connectionServiceReady
      modifies this`s2cCounter, this`sendSeq, this`encryptedBytesSent, this`trace, this`st
      ensures Idle() && Clear(st) && OneSend(old(encryptedBytesSent), encryptedBytesSent, old(st), st, ok) && Quiet(old(st), st)
      ensures p[0] == MSG_GLOBAL_REQUEST && ReadGlobal(p) == Some(true) ==> Replied(trace, RequestFailure, ok)
      ensures AsksFor(p, UserAuth.Userauth()) ==> Replied(trace, ServiceAccept(UserAuth.Userauth()), ok)
      ensures old(Unacceptable(p)) ==> !ok
      ensures !ok ==> old(Unacceptable(p)) || LastSendFailed(trace)
    {
      hide StateOf, Lawful, Allowed, AfterEvent;
      OthersWaitForNothing(p, st.user.Some?, false);
      if p[0] == MSG_GLOBAL_REQUEST {
        ok := HandleGlobalRequest(p);
      } else {
        ok := HandleServiceRequest(p);
      }
    }

    /**
     * The packets that end the connection outside a session: malformed ones, requests for a service that is not there or not yet,
     * authentication that is not due, and an open that is not allowed.
     */
    predicate Unacceptable(p: Bytes)
      reads this`authenticated, this`userauthServiceReady, this`connectionServiceReady, this`authAttempts
      reads this`channelOpen, this`closeDeadline
    {
      p != [] &&
      if p[0] == 94 then ReadU32(p, 1).None? || (ReadU32(p, 1) == Some(0) && ReadString(p, 5).None?)
      else if p[0] == 96 || p[0] == 97 then !IsChannelEnd(p, 0)
      else if p[0] == 80 then ReadGlobal(p).None?
      else if p[0] == 5 then !AsksFor(p, Ascii("ssh-userauth")) && !(authenticated && AsksFor(p, Ascii("ssh-connection")))
      else if p[0] == 50 then !AuthDue(p)
      else p[0] == 90 && !MayOpen(p, channelOpen)
    }

    /** Requests to the connection as a whole. */
    method ReplyToRequest(p: Bytes) returns (ok: bool)
      requires Idle() && Within(4) && p != [] && Posed(p) && p[0] != MSG_CHANNEL_DATA
      modifies this
      ensures Follows() && Counted() && OneSend(old(encryptedBytesSent), encryptedBytesSent, old(st), st, ok) && !st.done
      ensures encryptedBytesRecv == old(encryptedBytesRecv) && closeDeadline == old(closeDeadline)
      ensures ok ==> Idle() && Clear(st) && st.drain == old(st).drain
      ensures p[0] == MSG_GLOBAL_REQUEST && ReadGlobal(p) == Some(true) ==> Replied(trace, RequestFailure, ok)
      ensures AsksFor(p, UserAuth.Userauth()) ==> Replied(trace, ServiceAccept(UserAuth.Userauth()), ok)
      ensures !Requests(p[0]) ==> ok && trace == old(trace)
      ensures p[0] != 96 && p[0] != 97 && old(Unacceptable(p)) ==> !ok
      ensures !ok ==> old(Unacceptable(p)) || LastSendFailed(trace)
    {
      hide StateOf, Lawful, Allowed, AfterEvent;
      OthersWaitForNothing(p, st.user.Some?, false);
      ok := true;
      if p[0] == MSG_GLOBAL_REQUEST || p[0] == MSG_SERVICE_REQUEST {
        ok := ReplyToService(p);
      } else if p[0] == UserAuth.MSG_USERAUTH_REQUEST || p[0] == MSG_CHANNEL_OPEN {
        ok := ReplyToClaim(p);
      }
    }

    /** Every kind of packet but DISCONNECT and channel requests. Packets of any other kind are passed over. */
    method Reply(p: Bytes) returns (ok: bool)
      requires Idle() && Within(4) && p != [] && Posed(p)
      modifies this
      ensures Follows() && Counted() && OneSend(old(encryptedBytesSent), encryptedBytesSent, old(st), st, false) && !st.done
      ensures encryptedBytesRecv == old(encryptedBytesRecv)
      ensures ok ==> Idle() && Clear(st)
      ensures ok && old(closeDeadline) != 0 ==> closeDeadline == old(closeDeadline) && st.drain == old(st).drain
      ensures p[0] == MSG_CHANNEL_CLOSE && ok ==> closeDeadline != 0
      ensures !Handled(p[0]) ==> ok && trace == old(trace)
      ensures old(Unacceptable(p)) ==> !ok
      ensures !ok ==> old(Unacceptable(p)) || LastSendFailed(trace) || LastIsReading(trace)
    {
      hide StateOf, Lawful, Allowed, AfterEvent;
      OthersWaitForNothing(p, st.user.Some?, false);
      if p[0] == MSG_CHANNEL_DATA {
        ok := DropData(p);
      } else if p[0] == MSG_CHANNEL_EOF || p[0] == MSG_CHANNEL_CLOSE {
        ok := HandleEnd(p);
      } else {
        ok := ReplyToRequest(p);
      }
    }

    /** One packet of the loop. */
    method Dispatch(p: Bytes, horizon: nat) returns (next: Next)
      requires Idle() && Within(0) && p != [] && Posed(p)
      modifies this
      ensures Follows() && Counted() && Within(5) && !st.done
      ensures st.count.fails <= old(st).count.fails + 1 && encryptedBytesRecv >= old(encryptedBytesRecv)
      ensures next.Continue? ==> Idle() && Clear(st)
      ensures next == Return(Running) ==> old(closeDeadline) == 0
      ensures next.Continue? && old(closeDeadline) != 0 ==>
        closeDeadline == old(closeDeadline) && st.drain == old(st).drain
      ensures next == Return(Success) <==> p[0] == MSG_DISCONNECT
      ensures next == Return(Success) ==> Clear(st)
      ensures p[0] != 98 && p[0] != 1 ==>
        (old(Unacceptable(p)) ==> next == Return(Failure))
        && (next == Continue || (next == Return(Failure) && (old(Unacceptable(p)) || LastSendFailed(trace) || LastIsReading(trace))))
    {
      OthersWaitForNothing(p, st.user.Some?, false);
      if p[0] == MSG_DISCONNECT {
        next := Return(Success);
      } else if p[0] == MSG_CHANNEL_REQUEST {
        next := HandleRequest(p, horizon);
      } else {
        var ok := Reply(p);
        next := if ok then Continue else Return(Failure);
      }
    }

    /** The packet of a turn: it is paid for by its own bytes, and dealt with below the threshold. */
    method TakePacket(horizon: nat) returns (next: Next)
      requires Idle() && Clear(st) && Kept() && Paid(0) && MayReceive(st)
      modifies this
      ensures Kept() && !st.done && (next == Return(Success) ==> Clear(st))
      ensures next.Continue? ==> Idle() && Clear(st) && Paid(0)
      ensures next == Return(Running) ==> old(closeDeadline) == 0
      ensures next.Continue? && old(closeDeadline) != 0 ==>
        closeDeadline == old(closeDeadline) && st.drain.readings == old(st).drain.readings
    {
      hide StateOf, Lawful, CountSend, Allowed;
      var p := Receive();
      if p.None? {
        return Return(Success);
      }
      if p.value == [] {
        return Continue;
      }
      if ThresholdReached() {
        return Return(Failure);
      }
      next := Dispatch(p.value, horizon);
    }

    /** One turn: in the drain, wait for input below the deadline, which takes a reading of the clock; then take a packet. */
    method Turn(horizon: nat) returns (next: Next)
      requires Idle() && Clear(st) && Kept() && Paid(0)
      modifies this
      ensures Kept() && !st.done && (next == Return(Success) ==> Clear(st))
      ensures next.Continue? ==> Idle() && Clear(st) && Paid(0)
      ensures next == Return(Running) ==> old(closeDeadline) == 0
      ensures next.Continue? && old(closeDeadline) != 0 ==>
        closeDeadline == old(closeDeadline) && st.drain.readings == old(st).drain.readings + 1
    {
      if closeDeadline != 0 {
        var ready := WaitClosePacket();
        if ready == Interrupted {
          return Continue;
        }
        if ready != Readable {
          return Return(if ready == HungUp then Success else Failure);
        }
      }
      next := TakePacket(horizon);
    }

    /**
     * The packet loop. Once the deadline is set, and with a clock that advances from reading to reading, more than 10000 turns
     * are never taken: the loop returns.
     */
    method ServeLoop(horizon: nat) returns (next: Next)
      requires Idle() && Clear(st) && Kept() && Paid(0)
      modifies this
      ensures Kept() && !st.done && (next == Return(Success) ==> Clear(st))
      ensures old(closeDeadline) != 0 && horizon > 10000 && Ticks(trace) ==> next.Return? && !next.outcome.Running?
    {
      var turns: nat := 0;
      ghost var draining := closeDeadline != 0;
      next := Continue;
      while turns < horizon && next.Continue?
        invariant Kept() && !st.done && turns <= horizon
        invariant next.Continue? ==> Idle() && Clear(st) && Paid(0)
        invariant next == Return(Success) ==> Clear(st)
        invariant next == Return(Running) ==> !draining
        invariant next.Continue? && draining ==> closeDeadline != 0 && st.drain.readings >= turns
        decreases horizon - turns
      {
        next := Turn(horizon);
        turns := turns + 1;
      }
      if Ticks(trace) {
        DrainEnds(cx, trace);
      }
    }

    /** netnox_ssh_server_serve_one from the end of the key exchange on. */
    method ServeOne(horizon: nat) returns (r: Outcome)
      requires Idle() && Clear(st) && Kept() && Paid(0)
      modifies this
      ensures Lawful(cx, trace)
      ensures sendSeq == 3 + CountSent(trace) && encryptedBytesSent < 0x1000_0000 + 5 * 4160
      ensures s2cCounter == CtrAdd(s2cIv, StateOf(trace).count.blocks) && StateOf(trace).count.blocks < 0x1_0000_0000
      ensures !r.Running? ==> trace != [] && trace[|trace| - 1] == Finished(r == Success)
    {
      hide StateOf, Lawful, CountSend;
      var next := ServeLoop(horizon);
      r := if next.Continue? then Running else next.outcome;
      if !r.Running? {
        Log(Finished(r == Success));
      }
      PacketsCounted(trace);
      BlocksBound(cx, trace);
    }
  }
}
