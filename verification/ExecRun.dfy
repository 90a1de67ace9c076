/**
 * One exec from wire to output: the server's run is on the wire as packets, behind the first key exchange; the client takes them
 * with its packet layer, waits for the reply to its request, and prints the output.
 */
module ExecRun {
  import opened Octets
  import opened Wrappers
  import opened Cipher
  import opened Wire
  import opened Packet
  import opened Transport
  import opened PacketLayer
  import opened Messages
  import opened ServerTrace
  import ClientOutput
  import Delivery
  import FirstExchange
  import Handshake
  import Interleaving
  import KexInit
  import ServerStream

  /** The payloads of all packets that were sent. */
  function SentPackets(trace: seq<Event>): seq<Bytes> {
    if trace == [] then []
    else
      var e := trace[|trace| - 1];
      SentPackets(trace[..|trace| - 1]) + (if e.Sent? && e.ok then [e.msg.Payload()] else [])
  }

  lemma {:induction false} StreamPayloads(trace: seq<Event>, pads: nat -> Bytes)
    ensures Payloads(ServerStream.Stream(trace, pads)) == SentPackets(trace)
  {
    if trace != [] {
      var front, e := trace[..|trace| - 1], trace[|trace| - 1];
      StreamPayloads(front, pads);
      var msgs := ServerStream.Stream(front, pads);
      if e.Sent? && e.ok {
        ServerStream.PayloadsSnoc(msgs, Outgoing(e.msg.Payload(), pads(|msgs|)));
      }
    }
  }

  // ----- the packets behind the beginning of the session -----

  lemma {:induction false} BehindBegin(cx: Context, trace: seq<Event>, k: nat)
    requires Lawful(cx, trace) && k < |trace| && trace[k].SessionBegan?
    ensures Rank(At(trace, k).channel) == 1 && Rank(At(trace, k + 1).channel) == 2
    ensures Rank(StateOf(trace).channel) >= 2
  {
    RankAt(cx, trace, k);
    Forward(cx, trace, k + 1, |trace|);
    assert trace[..|trace|] == trace;
  }

  /** What is sent from the beginning of the session on is what ClientOutput reads. */
  lemma {:induction false} SessionBehind(cx: Context, trace: seq<Event>, k: nat)
    requires Lawful(cx, trace) && k < |trace| && trace[k].SessionBegan?
    ensures SentPackets(trace) == SentPackets(trace[..k]) + ClientOutput.SessionPackets(trace)
    decreases |trace|
  {
    hide AfterEvent, Allowed, StateOf;
    var front := trace[..|trace| - 1];
    LastStep(cx, trace);
    if k == |trace| - 1 {
      BehindBegin(cx, trace, k);
      ClientOutput.NoPacketsYet(cx, front);
    } else {
      assert front[..k] == trace[..k];
      SessionBehind(cx, front, k);
      BehindBegin(cx, front, k);
    }
  }

  // ----- the reply to the request that begins the session -----

  /** A channel is open, and the channel request received last is all that is to be done. */
  ghost predicate Waits(st: State, p: Bytes) {
    && st.channel == Open && Settled(st) && Clear(st) && st.last == p && p != [] && p[0] == MSG_CHANNEL_REQUEST
    && (st.granted ==> st.handled)
  }

  /** Only the reply to the request is sent, and only once. */
  lemma {:induction false} WaitsStep(cx: Context, st: State, e: Event, p: Bytes)
    requires Allowed(cx, st, e) && Waits(st, p) && !e.Received? && AfterEvent(st, e).channel == Open
    ensures Waits(AfterEvent(st, e), p) && AfterEvent(st, e).peer == st.peer
    ensures if AnswersRequest(e) then
        !st.handled && AfterEvent(st, e).handled && (AfterEvent(st, e).granted <==> e.ok && e.msg == ChannelSuccess(st.peer))
      else !e.Sent? && AfterEvent(st, e).handled == st.handled && AfterEvent(st, e).granted == st.granted
  {
  }

  lemma {:induction false} OpenBefore(cx: Context, st: State, e: Event)
    requires Allowed(cx, st, e) && AfterEvent(st, e).channel == Open
    ensures st.channel == Open || (st.channel == NoChannel && st.last != [] && st.last[0] == MSG_CHANNEL_OPEN)
  {
  }

  lemma {:induction false} LastStays(st: State, e: Event)
    requires !e.Received?
    ensures AfterEvent(st, e).last == st.last
  {
  }

  lemma {:induction false} LastAt(cx: Context, trace: seq<Event>, r: nat, m: nat)
    requires Lawful(cx, trace) && LastReceived(trace, r, m)
    ensures At(trace, m).last == trace[r].payload
    decreases m
  {
    AtNext(trace, m - 1);
    if m > r + 1 {
      LastAt(cx, trace, r, m - 1);
      LastStays(At(trace, m - 1), trace[m - 1]);
    }
  }

  /** No channel is opened while a channel request is the last packet. */
  lemma {:induction false} OpenSince(cx: Context, trace: seq<Event>, r: nat, m: nat, k: nat)
    requires Lawful(cx, trace) && r < m <= k <= |trace| && LastReceived(trace, r, k) && At(trace, k).channel == Open
    requires trace[r].payload != [] && trace[r].payload[0] == MSG_CHANNEL_REQUEST
    ensures At(trace, m).channel == Open
    decreases k
  {
    if m < k {
      LastAt(cx, trace, r, k - 1);
      LawfulAt(cx, trace, k - 1);
      AtNext(trace, k - 1);
      OpenBefore(cx, At(trace, k - 1), trace[k - 1]);
      OpenSince(cx, trace, r, m, k - 1);
    }
  }

  /** What was sent since the request: its acceptance, or nothing that arrived. */
  ghost predicate OnlyGranted(trace: seq<Event>, r: nat, m: nat)
    requires r <= m <= |trace|
  {
    var st, before, now := At(trace, m), SentPackets(trace[..r]), SentPackets(trace[..m]);
    if st.granted then now == before + [ChannelSuccess(st.peer).Payload()] else !st.handled ==> now == before
  }

  lemma {:induction false} SentPacketsAt(trace: seq<Event>, m: nat)
    requires m < |trace|
    ensures SentPackets(trace[..m + 1])
         == SentPackets(trace[..m]) + (if trace[m].Sent? && trace[m].ok then [trace[m].msg.Payload()] else [])
  {
    assert trace[..m + 1][..m] == trace[..m];
  }

  lemma {:induction false} RequestWaits(cx: Context, trace: seq<Event>, r: nat)
    requires Lawful(cx, trace) && r < |trace| && trace[r].Received? && At(trace, r + 1).channel == Open
    requires trace[r].payload != [] && trace[r].payload[0] == MSG_CHANNEL_REQUEST
    ensures Waits(At(trace, r + 1), trace[r].payload) && OnlyGranted(trace, r, r + 1)
  {
    AtNext(trace, r);
    SentPacketsAt(trace, r);
    LawfulPrefix(cx, trace, r + 1);
    SettledOnceOpen(cx, trace[..r + 1]);
    NothingDue(At(trace, r), trace[r].payload);
  }

  lemma {:induction false} NothingDue(st: State, p: Bytes)
    requires p != [] && p[0] == MSG_CHANNEL_REQUEST
    ensures var s := AfterEvent(st, Event.Received(p));
      Clear(s) && s.last == p && !s.handled && !s.granted
  {
  }

  lemma {:induction false} GrantedStep(cx: Context, trace: seq<Event>, r: nat, m: nat, p: Bytes)
    requires Lawful(cx, trace) && r < m < |trace| && !trace[m].Received? && At(trace, m + 1).channel == Open
    requires Waits(At(trace, m), p) && OnlyGranted(trace, r, m)
    ensures Waits(At(trace, m + 1), p) && OnlyGranted(trace, r, m + 1)
  {
    hide AfterEvent, Allowed, StateOf;
    LawfulAt(cx, trace, m);
    AtNext(trace, m);
    SentPacketsAt(trace, m);
    WaitsStep(cx, At(trace, m), trace[m], p);
  }

  lemma {:induction false} GrantedSoFar(cx: Context, trace: seq<Event>, r: nat, m: nat)
    requires Lawful(cx, trace) && LastReceived(trace, r, m) && At(trace, m).channel == Open
    requires trace[r].payload != [] && trace[r].payload[0] == MSG_CHANNEL_REQUEST
    ensures Waits(At(trace, m), trace[r].payload) && OnlyGranted(trace, r, m)
    decreases m
  {
    hide AfterEvent, Allowed, StateOf, Waits, OnlyGranted;
    if m == r + 1 {
      RequestWaits(cx, trace, r);
    } else {
      OpenSince(cx, trace, r, m - 1, m);
      GrantedSoFar(cx, trace, r, m - 1);
      GrantedStep(cx, trace, r, m - 1, trace[r].payload);
    }
  }

  /** The session begins at k, for the channel request received at r, which wants a reply. */
  ghost predicate BeginsFor(trace: seq<Event>, r: nat, k: nat) {
    k < |trace| && trace[k].SessionBegan? && LastReceived(trace, r, k) && WantsReply(trace[r].payload)
  }

  lemma {:induction false} BeginsGranted(cx: Context, st: State, e: Event)
    requires Allowed(cx, st, e) && e.SessionBegan? && WantsReply(st.last)
    ensures st.channel == Open && st.granted
  {
  }

  /** Behind the request, exactly its acceptance is sent before the session begins. */
  lemma {:induction false} AcceptedLast(cx: Context, trace: seq<Event>, r: nat, k: nat)
    requires Lawful(cx, trace) && BeginsFor(trace, r, k)
    ensures SentPackets(trace[..k]) == SentPackets(trace[..r]) + [ChannelSuccess(At(trace, k).peer).Payload()]
  {
    hide AfterEvent, Allowed, StateOf, Waits;
    LawfulAt(cx, trace, k);
    LastAt(cx, trace, r, k);
    BeginsGranted(cx, At(trace, k), trace[k]);
    GrantedSoFar(cx, trace, r, k);
  }

  // ----- the client's wait for that reply -----

  predicate NoKexInit(packets: seq<Bytes>) {
    forall p | p in packets :: p != [] && p[0] != KexInit.MSG_KEXINIT
  }

  lemma {:induction false} NotKexInit(m: Message)
    ensures m.Payload() != [] && m.Payload()[0] != KexInit.MSG_KEXINIT
  {
  }

  /** This server never starts a key exchange again. */
  lemma {:induction false} NeverKexInit(trace: seq<Event>)
    ensures NoKexInit(SentPackets(trace))
  {
    if trace != [] {
      NeverKexInit(trace[..|trace| - 1]);
      if trace[|trace| - 1].Sent? {
        NotKexInit(trace[|trace| - 1].msg);
      }
    }
  }

  /** The client has taken q packets, among them all earlier replies, and the reply is not too far behind. */
  ghost predicate ReadyToWait(before: seq<Bytes>, q: nat) {
    && q <= |before| < q + ClientOutput.WAIT_LIMIT
    && forall i | q <= i < |before| :: !ClientOutput.IsReply(before[i])
  }

  /** The wait ends with the reply to the request, and what follows are the packets of the session. */
  lemma {:induction false} WaitsForSession(cx: Context, trace: seq<Event>, r: nat, k: nat, q: nat)
    requires Lawful(cx, trace) && BeginsFor(trace, r, k) && ReadyToWait(SentPackets(trace[..r]), q)
    ensures var packets, n := SentPackets(trace), |SentPackets(trace[..r])|;
      && n < |packets| && ClientOutput.ReplyAt(packets, q, ClientOutput.WAIT_LIMIT) == Some(n)
      && packets[n + 1..] == ClientOutput.SessionPackets(trace)
  {
    hide AfterEvent, Allowed, StateOf, SentPackets;
    var before, packets, n := SentPackets(trace[..r]), SentPackets(trace), |SentPackets(trace[..r])|;
    AcceptedLast(cx, trace, r, k);
    SessionBehind(cx, trace, k);
    NeverKexInit(trace);
    assert packets[..n] == before && packets[n] == ChannelSuccess(At(trace, k).peer).Payload();
    forall i | q <= i < n
      ensures !ClientOutput.IsReply(packets[i]) && packets[i] != [] && packets[i][0] != KexInit.MSG_KEXINIT
    {
      assert packets[i] == before[i] && packets[i] in packets;
    }
    ClientOutput.ReplyFound(packets, q, n, ClientOutput.WAIT_LIMIT);
  }

  // ----- from the wire to the output -----

  /** Both programs of the first key exchange are done, and nothing else has happened. */
  ghost predicate Exchanged(g: Handshake.Config, v: Handshake.Outcome, actions: seq<Interleaving.Action>, w: Interleaving.World) {
    && Handshake.Ready(g, v) && FirstExchange.Reaches(g, actions, w) && w.c.pc == 8 && w.v.pc == 8
    && forall a | a in actions :: a == Interleaving.ClientProgram || a == Interleaving.ServerProgram
  }

  /** The run of a server whose sends all succeeded is on the wire, sent from this state. */
  ghost predicate OnWire(cx: Context, trace: seq<Event>, pads: nat -> Bytes, h: Half, wire: Bytes) {
    var msgs := ServerStream.Stream(trace, pads);
    && Lawful(cx, trace) && StateOf(trace).count.fails == 0 && ServerStream.PadsFit(msgs)
    && AllSendable(h, msgs, MAX_PACKET_LEN) && wire == EncodeAll(cx.suite, h, msgs, MAX_PACKET_LEN)
  }

  /** Takes packets one by one. */
  method TakeAll(bob: Endpoint, pipe: Pipe, ghost msgs: seq<Outgoing>, count: nat) returns (got: Option<seq<Bytes>>)
    requires bob.Valid() && count == |msgs| && AllSendable(bob.In(), msgs, MAX_PACKET_LEN)
    requires pipe.bytes == EncodeAll(bob.suite, bob.In(), msgs, MAX_PACKET_LEN)
    modifies bob, bob.inCounter, pipe
    ensures got.Some? ==> got.value == Payloads(msgs) && bob.In() == After(old(bob.In()), msgs) && pipe.bytes == []
    ensures Lasts(old(pipe.recvPlan), |old(pipe.bytes)|) ==> got.Some?
    decreases count
  {
    if count == 0 {
      return Some([]);
    }
    RunShrinks(bob.suite, bob.In(), msgs, MAX_PACKET_LEN);
    var p := bob.RecvPacket(pipe, MAX_PACKET_LEN);
    if p.None? {
      return None;
    }
    got := TakeAll(bob, pipe, msgs[1..], count - 1);
    if got.Some? {
      got := Some([p.value] + got.value);
    }
  }

  /** What was printed and stored, and why the client stopped. */
  datatype Shown = Shown(printed: Bytes, status: Option<uint32>, mode: ClientOutput.Mode)

  /** Of a run of the server: a beginning of the child's output, and behind its end all of it with its exit code. */
  ghost predicate Faithful(trace: seq<Event>, shown: Shown) {
    && shown.printed <= Said(trace)
    && (shown.mode == ClientOutput.Ended(false) ==>
          shown.printed == Said(trace) && shown.status.Some? && ChildDone(trace, shown.status.value))
  }

  lemma {:induction false} ReadIsFaithful(cx: Context, trace: seq<Event>, k: nat, shown: Shown)
    requires Lawful(cx, trace) && k <= |ClientOutput.SessionPackets(trace)|
    requires ClientOutput.ReadFirst(trace, k) == ClientOutput.Reader(shown.printed, shown.status, shown.mode)
    ensures Faithful(trace, shown)
  {
    ClientOutput.EndToEnd(cx, trace, k);
  }

  /** exec's wait and the printing, on the packets that were taken off the wire. */
  method WaitAndPrint(packets: seq<Bytes>, channel: uint32, q: nat, horizon: nat, ghost cx: Context, ghost trace: seq<Event>,
                      ghost r: nat, ghost k: nat) returns (ok: bool, printed: Bytes, status: Option<uint32>, ghost mode: ClientOutput.Mode)
    requires Lawful(cx, trace) && packets == SentPackets(trace) && channel == StateOf(trace).peer
    requires BeginsFor(trace, r, k) && ReadyToWait(SentPackets(trace[..r]), q) && q <= |packets|
    ensures ok ==> Faithful(trace, Shown(printed, status, mode))
  {
    hide Lawful, StateOf, SentPackets, ReadyToWait, BeginsFor;
    printed, status, mode := [], None, ClientOutput.Waiting;
    WaitsForSession(cx, trace, r, k, q);
    var client := new ClientOutput.Client(channel, packets);
    client.next := q;
    ok := client.AwaitReply();
    if !ok {
      return;
    }
    ghost var n := client.next;
    mode := client.PrintChannelOutput(horizon);
    printed, status := client.printed, client.StoredStatus();
    ghost var session := ClientOutput.SessionPackets(trace);
    assert packets[n..client.next] == session[..client.next - n];
    ReadIsFaithful(cx, trace, client.next - n, Shown(printed, status, mode));
  }

  lemma {:induction false} SameStart(g: Handshake.Config, v: Handshake.Outcome, actions: seq<Interleaving.Action>, w: Interleaving.World)
    requires Exchanged(g, v, actions, w)
    ensures w.v.out == w.c.inp
  {
    FirstExchange.StartOfEncryption(g, v, actions, w);
  }

  /**
   * For every run of the exchange and every run of the server behind it whose sends succeed: a client that takes the packets off
   * the wire, starting from the state its part of the exchange has left, waits for the reply to its exec request and prints,
   * prints a beginning of the child's output; and when it has seen the EOF, all of it, with the child's exit code.
   */
  method ExecFromWire(bob: Endpoint, pipe: Pipe, count: nat, channel: uint32, q: nat, horizon: nat,
                      ghost g: Handshake.Config, ghost v: Handshake.Outcome, ghost actions: seq<Interleaving.Action>,
                      ghost w: Interleaving.World, ghost cx: Context, ghost trace: seq<Event>, ghost pads: nat -> Bytes,
                      ghost r: nat, ghost k: nat)
    returns (ok: bool, printed: Bytes, status: Option<uint32>, ghost mode: ClientOutput.Mode)
    requires Exchanged(g, v, actions, w)
    requires bob.Valid() && bob.suite == cx.suite == g.suite && bob.In() == w.c.inp && cx.sessionId == w.v.sessionId
    requires OnWire(cx, trace, pads, w.v.out, pipe.bytes) && count == |ServerStream.Stream(trace, pads)|
    requires channel == StateOf(trace).peer && BeginsFor(trace, r, k)
    requires ReadyToWait(SentPackets(trace[..r]), q) && q <= |SentPackets(trace)|
    modifies bob, bob.inCounter, pipe
    ensures ok ==> Faithful(trace, Shown(printed, status, mode))
  {
    printed, status, mode := [], None, ClientOutput.Waiting;
    SameStart(g, v, actions, w);
    var got := TakeAll(bob, pipe, ServerStream.Stream(trace, pads), count);
    if got.None? {
      return false, printed, status, mode;
    }
    StreamPayloads(trace, pads);
    ok, printed, status, mode := WaitAndPrint(got.value, channel, q, horizon, cx, trace, r, k);
  }
}
