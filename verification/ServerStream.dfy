/**
 * The server's messages as packets: what a run of the server puts on the wire, and what a receiver in the same state decodes.
 * It joins the packet layer to the session that ClientOutput reads.
 */
module ServerStream {
  import opened Octets
  import opened Wrappers
  import opened Cipher
  import opened Wire
  import opened Packet
  import opened Messages
  import opened ServerTrace
  import ClientOutput
  import Delivery
  import Server

  /** The packets of a run, in order; pads says what the generator delivers for the padding of each. */
  function Stream(trace: seq<Event>, pads: nat -> Bytes): seq<Outgoing> {
    if trace == [] then []
    else
      var front, e := Stream(trace[..|trace| - 1], pads), trace[|trace| - 1];
      if e.Sent? && e.ok then front + [Outgoing(e.msg.Payload(), pads(|front|))] else front
  }

  /** As much padding as send_packet asks for. */
  ghost predicate PadsFit(msgs: seq<Outgoing>) {
    forall m | m in msgs :: |m.padding| == PadLen(|m.payload|, 16)
  }

  lemma {:induction false} MessageFits(h: Half, m: Message, padding: Bytes)
    requires h.encrypted && m.Fits() && |padding| == PadLen(|m.Payload()|, 16)
    ensures Sendable(h, m.Payload(), padding) && |m.Payload()| <= MAX_PACKET_LEN
    ensures Packet.Blocks(5 + |m.Payload()| + |padding|) == m.Blocks()
  {
    hide PadLen;
    m.PayloadLength();
    Server.PacketSize(|m.Payload()|);
  }

  /** The state of the sending direction agrees with what the trace counts. */
  ghost predicate Agrees(h: Half, g: Half, count: Counts) {
    && g.seqNo == Wrap32(h.seqNo + count.packets)
    && (count.fails == 0 ==> g.counter == CtrAdd(h.counter, count.blocks))
  }

  lemma {:induction false} AgreesNext(h: Half, g: Half, count: Counts, m: Message, ok: bool, frameLen: nat)
    requires Agrees(h, g, count) && g.encrypted && Packet.Blocks(frameLen) == m.Blocks()
    ensures Agrees(h, if ok then Next(g, frameLen) else g, CountSend(count, m, ok))
  {
    if ok {
      WrapNext(h.seqNo + count.packets);
      AdvanceAdvance(h.counter, count.blocks, m.Blocks());
    }
  }

  lemma WrapNext(n: nat)
    ensures Wrap32(Wrap32(n) + 1) == Wrap32(n + 1)
  {
  }

  /** Every run of the server is a run of the packet layer, with the sequence number and, if no send failed, the counter of both. */
  lemma {:induction false} StreamRuns(cx: Context, trace: seq<Event>, h: Half, pads: nat -> Bytes)
    requires Lawful(cx, trace) && h.encrypted && PadsFit(Stream(trace, pads))
    ensures AllSendable(h, Stream(trace, pads), MAX_PACKET_LEN)
    ensures Agrees(h, After(h, Stream(trace, pads)), StateOf(trace).count)
  {
    if trace == [] {
      AdvanceZero(h.counter);
    } else {
      var n := |trace| - 1;
      LastStep(cx, trace);
      FrontFits(trace, pads);
      StreamRuns(cx, trace[..n], h, pads);
      StreamStep(cx, trace, h, pads);
    }
  }

  lemma {:induction false} FrontFits(trace: seq<Event>, pads: nat -> Bytes)
    requires trace != [] && PadsFit(Stream(trace, pads))
    ensures PadsFit(Stream(trace[..|trace| - 1], pads))
    ensures var front, e := Stream(trace[..|trace| - 1], pads), trace[|trace| - 1];
      e.Sent? && e.ok ==> |pads(|front|)| == PadLen(|e.msg.Payload()|, 16)
  {
    var front, e := Stream(trace[..|trace| - 1], pads), trace[|trace| - 1];
    assert forall m | m in front :: m in Stream(trace, pads);
    if e.Sent? && e.ok {
      assert Outgoing(e.msg.Payload(), pads(|front|)) in Stream(trace, pads);
    }
  }

  lemma {:induction false} StreamStep(cx: Context, trace: seq<Event>, h: Half, pads: nat -> Bytes)
    requires Lawful(cx, trace) && trace != [] && h.encrypted && PadsFit(Stream(trace, pads))
    requires var front := trace[..|trace| - 1];
      AllSendable(h, Stream(front, pads), MAX_PACKET_LEN) && Agrees(h, After(h, Stream(front, pads)), StateOf(front).count)
    ensures AllSendable(h, Stream(trace, pads), MAX_PACKET_LEN)
    ensures Agrees(h, After(h, Stream(trace, pads)), StateOf(trace).count)
  {
    hide AfterEvent, EncodeAll, AllSendable, After;
    var n := |trace| - 1;
    var msgs, e, st := Stream(trace[..n], pads), trace[n], StateOf(trace[..n]);
    LastStep(cx, trace);
    FrontFits(trace, pads);
    if e.Sent? {
      SentFits(cx, st, e);
      Server.SendCounts(cx, st, e.msg, e.ok);
      var m := Outgoing(e.msg.Payload(), if e.ok then pads(|msgs|) else Zeros(PadLen(|e.msg.Payload()|, 16)));
      MessageFits(After(h, msgs), e.msg, m.padding);
      RunGrows(cx.suite, h, msgs, m, MAX_PACKET_LEN);
      AgreesNext(h, After(h, msgs), st.count, e.msg, e.ok, FrameLen(m));
    } else {
      BlocksStep(cx, st, e);
    }
  }

  function Zeros(n: nat): Bytes {
    seq(n, i => 0)
  }

  lemma {:induction false} SentFits(cx: Context, st: State, e: Event)
    requires Allowed(cx, st, e) && e.Sent?
    ensures e.msg.Fits()
  {
  }

  lemma {:induction false} PayloadsSnoc(msgs: seq<Outgoing>, m: Outgoing)
    ensures Payloads(msgs + [m]) == Payloads(msgs) + [m.payload]
  {
    Delivery.PayloadsGrow(msgs + [m], |msgs|);
    assert (msgs + [m])[..|msgs|] == msgs && (msgs + [m])[..|msgs| + 1] == msgs + [m];
  }

  /** The packets of the session are the last ones of the run. */
  lemma {:induction false} SessionAtEnd(cx: Context, trace: seq<Event>, pads: nat -> Bytes) returns (early: seq<Bytes>)
    requires Lawful(cx, trace)
    ensures Payloads(Stream(trace, pads)) == early + ClientOutput.SessionPackets(trace)
  {
    hide AfterEvent, Allowed;
    early := [];
    if trace != [] {
      var front, e := trace[..|trace| - 1], trace[|trace| - 1];
      LastStep(cx, trace);
      early := SessionAtEnd(cx, front, pads);
      if e.Sent? && e.ok {
        PayloadsSnoc(Stream(front, pads), Outgoing(e.msg.Payload(), pads(|Stream(front, pads)|)));
        if Rank(StateOf(front).channel) < 2 {
          ClientOutput.NoPacketsYet(cx, front);
          early := early + [e.msg.Payload()];
        }
      }
    }
  }

  /**
   * A receiver in this state decodes the packets, whatever follows them: it gets these payloads and ends in the state that the
   * trace counts.
   */
  ghost predicate Arrives(cx: Context, trace: seq<Event>, h: Half, msgs: seq<Outgoing>, rest: Bytes, payloads: seq<Bytes>) {
    && AllSendable(h, msgs, MAX_PACKET_LEN) && Synchronised(cx.suite, h, msgs, rest, MAX_PACKET_LEN) && Payloads(msgs) == payloads
    && After(h, msgs).seqNo == Wrap32(h.seqNo + StateOf(trace).count.packets)
    && After(h, msgs).counter == CtrAdd(h.counter, StateOf(trace).count.blocks)
  }

  lemma {:induction false} Decoded(cx: Context, trace: seq<Event>, h: Half, msgs: seq<Outgoing>, rest: Bytes, payloads: seq<Bytes>)
    requires AllSendable(h, msgs, MAX_PACKET_LEN) && Payloads(msgs) == payloads
    requires Agrees(h, After(h, msgs), StateOf(trace).count) && StateOf(trace).count.fails == 0
    ensures Arrives(cx, trace, h, msgs, rest, payloads)
  {
    hide AfterEvent;
    RunSynchronised(cx.suite, h, msgs, rest, MAX_PACKET_LEN);
  }

  /**
   * For every run in which no send failed: a receiver that starts in the server's state decodes all that the run puts on the
   * wire. The last payloads are those of the session that ClientOutput reads; sequence number and counter are the server's.
   */
  lemma {:induction false} RunArrives(cx: Context, trace: seq<Event>, h: Half, pads: nat -> Bytes, rest: Bytes)
    returns (early: seq<Bytes>)
    requires Lawful(cx, trace) && StateOf(trace).count.fails == 0
    requires h.encrypted && PadsFit(Stream(trace, pads))
    ensures Arrives(cx, trace, h, Stream(trace, pads), rest, early + ClientOutput.SessionPackets(trace))
  {
    early := SessionAtEnd(cx, trace, pads);
    StreamRuns(cx, trace, h, pads);
    Decoded(cx, trace, h, Stream(trace, pads), rest, early + ClientOutput.SessionPackets(trace));
  }
}
