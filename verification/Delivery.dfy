/**
 * Whole runs over the transport: one end sends a list of packets while the other receives, their steps in any order, and the
 * callbacks splitting the stream as they like.
 */
module Delivery {
  import opened Octets
  import opened Wrappers
  import opened Cipher
  import opened Packet
  import opened Transport
  import opened PacketLayer

  /**
   * Between two steps: `sent` packets were sent and `taken` of them received. Both ends have gone through their part of the
   * run, and the wire holds the packets between.
   */
  ghost predicate InFlight(s: Suite, start: Half, out: Half, inp: Half, wire: Bytes, msgs: seq<Outgoing>,
                           taken: nat, sent: nat, max: nat) {
    && taken <= sent <= |msgs|
    && Reaches(start, msgs[..sent], out, max) && Reaches(start, msgs[..taken], inp, max)
    && Reaches(inp, msgs[taken..sent], out, max) && wire == EncodeAll(s, inp, msgs[taken..sent], max)
  }

  /** A run that can be sent, and the state behind it. */
  ghost predicate Reaches(start: Half, msgs: seq<Outgoing>, end: Half, max: nat) {
    AllSendable(start, msgs, max) && end == After(start, msgs)
  }

  lemma {:induction false} ReachesNext(s: Suite, start: Half, msgs: seq<Outgoing>, end: Half, k: nat, max: nat)
    requires k < |msgs| && Reaches(start, msgs[..k], end, max)
    requires Sendable(end, msgs[k].payload, msgs[k].padding) && |msgs[k].payload| <= max
    ensures Reaches(start, msgs[..k + 1], Next(end, FrameLen(msgs[k])), max)
  {
    hide After, AllSendable, EncodeAll;
    RunGrows(s, start, msgs[..k], msgs[k], max);
    SliceGrows(msgs, 0, k);
    assert msgs[..k] == msgs[0..k] && msgs[..k + 1] == msgs[0..k + 1];
  }

  lemma {:induction false} NothingYet(s: Suite, start: Half, msgs: seq<Outgoing>, max: nat)
    ensures InFlight(s, start, start, start, [], msgs, 0, 0, max)
  {
    assert msgs[..0] == [] && msgs[0..0] == [];
  }

  /** What sending a packet does to the sender's state and to the wire. */
  ghost predicate Wrote(s: Suite, out: Half, outNow: Half, wire: Bytes, wireNow: Bytes, m: Outgoing) {
    && Sendable(out, m.payload, m.padding) && outNow == Next(out, FrameLen(m))
    && wireNow == wire + Encode(s, out, m.payload, m.padding)
  }

  lemma {:induction false} LastPushed(s: Suite, inp: Half, pending: seq<Outgoing>, out: Half, outNow: Half, wire: Bytes, wireNow: Bytes,
                                      m: Outgoing, max: nat)
    requires Reaches(inp, pending, out, max) && wire == EncodeAll(s, inp, pending, max)
    requires Wrote(s, out, outNow, wire, wireNow, m) && |m.payload| <= max
    ensures Reaches(inp, pending + [m], outNow, max) && wireNow == EncodeAll(s, inp, pending + [m], max)
  {
    RunGrows(s, inp, pending, m, max);
  }

  lemma SliceGrows(msgs: seq<Outgoing>, from: nat, to: nat)
    requires from <= to < |msgs|
    ensures msgs[from..to] + [msgs[to]] == msgs[from..to + 1]
  {
  }

  /** Sending the next packet. */
  lemma {:induction false} SendKeeps(s: Suite, start: Half, out: Half, outNow: Half, inp: Half, wire: Bytes, wireNow: Bytes,
                                     msgs: seq<Outgoing>, taken: nat, sent: nat, max: nat)
    requires InFlight(s, start, out, inp, wire, msgs, taken, sent, max) && sent < |msgs|
    requires Wrote(s, out, outNow, wire, wireNow, msgs[sent]) && |msgs[sent].payload| <= max
    ensures InFlight(s, start, outNow, inp, wireNow, msgs, taken, sent + 1, max)
  {
    hide EncodeAll, After, AllSendable, Reaches, Encode;
    var m, pending := msgs[sent], msgs[taken..sent];
    ReachesNext(s, start, msgs, out, sent, max);
    LastPushed(s, inp, pending, out, outNow, wire, wireNow, m, max);
    SliceGrows(msgs, taken, sent);
  }

  lemma {:induction false} FirstTaken(s: Suite, inp: Half, pending: seq<Outgoing>, out: Half, max: nat)
    requires pending != [] && Reaches(inp, pending, out, max)
    ensures var m, h := pending[0], Next(inp, FrameLen(pending[0]));
      && Sendable(inp, m.payload, m.padding) && |m.payload| <= max && Reaches(h, pending[1..], out, max)
      && Decode(s, inp, EncodeAll(s, inp, pending, max), max)
         == Some(Received(m.payload, EncodeAll(s, h, pending[1..], max), h))
  {
    RunShrinks(s, inp, pending, max);
  }

  /** Receiving the next packet: it can be decoded, and gives the next payload of the list. */
  lemma {:induction false} TakeKeeps(s: Suite, start: Half, out: Half, inp: Half, wire: Bytes, msgs: seq<Outgoing>,
                                     taken: nat, sent: nat, max: nat)
    requires InFlight(s, start, out, inp, wire, msgs, taken, sent, max) && taken < sent
    ensures var r := Decode(s, inp, wire, max);
      && r.Some? && r.value.payload == msgs[taken].payload
      && InFlight(s, start, out, r.value.half, r.value.rest, msgs, taken + 1, sent, max)
  {
    var m, pending := msgs[taken], msgs[taken..sent];
    assert pending[0] == m && pending[1..] == msgs[taken + 1..sent];
    FirstTaken(s, inp, pending, out, max);
    ReachesNext(s, start, msgs, inp, taken, max);
  }

  lemma {:induction false} PayloadsGrow(msgs: seq<Outgoing>, k: nat)
    requires k < |msgs|
    ensures Payloads(msgs[..k + 1]) == Payloads(msgs[..k]) + [msgs[k].payload]
    decreases |msgs|
  {
    if k == 0 {
      assert msgs[..1] == [msgs[0]] && msgs[..1][1..] == [] && msgs[..0] == [];
    } else {
      PayloadsGrow(msgs[1..], k - 1);
      assert msgs[..k + 1][1..] == msgs[1..][..k] && msgs[..k][1..] == msgs[1..][..k - 1];
    }
  }

  lemma {:induction false} PayloadsLength(msgs: seq<Outgoing>)
    ensures |Payloads(msgs)| == |msgs|
  {
    if msgs != [] {
      PayloadsLength(msgs[1..]);
    }
  }

  lemma {:induction false} EncodeLength(s: Suite, h: Half, payload: Bytes, padding: Bytes)
    requires Sendable(h, payload, padding)
    ensures |Encode(s, h, payload, padding)| <= 5 + |payload| + |padding| + MAC_LEN
  {
    FrameLength(payload, padding);
  }

  lemma {:induction false} SendableLater(h: Half, msgs: seq<Outgoing>, k: nat, max: nat)
    requires AllSendable(h, msgs, max) && k < |msgs|
    ensures Sendable(h, msgs[k].payload, msgs[k].padding)
    decreases |msgs|
  {
    if k > 0 {
      SendableLater(Next(h, FrameLen(msgs[0])), msgs[1..], k - 1, max);
    }
  }

  // ----- any order of the steps -----

  /** How many packets were sent and received after these steps; true is a send, and a step that has nothing to do does nothing. */
  function Progress(steps: seq<bool>, n: nat): (p: (nat, nat))
    ensures p.1 <= p.0 <= n
  {
    if steps == [] then (0, 0)
    else
      var p := Progress(steps[..|steps| - 1], n);
      if steps[|steps| - 1] then (if p.0 < n then p.0 + 1 else n, p.1) else (p.0, if p.1 < p.0 then p.1 + 1 else p.1)
  }

  /** The padding that send_packet chooses, and payloads that fit the receiver's buffer. */
  ghost predicate Padded(h: Half, msgs: seq<Outgoing>, max: nat) {
    forall m | m in msgs :: |m.padding| == PadLen(|m.payload|, BlockSize(h)) && |m.payload| <= max
  }

  /** The callbacks will still move all that is on the wire and all that is still to be sent. */
  ghost predicate Willing(pipe: Pipe, start: Half, msgs: seq<Outgoing>, sent: nat, max: nat)
    requires sent <= |msgs|
    reads pipe
  {
    && AllSendable(start, msgs, max) && Lasts(pipe.sendPlan, BytesOf(msgs[sent..]))
    && Lasts(pipe.recvPlan, |pipe.bytes| + BytesOf(msgs[sent..]))
  }

  lemma {:induction false} WillingToSend(start: Half, msgs: seq<Outgoing>, sent: nat, max: nat)
    requires AllSendable(start, msgs, max) && sent < |msgs|
    ensures Sendable(start, msgs[sent].payload, msgs[sent].padding)
    ensures BytesOf(msgs[sent..]) == FrameLen(msgs[sent]) + MAC_LEN + BytesOf(msgs[sent + 1..])
  {
    SendableLater(start, msgs, sent, max);
    assert msgs[sent..][1..] == msgs[sent + 1..];
  }

  /** A run does not change the mode, so the padding of the whole list stays right. */
  lemma {:induction false} SameSize(start: Half, out: Half, msgs: seq<Outgoing>, sent: nat, max: nat)
    requires Padded(start, msgs, max) && sent < |msgs| && out == After(start, msgs[..sent])
    ensures var m := msgs[sent];
      && |m.padding| == PadLen(|m.payload|, BlockSize(out)) && |m.payload| <= max
      && Sendable(out, m.payload, m.padding) == Sendable(start, m.payload, m.padding)
  {
    assert msgs[sent] in msgs;
  }

  /** The plans after a packet of at most n bytes went out, with `rest` still to be sent. */
  lemma {:induction false} StillWilling(before: seq<int>, after: seq<int>, recvPlan: seq<int>, n: nat, rest: nat, wire: nat, wireNow: nat)
    requires Keeps(before, after, n) && Lasts(before, n + rest)
    requires Lasts(recvPlan, wire + (n + rest)) && wireNow <= wire + n
    ensures Lasts(after, rest) && Lasts(recvPlan, wireNow + rest)
  {
  }

  ghost predicate Connected(alice: Endpoint, bob: Endpoint) {
    alice.Valid() && bob.Valid() && alice != bob && alice.outCounter != bob.inCounter && alice.suite == bob.suite
  }

  ghost predicate Between(alice: Endpoint, bob: Endpoint, pipe: Pipe, start: Half, msgs: seq<Outgoing>,
                          taken: nat, sent: nat, max: nat)
    requires Connected(alice, bob)
    reads alice, alice.outCounter, bob, bob.inCounter, pipe
  {
    InFlight(alice.suite, start, alice.Out(), bob.In(), pipe.bytes, msgs, taken, sent, max)
  }

  method Push(alice: Endpoint, bob: Endpoint, pipe: Pipe, m: Outgoing) returns (ok: bool)
    requires Connected(alice, bob) && |m.padding| == PadLen(|m.payload|, BlockSize(alice.Out()))
    modifies alice, alice.outCounter, pipe
    ensures bob.In() == old(bob.In()) && pipe.recvPlan == old(pipe.recvPlan)
    ensures ok ==> Wrote(alice.suite, old(alice.Out()), alice.Out(), old(pipe.bytes), pipe.bytes, m)
    ensures ok ==> Keeps(old(pipe.sendPlan), pipe.sendPlan, FrameLen(m) + MAC_LEN)
    ensures ok ==> |pipe.bytes| <= |old(pipe.bytes)| + FrameLen(m) + MAC_LEN
    ensures Sendable(old(alice.Out()), m.payload, m.padding) && Lasts(old(pipe.sendPlan), FrameLen(m) + MAC_LEN) ==> ok
  {
    ghost var out := alice.Out();
    ok := alice.SendPacket(pipe, m.payload, m.padding);
    if ok {
      EncodeLength(alice.suite, out, m.payload, m.padding);
    }
  }

  method SendNext(alice: Endpoint, bob: Endpoint, pipe: Pipe, ghost start: Half, msgs: seq<Outgoing>,
                  ghost taken: nat, sent: nat, ghost max: nat) returns (ok: bool)
    requires Connected(alice, bob) && Padded(start, msgs, max) && sent < |msgs|
    requires Between(alice, bob, pipe, start, msgs, taken, sent, max)
    modifies alice, alice.outCounter, pipe
    ensures ok ==> Between(alice, bob, pipe, start, msgs, taken, sent + 1, max)
    ensures old(Willing(pipe, start, msgs, sent, max)) ==> ok && Willing(pipe, start, msgs, sent + 1, max)
  {
    var m := msgs[sent];
    ghost var out, inp, wire, willing := alice.Out(), bob.In(), pipe.bytes, Willing(pipe, start, msgs, sent, max);
    SameSize(start, out, msgs, sent, max);
    if willing {
      WillingToSend(start, msgs, sent, max);
    }
    ghost var plan := pipe.sendPlan;
    ok := Push(alice, bob, pipe, m);
    if ok {
      SendKeeps(alice.suite, start, out, alice.Out(), inp, wire, pipe.bytes, msgs, taken, sent, max);
      if willing {
        StillWilling(plan, pipe.sendPlan, pipe.recvPlan, FrameLen(m) + MAC_LEN, BytesOf(msgs[sent + 1..]), |wire|, |pipe.bytes|);
      }
    }
  }

  method TakeNext(alice: Endpoint, bob: Endpoint, pipe: Pipe, ghost start: Half, ghost msgs: seq<Outgoing>,
                  ghost taken: nat, ghost sent: nat, max: nat) returns (payload: Option<Bytes>)
    requires Connected(alice, bob) && taken < sent
    requires Between(alice, bob, pipe, start, msgs, taken, sent, max)
    modifies bob, bob.inCounter, pipe
    ensures payload.Some? ==> payload.value == msgs[taken].payload && Between(alice, bob, pipe, start, msgs, taken + 1, sent, max)
    ensures old(Willing(pipe, start, msgs, sent, max)) ==> payload.Some? && Willing(pipe, start, msgs, sent, max)
  {
    hide EncodeAll, After, AllSendable;
    TakeKeeps(alice.suite, start, alice.Out(), bob.In(), pipe.bytes, msgs, taken, sent, max);
    payload := bob.RecvPacket(pipe, max);
  }

  /** One step of the run. */
  method Step(alice: Endpoint, bob: Endpoint, pipe: Pipe, ghost start: Half, msgs: seq<Outgoing>,
              sends: bool, sent: nat, got: seq<Bytes>, max: nat) returns (ok: bool, sentNow: nat, gotNow: seq<Bytes>)
    requires Connected(alice, bob) && Padded(start, msgs, max)
    requires Between(alice, bob, pipe, start, msgs, |got|, sent, max) && got == Payloads(msgs[..|got|])
    modifies alice, alice.outCounter, bob, bob.inCounter, pipe
    ensures ok ==> sentNow == if sends && sent < |msgs| then sent + 1 else sent
    ensures ok ==> |gotNow| == if !sends && |got| < sent then |got| + 1 else |got|
    ensures ok ==> Between(alice, bob, pipe, start, msgs, |gotNow|, sentNow, max) && gotNow == Payloads(msgs[..|gotNow|])
    ensures old(Willing(pipe, start, msgs, sent, max)) ==> ok && Willing(pipe, start, msgs, sentNow, max)
  {
    ok, sentNow, gotNow := true, sent, got;
    if sends && sent < |msgs| {
      ok := SendNext(alice, bob, pipe, start, msgs, |got|, sent, max);
      sentNow := sent + 1;
    } else if !sends && |got| < sent {
      var payload := TakeNext(alice, bob, pipe, start, msgs, |got|, sent, max);
      ok := payload.Some?;
      if ok {
        PayloadsGrow(msgs, |got|);
        gotNow := got + [payload.value];
      }
    }
  }

  /**
   * For every list of packets, every order of sends and receives and every fragmentation: as long as no step fails, what was
   * received is the beginning of what was sent, and both ends' counters, sequence numbers and keys are those of the run. No
   * step fails if the packets can be sent and the callbacks go on moving bytes.
   */
  method Deliver(alice: Endpoint, bob: Endpoint, pipe: Pipe, msgs: seq<Outgoing>, steps: seq<bool>, max: nat)
    returns (ok: bool, sent: nat, got: seq<Bytes>)
    requires Connected(alice, bob) && alice.Out() == bob.In() && pipe.bytes == []
    requires Padded(alice.Out(), msgs, max)
    modifies alice, alice.outCounter, bob, bob.inCounter, pipe
    ensures ok ==> (sent, |got|) == Progress(steps, |msgs|)
    ensures ok ==> got == Payloads(msgs[..|got|])
    ensures ok ==> Between(alice, bob, pipe, old(alice.Out()), msgs, |got|, sent, max)
    ensures old(Willing(pipe, alice.Out(), msgs, 0, max)) ==> ok
  {
    hide InFlight, Willing, EncodeAll, After, AllSendable;
    ghost var start := alice.Out();
    ghost var willing := Willing(pipe, start, msgs, 0, max);
    assert msgs[0..] == msgs && msgs[..0] == [];
    NothingYet(alice.suite, start, msgs, max);
    ok, sent, got := true, 0, [];
    var i := 0;
    while i < |steps|
      invariant i <= |steps| && (sent, |got|) == Progress(steps[..i], |msgs|)
      invariant Between(alice, bob, pipe, start, msgs, |got|, sent, max)
      invariant got == Payloads(msgs[..|got|])
      invariant willing ==> Willing(pipe, start, msgs, sent, max)
    {
      assert steps[..i + 1][..i] == steps[..i];
      ok, sent, got := Step(alice, bob, pipe, start, msgs, steps[i], sent, got, max);
      if !ok {
        return;
      }
      i := i + 1;
    }
    assert steps[..|steps|] == steps;
  }

  /** The steps that send everything first. */
  function SendsFirst(n: nat, k: nat): seq<bool> {
    seq(n, i => true) + seq(k, i => false)
  }

  lemma {:induction false} SendsFirstProgress(n: nat, k: nat)
    requires k <= n
    ensures Progress(SendsFirst(n, k), n) == (n, k)
  {
    if k == 0 {
      SendsProgress(n, n);
      assert SendsFirst(n, 0) == seq(n, i => true);
    } else {
      SendsFirstProgress(n, k - 1);
      var steps := SendsFirst(n, k);
      assert steps[..|steps| - 1] == SendsFirst(n, k - 1);
    }
  }

  lemma {:induction false} SendsProgress(k: nat, n: nat)
    requires k <= n
    ensures Progress(seq(k, i => true), n) == (k, 0)
  {
    if k > 0 {
      SendsProgress(k - 1, n);
      var steps := seq(k, i => true);
      assert steps[..k - 1] == seq(k - 1, i => true);
    }
  }

  /** Everything is sent and received: exactly the payloads in order, equal states at both ends, and nothing left over. */
  method DeliverAll(alice: Endpoint, bob: Endpoint, pipe: Pipe, msgs: seq<Outgoing>, max: nat) returns (ok: bool, got: seq<Bytes>)
    requires Connected(alice, bob) && alice.Out() == bob.In() && pipe.bytes == []
    requires Padded(alice.Out(), msgs, max)
    modifies alice, alice.outCounter, bob, bob.inCounter, pipe
    ensures ok ==> got == Payloads(msgs) && pipe.bytes == []
    ensures ok ==> alice.Out() == bob.In() == After(old(alice.Out()), msgs)
    ensures old(Willing(pipe, alice.Out(), msgs, 0, max)) ==> ok
  {
    SendsFirstProgress(|msgs|, |msgs|);
    var sent;
    ok, sent, got := Deliver(alice, bob, pipe, msgs, SendsFirst(|msgs|, |msgs|), max);
    assert msgs[..|msgs|] == msgs && msgs[|msgs|..|msgs|] == [];
  }
}
