/** The binary packet protocol (section 6 of RFC 4253, section 4 of RFC 4344): framing, encryption, MAC and the state of one direction. */
module Packet {
  import opened Octets
  import opened Wrappers
  import opened Cipher
  import opened Wire

  const MIN_PADDING := 4
  const MAC_LEN := 32

  // ----- padding and framing -----

  /** Whether the packet fills whole blocks with this much padding. */
  predicate Aligned(payloadLen: nat, pad: nat, block: nat)
    requires block > 0
  {
    (1 + payloadLen + pad + 4) % block == 0
  }

  /** The padding that the search in send_packet stops at. */
  function PadLen(payloadLen: nat, block: nat): (pad: nat)
    requires block > 0
    ensures MIN_PADDING <= pad < MIN_PADDING + block
    ensures Aligned(payloadLen, pad, block)
  {
    var n := payloadLen + 5 + MIN_PADDING;
    var r := n % block;
    DivMod(n, block);
    if r == 0 then MIN_PADDING
    else
      MulDistributes(n / block, 1, block);
      ModUnique(n + (block - r), block, n / block + 1, 0);
      MIN_PADDING + (block - r)
  }

  lemma {:induction false} PadLenLeast(payloadLen: nat, pad: nat, block: nat)
    requires block > 0 && MIN_PADDING <= pad && Aligned(payloadLen, pad, block)
    ensures PadLen(payloadLen, block) <= pad
  {
    var n := payloadLen + 5 + MIN_PADDING;
    DivMod(n, block);
    if n % block + (pad - MIN_PADDING) < block {
      ModUnique(n + (pad - MIN_PADDING), block, n / block, n % block + (pad - MIN_PADDING));
    }
  }

  method ComputePadding(payloadLen: nat, block: nat) returns (pad: nat)
    requires block > 0
    ensures pad == PadLen(payloadLen, block)
  {
    pad := MIN_PADDING;
    while !Aligned(payloadLen, pad, block)
      invariant MIN_PADDING <= pad <= PadLen(payloadLen, block)
      decreases PadLen(payloadLen, block) - pad
    {
      pad := pad + 1;
    }
    PadLenLeast(payloadLen, pad, block);
  }

  /** packet_length, padding_length, payload, padding. */
  function Frame(payload: Bytes, padding: Bytes): Bytes
    requires 1 + |payload| + |padding| <= MAX_PACKET_LEN && |padding| < 256
  {
    U32(1 + |payload| + |padding|) + [|padding|] + payload + padding
  }

  /** The checks on a whole frame, after its length field was accepted. */
  function Open(frame: Bytes, max: nat): Option<Bytes>
    requires |frame| >= 9
  {
    var packetLen, pad := |frame| - 4, frame[4] as int;
    if pad < MIN_PADDING || pad >= packetLen || packetLen - 1 - pad > max then None
    else Some(frame[5..5 + (packetLen - 1 - pad)])
  }

  predicate LengthOk(packetLen: nat) {
    1 + MIN_PADDING <= packetLen <= MAX_PACKET_LEN
  }

  lemma {:induction false} FrameLength(payload: Bytes, padding: Bytes)
    requires 1 + |payload| + |padding| <= MAX_PACKET_LEN && |padding| < 256
    ensures |Frame(payload, padding)| == 5 + |payload| + |padding|
    ensures U32At(Frame(payload, padding), 0) == 1 + |payload| + |padding|
  {
    var f := Frame(payload, padding);
    assert f[0..4] == U32(1 + |payload| + |padding|);
    ValueOfU32(1 + |payload| + |padding|);
  }

  lemma {:induction false} OpenOfFrame(payload: Bytes, padding: Bytes, max: nat)
    requires 1 + |payload| + |padding| <= MAX_PACKET_LEN && MIN_PADDING <= |padding| < 256
    ensures Open(Frame(payload, padding), max) == if |payload| <= max then Some(payload) else None
  {
    var f := Frame(payload, padding);
    assert f[4] == |padding|;
    assert f[5..5 + |payload|] == payload;
  }

  // ----- one direction of a connection -----

  /** What one side keeps for one direction: key_exchange_complete, the derived keys, the counter and the sequence number. */
  datatype Half = Half(encrypted: bool, key: Block, macKey: Digest, counter: Block, seqNo: uint32)

  function BlockSize(h: Half): nat {
    if h.encrypted then 16 else 8
  }

  function Blocks(frameLen: nat): nat {
    (frameLen + 15) / 16
  }

  predicate Sendable(h: Half, payload: Bytes, padding: Bytes) {
    && payload != []
    && |padding| == PadLen(|payload|, BlockSize(h))
    && 1 + |payload| + |padding| <= MAX_PACKET_LEN
  }

  function Next(h: Half, frameLen: nat): Half {
    var counter := if h.encrypted then CtrAdd(h.counter, Blocks(frameLen)) else h.counter;
    h.(counter := counter, seqNo := Wrap32(h.seqNo + 1))
  }

  function Mac(s: Suite, h: Half, frame: Bytes): Digest {
    s.hmac(h.macKey, U32(h.seqNo) + frame)
  }

  /** The bytes send_packet puts on the wire. */
  function Encode(s: Suite, h: Half, payload: Bytes, padding: Bytes): Bytes
    requires Sendable(h, payload, padding)
  {
    var f := Frame(payload, padding);
    if h.encrypted then Ctr(s, h.key, f, h.counter) + Mac(s, h, f) else f
  }

  datatype Received = Received(payload: Bytes, rest: Bytes, half: Half)

  /** recv_packet on the bytes that arrive: None when it fails, or when the stream ends too early. */
  function Decode(s: Suite, h: Half, input: Bytes, max: nat): Option<Received> {
    if h.encrypted then DecodeEncrypted(s, h, input, max) else DecodePlain(h, input, max)
  }

  function DecodePlain(h: Half, input: Bytes, max: nat): Option<Received> {
    if |input| < 4 || !LengthOk(U32At(input, 0)) || |input| < 4 + U32At(input, 0) then None
    else
      var n := 4 + U32At(input, 0);
      match Open(input[..n], max)
      case None => None
      case Some(payload) => Some(Received(payload, input[n..], Next(h, n)))
  }

  /** The first block tells the length. */
  function DecodeEncrypted(s: Suite, h: Half, input: Bytes, max: nat): Option<Received> {
    if |input| < 16 then None
    else
      var first := Ctr(s, h.key, input[..16], h.counter);
      var packetLen := U32At(first, 0);
      if !LengthOk(packetLen) || 4 + packetLen < 16 then None
      else DecodeRest(s, h.(counter := CtrAdd(h.counter, 1)), first, packetLen - 12, input[16..], max)
  }

  /** The remaining m bytes are decrypted one block further on; then the MAC over the whole packet is compared. */
  function DecodeRest(s: Suite, h: Half, first: Block, m: nat, input: Bytes, max: nat): Option<Received> {
    if |input| < m + MAC_LEN then None
    else
      var frame := first + Ctr(s, h.key, input[..m], h.counter);
      if Mac(s, h, frame) != input[m..m + MAC_LEN] then None
      else
        match Open(frame, max)
        case None => None
        case Some(payload) => Some(Received(payload, input[m + MAC_LEN..], Next(h, m)))
  }

  /** Decrypting in two pieces gives back what was encrypted in one. */
  lemma {:induction false} TwoPieces(s: Suite, key: Block, frame: Bytes, counter: Block)
    requires |frame| >= 16
    ensures var enc := Ctr(s, key, frame, counter);
      && Ctr(s, key, enc[..16], counter) == frame[..16]
      && Ctr(s, key, enc[..16], counter) + Ctr(s, key, enc[16..], CtrAdd(counter, 1)) == frame
  {
    var enc := Ctr(s, key, frame, counter);
    CtrTwice(s, key, frame, counter);
    CtrSplit(s, key, enc, counter, 1);
  }

  /** The first block, decrypted, gives the length of the packet it belongs to. */
  lemma {:induction false} FirstBlock(s: Suite, h: Half, frame: Bytes, tail: Bytes, max: nat)
    requires 16 <= |frame| && U32At(frame, 0) == |frame| - 4 && LengthOk(|frame| - 4)
    ensures var enc := Ctr(s, h.key, frame, h.counter);
      DecodeEncrypted(s, h, enc + tail, max)
        == DecodeRest(s, h.(counter := CtrAdd(h.counter, 1)), frame[..16], |frame| - 16, enc[16..] + tail, max)
  {
    var enc := Ctr(s, h.key, frame, h.counter);
    TwoPieces(s, h.key, frame, h.counter);
    assert (enc + tail)[..16] == enc[..16] && (enc + tail)[16..] == enc[16..] + tail;
    assert frame[..16][0..4] == frame[0..4];
  }

  /** The rest decrypts to the rest of the packet, the MAC agrees, and what follows is left alone. */
  lemma {:induction false} RestOfPacket(s: Suite, h: Half, frame: Bytes, enc: Bytes, mac: Digest, rest: Bytes, max: nat)
    requires 16 <= |frame| == 16 + |enc| && mac == Mac(s, h, frame)
    requires frame[..16] + Ctr(s, h.key, enc, h.counter) == frame
    ensures var payload := Open(frame, max);
      DecodeRest(s, h, frame[..16], |enc|, enc + (mac + rest), max)
        == if payload.Some? then Some(Received(payload.value, rest, Next(h, |enc|))) else None
  {
    var m, input := |enc|, enc + (mac + rest);
    assert input[..m] == enc && input[m..m + MAC_LEN] == mac && input[m + MAC_LEN..] == rest;
  }

  lemma {:induction false} EncryptedRoundTrip(s: Suite, h: Half, payload: Bytes, padding: Bytes, rest: Bytes, max: nat)
    requires h.encrypted && Sendable(h, payload, padding) && |payload| <= max
    ensures DecodeEncrypted(s, h, Encode(s, h, payload, padding) + rest, max)
         == Some(Received(payload, rest, Next(h, |Frame(payload, padding)|)))
  {
    hide DecodeEncrypted, DecodeRest, Open, Ctr;
    var f, h1 := Frame(payload, padding), h.(counter := CtrAdd(h.counter, 1));
    var enc, mac := Ctr(s, h.key, f, h.counter), Mac(s, h, f);
    FrameLength(payload, padding);
    LongEnough(|payload|);
    assert Encode(s, h, payload, padding) + rest == enc + (mac + rest);
    FirstBlock(s, h, f, mac + rest, max);
    TwoPieces(s, h.key, f, h.counter);
    RestOfPacket(s, h1, f, enc[16..], mac, rest, max);
    OpenOfFrame(payload, padding, max);
    AdvanceAdvance(h.counter, 1, Blocks(|f| - 16));
    assert 1 + Blocks(|f| - 16) == Blocks(|f|);
  }

  /** An encrypted packet fills at least one block. */
  lemma {:induction false} LongEnough(payloadLen: nat)
    ensures 5 + payloadLen + PadLen(payloadLen, 16) >= 16
  {
    assert Aligned(payloadLen, PadLen(payloadLen, 16), 16);
  }

  lemma {:induction false} PlainRoundTrip(h: Half, payload: Bytes, padding: Bytes, rest: Bytes, max: nat)
    requires !h.encrypted && Sendable(h, payload, padding) && |payload| <= max
    ensures DecodePlain(h, Frame(payload, padding) + rest, max)
         == Some(Received(payload, rest, Next(h, |Frame(payload, padding)|)))
  {
    var f := Frame(payload, padding);
    var input := f + rest;
    FrameLength(payload, padding);
    assert input[0..4] == f[0..4];
    assert input[..|f|] == f && input[|f|..] == rest;
    OpenOfFrame(payload, padding, max);
  }

  /** The receiver gets the payload, leaves the following bytes alone, and moves to the same state as the sender. */
  lemma {:induction false} RoundTrip(s: Suite, h: Half, payload: Bytes, padding: Bytes, rest: Bytes, max: nat)
    requires Sendable(h, payload, padding) && |payload| <= max
    ensures Decode(s, h, Encode(s, h, payload, padding) + rest, max)
         == Some(Received(payload, rest, Next(h, |Frame(payload, padding)|)))
  {
    if h.encrypted {
      EncryptedRoundTrip(s, h, payload, padding, rest, max);
    } else {
      PlainRoundTrip(h, payload, padding, rest, max);
    }
  }

  // ----- whole runs -----

  datatype Outgoing = Outgoing(payload: Bytes, padding: Bytes)

  function FrameLen(m: Outgoing): nat {
    5 + |m.payload| + |m.padding|
  }

  /** Every packet of the run can be sent, and none is larger than the receiver's buffer. */
  predicate AllSendable(h: Half, msgs: seq<Outgoing>, max: nat)
    decreases |msgs|
  {
    msgs == [] || (
      && Sendable(h, msgs[0].payload, msgs[0].padding) && |msgs[0].payload| <= max
      && AllSendable(Next(h, FrameLen(msgs[0])), msgs[1..], max))
  }

  /** The state after a run of packets: the same function for the sender and for the receiver. */
  function After(h: Half, msgs: seq<Outgoing>): (g: Half)
    ensures g.encrypted == h.encrypted && g.key == h.key && g.macKey == h.macKey
    decreases |msgs|
  {
    if msgs == [] then h else After(Next(h, FrameLen(msgs[0])), msgs[1..])
  }

  function EncodeAll(s: Suite, h: Half, msgs: seq<Outgoing>, max: nat): Bytes
    requires AllSendable(h, msgs, max)
    decreases |msgs|
  {
    if msgs == [] then []
    else Encode(s, h, msgs[0].payload, msgs[0].padding) + EncodeAll(s, Next(h, FrameLen(msgs[0])), msgs[1..], max)
  }

  datatype Drained = Drained(payloads: seq<Bytes>, rest: Bytes, half: Half)

  function DecodeAll(s: Suite, h: Half, input: Bytes, count: nat, max: nat): Option<Drained>
    decreases count
  {
    if count == 0 then Some(Drained([], input, h))
    else
      match Decode(s, h, input, max)
      case None => None
      case Some(r) =>
        match DecodeAll(s, r.half, r.rest, count - 1, max)
        case None => None
        case Some(d) => Some(d.(payloads := [r.payload] + d.payloads))
  }

  function Payloads(msgs: seq<Outgoing>): seq<Bytes> {
    if msgs == [] then [] else [msgs[0].payload] + Payloads(msgs[1..])
  }

  /** The receiver yields exactly these payloads in order, leaves the rest alone, and ends in the sender's state. */
  ghost predicate Synchronised(s: Suite, h: Half, msgs: seq<Outgoing>, rest: Bytes, max: nat)
    requires AllSendable(h, msgs, max)
  {
    DecodeAll(s, h, EncodeAll(s, h, msgs, max) + rest, |msgs|, max) == Some(Drained(Payloads(msgs), rest, After(h, msgs)))
  }

  /** Synchronisation over whole runs, for any list of payloads and any padding bytes. */
  lemma {:induction false} RunSynchronised(s: Suite, h: Half, msgs: seq<Outgoing>, rest: Bytes, max: nat)
    requires AllSendable(h, msgs, max)
    ensures Synchronised(s, h, msgs, rest, max)
    decreases |msgs|
  {
    if msgs == [] {
      assert EncodeAll(s, h, msgs, max) + rest == rest;
    } else {
      RunSynchronised(s, Next(h, FrameLen(msgs[0])), msgs[1..], rest, max);
      FirstOfRun(s, h, msgs, rest, max);
    }
  }

  lemma {:induction false} FirstOfRun(s: Suite, h: Half, msgs: seq<Outgoing>, rest: Bytes, max: nat)
    requires msgs != [] && AllSendable(h, msgs, max)
    requires Synchronised(s, Next(h, FrameLen(msgs[0])), msgs[1..], rest, max)
    ensures Synchronised(s, h, msgs, rest, max)
  {
    hide Decode, Frame, Encode, DecodeAll;
    var m, h1 := msgs[0], Next(h, FrameLen(msgs[0]));
    var tail := EncodeAll(s, h1, msgs[1..], max) + rest;
    assert EncodeAll(s, h, msgs, max) + rest == Encode(s, h, m.payload, m.padding) + tail;
    FrameLength(m.payload, m.padding);
    RoundTrip(s, h, m.payload, m.padding, tail, max);
    DecodeAllStep(s, h, EncodeAll(s, h, msgs, max) + rest, |msgs|, max, Received(m.payload, tail, h1));
  }

  lemma {:induction false} DecodeAllStep(s: Suite, h: Half, input: Bytes, count: nat, max: nat, r: Received)
    requires count > 0 && Decode(s, h, input, max) == Some(r)
    ensures var d := DecodeAll(s, r.half, r.rest, count - 1, max);
      DecodeAll(s, h, input, count, max)
        == if d.Some? then Some(Drained([r.payload] + d.value.payloads, d.value.rest, d.value.half)) else None
  {
  }

  // ----- runs that grow at the end -----

  /** A run of packets and one more, sent in the state that the run has reached, make a run. */
  ghost predicate Grows(s: Suite, h: Half, msgs: seq<Outgoing>, m: Outgoing, max: nat) {
    && AllSendable(h, msgs, max) && AllSendable(h, msgs + [m], max)
    && Sendable(After(h, msgs), m.payload, m.padding)
    && EncodeAll(s, h, msgs + [m], max) == EncodeAll(s, h, msgs, max) + Encode(s, After(h, msgs), m.payload, m.padding)
    && After(h, msgs + [m]) == Next(After(h, msgs), FrameLen(m))
  }

  lemma {:induction false} RunGrows(s: Suite, h: Half, msgs: seq<Outgoing>, m: Outgoing, max: nat)
    requires AllSendable(h, msgs, max)
    requires Sendable(After(h, msgs), m.payload, m.padding) && |m.payload| <= max
    ensures Grows(s, h, msgs, m, max)
    decreases |msgs|
  {
    if msgs == [] {
      assert msgs + [m] == [m] && [m][1..] == [];
      assert EncodeAll(s, h, [m], max) == Encode(s, h, m.payload, m.padding) + EncodeAll(s, Next(h, FrameLen(m)), [], max);
    } else {
      RunGrows(s, Next(h, FrameLen(msgs[0])), msgs[1..], m, max);
      GrowsBehind(s, h, msgs, m, max);
    }
  }

  lemma {:induction false} GrowsBehind(s: Suite, h: Half, msgs: seq<Outgoing>, m: Outgoing, max: nat)
    requires msgs != [] && AllSendable(h, msgs, max)
    requires Grows(s, Next(h, FrameLen(msgs[0])), msgs[1..], m, max)
    ensures Grows(s, h, msgs, m, max)
  {
    assert (msgs + [m])[0] == msgs[0] && (msgs + [m])[1..] == msgs[1..] + [m];
    assert AllSendable(h, msgs + [m], max);
  }

  /** The receiver of a run takes its first packet. */
  lemma {:induction false} RunShrinks(s: Suite, h: Half, msgs: seq<Outgoing>, max: nat)
    requires msgs != [] && AllSendable(h, msgs, max)
    ensures var h1 := Next(h, FrameLen(msgs[0]));
      Decode(s, h, EncodeAll(s, h, msgs, max), max)
        == Some(Received(msgs[0].payload, EncodeAll(s, h1, msgs[1..], max), h1))
  {
    FrameLength(msgs[0].payload, msgs[0].padding);
    RoundTrip(s, h, msgs[0].payload, msgs[0].padding, EncodeAll(s, Next(h, FrameLen(msgs[0])), msgs[1..], max), max);
  }

  // ----- key stream use -----

  function BlocksOf(msgs: seq<Outgoing>): nat {
    if msgs == [] then 0 else Blocks(FrameLen(msgs[0])) + BlocksOf(msgs[1..])
  }

  lemma {:induction false} CounterAfter(h: Half, msgs: seq<Outgoing>)
    requires h.encrypted
    ensures After(h, msgs).counter == CtrAdd(h.counter, BlocksOf(msgs))
    decreases |msgs|
  {
    if msgs == [] {
      AdvanceZero(h.counter);
    } else {
      var n := Blocks(FrameLen(msgs[0]));
      CounterAfter(Next(h, FrameLen(msgs[0])), msgs[1..]);
      AdvanceAdvance(h.counter, n, BlocksOf(msgs[1..]));
    }
  }

  lemma {:induction false} BlocksOfSplit(msgs: seq<Outgoing>, i: nat)
    requires i < |msgs|
    ensures BlocksOf(msgs[..i]) + Blocks(FrameLen(msgs[i])) + BlocksOf(msgs[i + 1..]) == BlocksOf(msgs)
    decreases |msgs|
  {
    if i > 0 {
      BlocksOfSplit(msgs[1..], i - 1);
      assert msgs[1..][..i - 1] == msgs[..i][1..] && msgs[1..][i - 1 + 1..] == msgs[i + 1..];
    }
  }

  lemma {:induction false} BlocksOfPrefix(msgs: seq<Outgoing>, i: nat, j: nat)
    requires i < j <= |msgs|
    ensures BlocksOf(msgs[..i]) + Blocks(FrameLen(msgs[i])) <= BlocksOf(msgs[..j]) <= BlocksOf(msgs)
  {
    BlocksOfSplit(msgs[..j], i);
    assert msgs[..j][..i] == msgs[..i];
    if j < |msgs| {
      BlocksOfSplit(msgs, j);
    } else {
      assert msgs[..j] == msgs;
    }
  }

  /** As long as a run uses fewer than 2^128 blocks, no two of its packets share a counter value. */
  lemma {:induction false} CountersDisjoint(h: Half, msgs: seq<Outgoing>, i: nat, j: nat, a: nat, b: nat)
    requires h.encrypted && BlocksOf(msgs) < Pow256(16)
    requires i < j < |msgs|
    requires a < Blocks(FrameLen(msgs[i])) && b < Blocks(FrameLen(msgs[j]))
    ensures CtrAdd(After(h, msgs[..i]).counter, a) != CtrAdd(After(h, msgs[..j]).counter, b)
  {
    BlocksOfPrefix(msgs, i, j);
    BlocksOfSplit(msgs, j);
    CounterAfter(h, msgs[..i]);
    CounterAfter(h, msgs[..j]);
    DistinctBlocks(h.counter, BlocksOf(msgs[..i]), a, BlocksOf(msgs[..j]), b);
  }

  lemma {:induction false} DistinctBlocks(c: Bytes, m: nat, a: nat, n: nat, b: nat)
    requires m + a < n && n + b < Pow256(|c|)
    ensures Advance(Advance(c, m), a) != Advance(Advance(c, n), b)
  {
    AdvanceAdvance(c, m, a);
    AdvanceAdvance(c, n, b);
    if Advance(c, m + a) == Advance(c, n + b) {
      AdvanceInjective(c, m + a, n + b);
    }
  }

  /** What a run puts on the wire: frames and MACs. */
  function BytesOf(msgs: seq<Outgoing>): nat {
    if msgs == [] then 0 else FrameLen(msgs[0]) + MAC_LEN + BytesOf(msgs[1..])
  }

  lemma {:induction false} BlocksBelowBytes(msgs: seq<Outgoing>)
    ensures 16 * BlocksOf(msgs) <= BytesOf(msgs)
  {
    if msgs != [] {
      BlocksBelowBytes(msgs[1..]);
    }
  }

  lemma {:induction false} WordFits(k: nat)
    requires k >= 4
    ensures 0x1_0000_0000 <= Pow256(k)
  {
    Pow256Add(k - 4, 4);
    assert Pow256(4) == 0x1_0000_0000;
    MulMono(1, Pow256(k - 4), 0x1_0000_0000);
  }

  /** A direction that carries fewer than 2^32 bytes never uses a counter value for two packets. */
  lemma {:induction false} CountersDisjointInBytes(h: Half, msgs: seq<Outgoing>, i: nat, j: nat, a: nat, b: nat)
    requires h.encrypted && BytesOf(msgs) < 0x1_0000_0000
    requires i < j < |msgs|
    requires a < Blocks(FrameLen(msgs[i])) && b < Blocks(FrameLen(msgs[j]))
    ensures CtrAdd(After(h, msgs[..i]).counter, a) != CtrAdd(After(h, msgs[..j]).counter, b)
  {
    BlocksBelowBytes(msgs);
    WordFits(|h.counter|);
    CountersDisjoint(h, msgs, i, j, a, b);
  }
}
