/** The packets of both modes byte by byte: what is sent, exactly what is accepted, and what the MAC covers. */
module PacketBytes {
  import opened Octets
  import opened Wrappers
  import opened Cipher
  import opened Wire
  import opened Packet

  /** What may be sent: the packet fills whole blocks of 8 or 16 bytes with the least padding of four bytes or more. */
  lemma {:induction false} SendableExactly(h: Half, payload: Bytes, padding: Bytes)
    ensures Sendable(h, payload, padding) <==>
      var block := if h.encrypted then 16 else 8;
      && payload != [] && 1 + |payload| + |padding| <= 35000
      && (5 + |payload| + |padding|) % block == 0 && 4 <= |padding| < 4 + block
  {
    var block := BlockSize(h);
    if 4 <= |padding| < 4 + block && Aligned(|payload|, |padding|, block) {
      OnePadding(|payload|, |padding|, PadLen(|payload|, block), block);
    }
  }

  lemma {:induction false} OnePadding(len: nat, a: nat, b: nat, block: nat)
    requires block == 8 || block == 16
    requires Aligned(len, a, block) && Aligned(len, b, block) && 4 <= a < 4 + block && 4 <= b < 4 + block
    ensures a == b
  {
    if block == 8 {
      Residue8(5 + len, a, b);
    } else {
      Residue16(5 + len, a, b);
    }
  }

  lemma Residue8(n: nat, a: nat, b: nat)
    requires (n + a) % 8 == (n + b) % 8 && a < b + 8 && b < a + 8
    ensures a == b
  {
  }

  lemma Residue16(n: nat, a: nat, b: nat)
    requires (n + a) % 16 == (n + b) % 16 && a < b + 16 && b < a + 16
    ensures a == b
  {
  }

  /** Length, padding length, payload, padding; encrypted, the same under the key stream, and a MAC over the number and all of it. */
  lemma {:induction false} EncodeWritten(s: Suite, h: Half, payload: Bytes, padding: Bytes)
    requires Sendable(h, payload, padding)
    ensures var f := U32(1 + |payload| + |padding|) + [|padding|] + payload + padding;
      Encode(s, h, payload, padding)
        == if h.encrypted then Ctr(s, h.key, f, h.counter) + s.hmac(h.macKey, U32(h.seqNo) + f) else f
  {
  }

  // ----- exactly what is accepted -----

  /** The state behind a packet of n bytes: whole blocks of the key stream are used up, and the number wraps at 32 bits. */
  function Behind(h: Half, n: nat): Half {
    h.(counter := if h.encrypted then CtrAdd(h.counter, (n + 15) / 16) else h.counter, seqNo := (h.seqNo + 1) % 0x1_0000_0000)
  }

  /** The bytes start with this packet: a frame of the right sizes, and in the encrypted mode its MAC. */
  ghost predicate StartsWith(s: Suite, h: Half, input: Bytes, max: nat, r: Received, padding: Bytes) {
    && 4 <= |padding| < 256 && |r.payload| <= max && 1 + |r.payload| + |padding| <= 35000
    && var f := U32(1 + |r.payload| + |padding|) + [|padding|] + r.payload + padding;
    && r.half == Behind(h, |f|)
    && if h.encrypted then
         && 16 <= |f| && |f| + 32 <= |input| && Ctr(s, h.key, input[..|f|], h.counter) == f
         && input[|f|..|f| + 32] == s.hmac(h.macKey, U32(h.seqNo) + f) && r.rest == input[|f| + 32..]
       else
         input == f + r.rest
  }

  /** A frame that opens is its length, padding length, payload and padding. */
  lemma {:induction false} OpenMeans(f: Bytes, max: nat) returns (padding: Bytes)
    requires 9 <= |f| <= 35004 && U32At(f, 0) == |f| - 4 && Open(f, max).Some?
    ensures var payload := Open(f, max).value;
      && 4 <= |padding| < 256 && |payload| <= max && |f| == 5 + |payload| + |padding|
      && f == U32(1 + |payload| + |padding|) + [|padding|] + payload + padding
  {
    var payload := Open(f, max).value;
    padding := f[5 + |payload|..];
    var w := f[0..4];
    ToBytesOfValue(w);
    assert f == f[0..4] + [f[4]] + f[5..5 + |payload|] + f[5 + |payload|..];
  }

  lemma {:induction false} PlainMeans(s: Suite, h: Half, input: Bytes, max: nat, r: Received) returns (padding: Bytes)
    requires !h.encrypted && DecodePlain(h, input, max) == Some(r)
    ensures StartsWith(s, h, input, max, r, padding)
  {
    hide Open, Ctr;
    var n := 4 + U32At(input, 0);
    assert input[..n][0..4] == input[0..4];
    padding := OpenMeans(input[..n], max);
    assert input == input[..n] + input[n..];
  }

  lemma {:induction false} PlainStarts(s: Suite, h: Half, input: Bytes, max: nat, r: Received, padding: Bytes)
    requires !h.encrypted && StartsWith(s, h, input, max, r, padding)
    ensures DecodePlain(h, input, max) == Some(r)
  {
    var f := U32(1 + |r.payload| + |padding|) + [|padding|] + r.payload + padding;
    assert f == Frame(r.payload, padding);
    FrameLength(r.payload, padding);
    assert input[0..4] == f[0..4];
    assert input[..|f|] == f && input[|f|..] == r.rest;
    OpenOfFrame(r.payload, padding, max);
  }

  /** Deciphering the first block and the rest in turn is deciphering the whole. */
  lemma {:induction false} WholeFrame(s: Suite, h: Half, input: Bytes, n: nat)
    requires 16 <= n <= |input|
    ensures var f := Ctr(s, h.key, input[..n], h.counter);
      && f == Ctr(s, h.key, input[..16], h.counter) + Ctr(s, h.key, input[16..][..n - 16], CtrAdd(h.counter, 1))
      && f[..16] == Ctr(s, h.key, input[..16], h.counter)
  {
    CtrSplit(s, h.key, input[..n], h.counter, 1);
    assert input[..n][..16] == input[..16] && input[..n][16..] == input[16..][..n - 16];
  }

  lemma BehindFirstBlock(input: Bytes, n: nat)
    requires 16 <= n && n + 32 <= |input|
    ensures input[16..][n - 16..n + 16] == input[n..n + 32] && input[16..][n + 16..] == input[n + 32..]
  {
  }

  /** What an encrypted packet is checked for, on its whole plain frame. */
  lemma {:induction false} SealedFrame(s: Suite, h: Half, input: Bytes, max: nat, n: nat)
    requires h.encrypted && 16 <= |input| && n == 4 + U32At(Ctr(s, h.key, input[..16], h.counter), 0)
    ensures DecodeEncrypted(s, h, input, max)
         == if !LengthOk(n - 4) || n < 16 || |input| < n + 32 then None
            else
              var f := Ctr(s, h.key, input[..n], h.counter);
              if s.hmac(h.macKey, U32(h.seqNo) + f) != input[n..n + 32] || Open(f, max).None? then None
              else Some(Received(Open(f, max).value, input[n + 32..], Behind(h, n)))
    ensures n >= 16 && |input| >= n ==> U32At(Ctr(s, h.key, input[..n], h.counter), 0) == n - 4
  {
    hide Ctr, Open, Advance, U32;
    if 16 <= n <= |input| {
      var f, first := Ctr(s, h.key, input[..n], h.counter), Ctr(s, h.key, input[..16], h.counter);
      WholeFrame(s, h, input, n);
      assert f[0..4] == f[..16][0..4] == first[0..4];
      if n + 32 <= |input| {
        BehindFirstBlock(input, n);
        AdvanceAdvance(h.counter, 1, Blocks(n - 16));
        assert 1 + Blocks(n - 16) == Blocks(n);
      }
    }
  }

  lemma {:induction false} SealedMeans(s: Suite, h: Half, input: Bytes, max: nat, r: Received) returns (padding: Bytes)
    requires h.encrypted && DecodeEncrypted(s, h, input, max) == Some(r)
    ensures StartsWith(s, h, input, max, r, padding)
  {
    hide DecodeEncrypted, Ctr, Open, U32, Behind;
    assert |input| >= 16 by { TooShort(s, h, input, max); }
    var n := 4 + U32At(Ctr(s, h.key, input[..16], h.counter), 0);
    SealedFrame(s, h, input, max, n);
    padding := OpenMeans(Ctr(s, h.key, input[..n], h.counter), max);
  }

  lemma TooShort(s: Suite, h: Half, input: Bytes, max: nat)
    ensures |input| < 16 ==> DecodeEncrypted(s, h, input, max) == None
  {
    hide DecodeRest;
  }

  lemma {:induction false} SealedStarts(s: Suite, h: Half, input: Bytes, max: nat, r: Received, padding: Bytes)
    requires h.encrypted && StartsWith(s, h, input, max, r, padding)
    ensures DecodeEncrypted(s, h, input, max) == Some(r)
  {
    hide DecodeEncrypted, Ctr, Open, Behind;
    var f := U32(1 + |r.payload| + |padding|) + [|padding|] + r.payload + padding;
    assert f == Frame(r.payload, padding);
    FrameLength(r.payload, padding);
    OpenOfFrame(r.payload, padding, max);
    WholeFrame(s, h, input, |f|);
    assert f[..16][0..4] == f[0..4];
    SealedFrame(s, h, input, max, |f|);
  }

  /** On any bytes, in either mode: a packet is taken exactly when the bytes start with it. */
  lemma {:induction false} DecodeExactly(s: Suite, h: Half, input: Bytes, max: nat, r: Received)
    ensures Decode(s, h, input, max) == Some(r) <==> exists padding :: StartsWith(s, h, input, max, r, padding)
  {
    hide StartsWith, DecodePlain, DecodeEncrypted;
    if Decode(s, h, input, max) == Some(r) {
      var padding;
      if h.encrypted {
        padding := SealedMeans(s, h, input, max, r);
      } else {
        padding := PlainMeans(s, h, input, max, r);
      }
    }
    if padding :| StartsWith(s, h, input, max, r, padding) {
      if h.encrypted {
        SealedStarts(s, h, input, max, r, padding);
      } else {
        PlainStarts(s, h, input, max, r, padding);
      }
    }
  }

  // ----- the sequence number -----

  /**
   * A packet sealed under one number and opened under another, all else being right: it is taken exactly when the MACs over
   * the two numbers and the same packet are the same.
   */
  lemma {:induction false} WrongNumber(s: Suite, h: Half, m: uint32, payload: Bytes, padding: Bytes, rest: Bytes, max: nat)
    requires h.encrypted && Sendable(h, payload, padding) && |payload| <= max
    ensures var f := U32(1 + |payload| + |padding|) + [|padding|] + payload + padding;
      Decode(s, h.(seqNo := m), Encode(s, h, payload, padding) + rest, max).Some? <==>
        s.hmac(h.macKey, U32(h.seqNo) + f) == s.hmac(h.macKey, U32(m) + f)
  {
    hide DecodeEncrypted, Ctr, Open, Sendable, Behind;
    SendableExactly(h, payload, padding);
    var f := U32(1 + |payload| + |padding|) + [|padding|] + payload + padding;
    var k, input := h.(seqNo := m), Encode(s, h, payload, padding) + rest;
    EncodeWritten(s, h, payload, padding);
    assert f == Frame(payload, padding);
    FrameLength(payload, padding);
    OpenOfFrame(payload, padding, max);
    var enc := Ctr(s, h.key, f, h.counter);
    assert input[..|f|] == enc && input[|f|..|f| + 32] == s.hmac(h.macKey, U32(h.seqNo) + f);
    CtrTwice(s, h.key, f, h.counter);
    LongEnough(|payload|);
    WholeFrame(s, k, input, |f|);
    assert f[..16][0..4] == f[0..4];
    SealedFrame(s, k, input, max, |f|);
  }
}
