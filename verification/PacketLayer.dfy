/**
 * send_packet and recv_packet as both sides have them, over a transport that moves as many bytes per call as it likes.
 * The client's and the server's copies differ only in which derived keys serve which direction.
 */
module PacketLayer {
  import opened Octets
  import opened Wrappers
  import opened Cipher
  import opened Wire
  import opened Packet
  import opened Transport
  import opened Mpint
  import KeyExchange

  lemma BlocksBehindFirst(n: nat)
    ensures Blocks(16 + n) == Blocks(n) + 1 && Blocks(n) <= n
  {
  }

  class Endpoint {
    const suite: Suite
    var keyExchangeComplete: bool
    var outKey: Block
    var outMacKey: Digest
    var inKey: Block
    var inMacKey: Digest
    const outCounter: array<byte>
    const inCounter: array<byte>
    var sendSeq: uint32
    var recvSeq: uint32
    var encryptedBytesSent: nat

    ghost predicate Valid()
    {
      outCounter.Length == 16 && inCounter.Length == 16 && outCounter != inCounter
    }

    ghost function Out(): Half
      requires Valid()
      reads this, outCounter
    {
      Half(keyExchangeComplete, outKey, outMacKey, outCounter[..], sendSeq)
    }

    ghost function In(): Half
      requires Valid()
      reads this, inCounter
    {
      Half(keyExchangeComplete, inKey, inMacKey, inCounter[..], recvSeq)
    }

    constructor (suite: Suite)
      ensures Valid() && fresh(outCounter) && fresh(inCounter)
      ensures this.suite == suite && !keyExchangeComplete && sendSeq == 0 && recvSeq == 0 && encryptedBytesSent == 0
    {
      this.suite := suite;
      keyExchangeComplete, sendSeq, recvSeq, encryptedBytesSent := false, 0, 0, 0;
      outKey, inKey := seq(16, i => 0), seq(16, i => 0);
      outMacKey, inMacKey := seq(32, i => 0), seq(32, i => 0);
      outCounter := new byte[16](i => 0);
      inCounter := new byte[16](i => 0);
    }

    /** derive_key_block into a buffer of its own. */
    method DeriveBlock(secret: Digest, sessionId: Bytes, selector: byte, len: nat) returns (ok: bool, key: Bytes)
      requires |sessionId| <= 32 && 0 < len <= 32
      ensures ok <==> sessionId != []
      ensures ok ==> key == KeyExchange.Key(suite, secret, sessionId, selector, len)
      ensures ok ==> key == suite.sha(EncodeMpint(secret) + sessionId + [selector] + sessionId)[..len]
    {
      hide EncodeMpint, KeyExchange.Key;
      KeyExchange.ShortKey(suite, secret, sessionId, selector, len);
      var out := new byte[len];
      ok := KeyExchange.DeriveKeyBlock(suite, secret, sessionId, selector, out);
      key := out[..];
    }

    /**
     * derive_transport_keys and the flag: the six values are derived from the secret and the session id, and both directions
     * switch to encryption at once, with their counters at the IVs. Sequence numbers run on. The client sends under A, C and E,
     * the server under B, D and F.
     */
    method SwitchOn(secret: Digest, sessionId: Bytes, client: bool) returns (ok: bool)
      requires Valid() && (sessionId == [] || |sessionId| == 32)
      modifies this, outCounter, inCounter
      ensures ok <==> sessionId != []
      ensures ok ==> var k := KeyExchange.Keys(suite, secret, sessionId);
        && Out() == (if client then Half(true, k.c2sKey, k.c2sMac, k.c2sIv, old(sendSeq))
                     else Half(true, k.s2cKey, k.s2cMac, k.s2cIv, old(sendSeq)))
        && In() == (if client then Half(true, k.s2cKey, k.s2cMac, k.s2cIv, old(recvSeq))
                    else Half(true, k.c2sKey, k.c2sMac, k.c2sIv, old(recvSeq)))
      ensures ok ==> var pre, out, inp := EncodeMpint(secret) + sessionId, Out(), In();
        && out.encrypted && inp.encrypted && out.seqNo == old(sendSeq) && inp.seqNo == old(recvSeq)
        && out.counter == suite.sha(pre + [if client then 65 else 66] + sessionId)[..16]
        && inp.counter == suite.sha(pre + [if client then 66 else 65] + sessionId)[..16]
        && out.key == suite.sha(pre + [if client then 67 else 68] + sessionId)[..16]
        && inp.key == suite.sha(pre + [if client then 68 else 67] + sessionId)[..16]
        && out.macKey == suite.sha(pre + [if client then 69 else 70] + sessionId)
        && inp.macKey == suite.sha(pre + [if client then 70 else 69] + sessionId)
      ensures !ok ==> Out() == old(Out()) && In() == old(In())
      ensures encryptedBytesSent == old(encryptedBytesSent)
    {
      hide EncodeMpint;
      var okA, okB, okC, okD, okE, okF, c2sIv, s2cIv, c2sKey, s2cKey, c2sMac, s2cMac;
      okA, c2sIv := DeriveBlock(secret, sessionId, 65, 16);
      okB, s2cIv := DeriveBlock(secret, sessionId, 66, 16);
      okC, c2sKey := DeriveBlock(secret, sessionId, 67, 16);
      okD, s2cKey := DeriveBlock(secret, sessionId, 68, 16);
      okE, c2sMac := DeriveBlock(secret, sessionId, 69, 32);
      okF, s2cMac := DeriveBlock(secret, sessionId, 70, 32);
      ok := okA && okB && okC && okD && okE && okF;
      if ok {
        if client {
          Install(c2sIv, s2cIv, c2sKey, s2cKey, c2sMac, s2cMac);
        } else {
          Install(s2cIv, c2sIv, s2cKey, c2sKey, s2cMac, c2sMac);
        }
      }
    }

    method Install(outIv: Block, inIv: Block, outKey: Block, inKey: Block, outMacKey: Digest, inMacKey: Digest)
      requires Valid()
      modifies this, outCounter, inCounter
      ensures Out() == Half(true, outKey, outMacKey, outIv, old(sendSeq))
      ensures In() == Half(true, inKey, inMacKey, inIv, old(recvSeq))
      ensures encryptedBytesSent == old(encryptedBytesSent)
    {
      this.outKey, this.inKey, this.outMacKey, this.inMacKey := outKey, inKey, outMacKey, inMacKey;
      Fill(outCounter, outIv);
      Fill(inCounter, inIv);
      keyExchangeComplete := true;
    }

    static method Fill(counter: array<byte>, iv: Block)
      requires counter.Length == 16
      modifies counter
      ensures counter[..] == iv
    {
      forall i | 0 <= i < 16 {
        counter[i] := iv[i];
      }
    }

    /** `random` is what the generator delivers for the padding. */
    method SendPacket(pipe: Pipe, payload: Bytes, random: Bytes) returns (ok: bool)
      requires Valid() && |random| == PadLen(|payload|, BlockSize(Out()))
      modifies this, outCounter, pipe
      ensures keyExchangeComplete == old(keyExchangeComplete) && In() == old(In())
      ensures ok ==> Sendable(old(Out()), payload, random)
      ensures ok ==> pipe.bytes == old(pipe.bytes) + Encode(suite, old(Out()), payload, random)
      ensures ok ==> 1 + |payload| + |random| <= 35000 && |random| < 256
      ensures ok ==> var f := U32(1 + |payload| + |random|) + [|random|] + payload + random;
        pipe.bytes == old(pipe.bytes) +
          if keyExchangeComplete then
            Ctr(suite, old(outKey), f, old(outCounter[..])) + suite.hmac(old(outMacKey), U32(old(sendSeq)) + f)
          else f
      ensures ok ==> Out() == Next(old(Out()), 5 + |payload| + |random|)
      ensures ok && keyExchangeComplete ==>
        encryptedBytesSent == old(encryptedBytesSent) + 5 + |payload| + |random| + MAC_LEN
      ensures !ok ==> sendSeq == old(sendSeq)
      ensures !Sendable(old(Out()), payload, random) ==> pipe.bytes == old(pipe.bytes) && Out() == old(Out())
      ensures Sendable(old(Out()), payload, random) && Lasts(old(pipe.sendPlan), 5 + |payload| + |random| + MAC_LEN) ==> ok
      ensures pipe.recvPlan == old(pipe.recvPlan)
      ensures ok ==> Keeps(old(pipe.sendPlan), pipe.sendPlan, 5 + |payload| + |random| + MAC_LEN)
    {
      hide Ctr, PadLen, Keeps, Lasts, ToBytes, Advance;
      if |payload| == 0 {
        return false;
      }
      var pad := ComputePadding(|payload|, if keyExchangeComplete then 16 else 8);
      var packetLen := 1 + |payload| + pad;
      if packetLen > MAX_PACKET_LEN {
        return false;
      }
      FrameLength(payload, random);
      var plain := U32(packetLen) + [pad] + payload + random;
      if keyExchangeComplete {
        ok := SendSealed(pipe, plain);
      } else {
        ghost var plan := pipe.sendPlan;
        ok := pipe.SendAll(plain);
        KeepsMore(plan, pipe.sendPlan, |plain|, |plain| + MAC_LEN);
      }
      if ok {
        sendSeq := Wrap32(sendSeq + 1);
      }
    }

    /** The encrypted branch: MAC over sequence number and plain packet, then encryption, then the counter moves on. */
    method SendSealed(pipe: Pipe, plain: Bytes) returns (ok: bool)
      requires Valid() && keyExchangeComplete && |plain| <= 4 + MAX_PACKET_LEN
      modifies this`encryptedBytesSent, outCounter, pipe
      ensures ok ==>
        pipe.bytes == old(pipe.bytes) + (Ctr(suite, outKey, plain, old(outCounter[..])) + suite.hmac(outMacKey, U32(sendSeq) + plain))
      ensures outCounter[..] == CtrAdd(old(outCounter[..]), Blocks(|plain|))
      ensures ok ==> encryptedBytesSent == old(encryptedBytesSent) + |plain| + MAC_LEN
      ensures Lasts(old(pipe.sendPlan), |plain| + MAC_LEN) ==> ok
      ensures pipe.recvPlan == old(pipe.recvPlan)
      ensures ok ==> Keeps(old(pipe.sendPlan), pipe.sendPlan, |plain| + MAC_LEN)
    {
      hide Ctr, CtrAdd, Keeps, Lasts, U32;
      var mac := suite.hmac(outMacKey, U32(sendSeq) + plain);
      var enc := Ctr(suite, outKey, plain, outCounter[..]);
      CtrIncrementBlocks(outCounter, Blocks(|plain|));
      ok := SendTwo(pipe, enc, mac);
      if ok {
        encryptedBytesSent := encryptedBytesSent + |plain| + MAC_LEN;
      }
    }

    method SendTwo(pipe: Pipe, first: Bytes, second: Bytes) returns (ok: bool)
      modifies pipe
      ensures ok ==> pipe.bytes == old(pipe.bytes) + (first + second)
      ensures Lasts(old(pipe.sendPlan), |first| + |second|) ==> ok
      ensures pipe.recvPlan == old(pipe.recvPlan)
      ensures ok ==> Keeps(old(pipe.sendPlan), pipe.sendPlan, |first| + |second|)
    {
      ghost var plan, start := pipe.sendPlan, pipe.bytes;
      ok := pipe.SendAll(first);
      ghost var between := pipe.sendPlan;
      if ok {
        ok := pipe.SendAll(second);
        assert start + first + second == start + (first + second);
      }
      if ok {
        KeepsBoth(plan, between, pipe.sendPlan, |first|, |second|);
      }
    }

    /** On success, exactly what Decode says; and it succeeds whenever Decode does and the callbacks keep delivering. */
    method RecvPacket(pipe: Pipe, max: nat) returns (payload: Option<Bytes>)
      requires Valid()
      modifies this`recvSeq, inCounter, pipe
      ensures Out() == old(Out())
      ensures payload.Some? ==>
        Decode(suite, old(In()), old(pipe.bytes), max) == Some(Received(payload.value, pipe.bytes, In()))
      ensures payload.None? && Generous(old(pipe.recvPlan), old(pipe.bytes)) ==>
        Decode(suite, old(In()), old(pipe.bytes), max) == None
      ensures payload.Some? ==> Keeps(old(pipe.recvPlan), pipe.recvPlan, |old(pipe.bytes)| - |pipe.bytes|)
      ensures pipe.sendPlan == old(pipe.sendPlan)
    {
      hide DecodePlain, DecodeEncrypted, Keeps, Lasts, Generous;
      if keyExchangeComplete {
        payload := RecvSealed(pipe, max);
      } else {
        payload := RecvPlain(pipe, max);
      }
      if payload.Some? {
        recvSeq := Wrap32(recvSeq + 1);
      }
    }

    method RecvPlain(pipe: Pipe, max: nat) returns (payload: Option<Bytes>)
      requires Valid() && !keyExchangeComplete
      modifies pipe
      ensures payload.Some? ==>
        DecodePlain(In(), old(pipe.bytes), max) == Some(Received(payload.value, pipe.bytes, Next(In(), 0)))
      ensures payload.None? && Generous(old(pipe.recvPlan), old(pipe.bytes)) ==>
        DecodePlain(In(), old(pipe.bytes), max) == None
      ensures payload.Some? ==> Keeps(old(pipe.recvPlan), pipe.recvPlan, |old(pipe.bytes)| - |pipe.bytes|)
      ensures pipe.sendPlan == old(pipe.sendPlan)
    {
      ghost var input, plan := pipe.bytes, pipe.recvPlan;
      var ok, lenBuf := pipe.RecvExact(4);
      if !ok {
        return None;
      }
      assert lenBuf[0..4] == input[0..4];
      var packetLen := U32At(lenBuf, 0);
      if !LengthOk(packetLen) {
        return None;
      }
      var packet;
      ghost var between := pipe.recvPlan;
      ok, packet := pipe.RecvExact(packetLen);
      if !ok {
        return None;
      }
      KeepsBoth(plan, between, pipe.recvPlan, 4, packetLen);
      assert lenBuf + packet == input[..4 + packetLen];
      assert pipe.bytes == input[4 + packetLen..];
      payload := Open(lenBuf + packet, max);
    }

    /** The encrypted branch reads one block, learns the length from it, and reads on. */
    method RecvSealed(pipe: Pipe, max: nat) returns (payload: Option<Bytes>)
      requires Valid() && keyExchangeComplete
      modifies inCounter, pipe
      ensures payload.Some? ==>
        DecodeEncrypted(suite, old(In()), old(pipe.bytes), max) == Some(Received(payload.value, pipe.bytes, InNext()))
      ensures payload.None? && Generous(old(pipe.recvPlan), old(pipe.bytes)) ==>
        DecodeEncrypted(suite, old(In()), old(pipe.bytes), max) == None
      ensures payload.Some? ==> Keeps(old(pipe.recvPlan), pipe.recvPlan, |old(pipe.bytes)| - |pipe.bytes|)
      ensures pipe.sendPlan == old(pipe.sendPlan)
    {
      ghost var plan := pipe.recvPlan;
      var ok, enc := pipe.RecvExact(16);
      if !ok {
        return None;
      }
      var first := Ctr(suite, inKey, enc, inCounter[..]);
      CtrIncrementBlocks(inCounter, 1);
      var packetLen := U32At(first, 0);
      if !LengthOk(packetLen) || 4 + packetLen < 16 {
        return None;
      }
      ghost var between, left := pipe.recvPlan, |pipe.bytes|;
      payload := RecvRest(pipe, first, packetLen - 12, max);
      if payload.Some? {
        KeepsBoth(plan, between, pipe.recvPlan, 16, left - |pipe.bytes|);
      }
    }

    ghost function InNext(): Half
      requires Valid()
      reads this, inCounter
    {
      In().(seqNo := Wrap32(recvSeq + 1))
    }

    /** The rest of the packet and its MAC. */
    method RecvRest(pipe: Pipe, first: Block, m: nat, max: nat) returns (payload: Option<Bytes>)
      requires Valid() && keyExchangeComplete && m <= MAX_PACKET_LEN
      modifies inCounter, pipe
      ensures payload.Some? ==> DecodeRest(suite, old(In()), first, m, old(pipe.bytes), max)
                                == Some(Received(payload.value, pipe.bytes, InNext()))
      ensures payload.None? && Generous(old(pipe.recvPlan), old(pipe.bytes)) ==>
        DecodeRest(suite, old(In()), first, m, old(pipe.bytes), max) == None
      ensures payload.Some? ==> Keeps(old(pipe.recvPlan), pipe.recvPlan, |old(pipe.bytes)| - |pipe.bytes|)
      ensures pipe.sendPlan == old(pipe.sendPlan)
    {
      var ok, rest, mac := RecvTwo(pipe, m);
      if !ok {
        return None;
      }
      payload := Unseal(first, rest, mac, max);
    }

    /** Decrypts the rest, moves the counter on, and compares the MAC over the whole packet. */
    method Unseal(first: Block, rest: Bytes, mac: Bytes, max: nat) returns (payload: Option<Bytes>)
      requires Valid() && keyExchangeComplete && |rest| <= MAX_PACKET_LEN
      modifies inCounter
      ensures InNext() == Next(old(In()), |rest|)
      ensures var frame := first + Ctr(suite, inKey, rest, old(inCounter[..]));
        payload == if suite.hmac(inMacKey, U32(recvSeq) + frame) == mac then Open(frame, max) else None
    {
      hide Open, Ctr, Advance, Blocks, U32;
      var plain := Decipher(first, rest);
      if suite.hmac(inMacKey, U32(recvSeq) + plain) != mac {
        return None;
      }
      payload := Open(plain, max);
    }

    method Decipher(first: Block, rest: Bytes) returns (plain: Bytes)
      requires Valid() && keyExchangeComplete && |rest| <= MAX_PACKET_LEN
      modifies inCounter
      ensures plain == first + Ctr(suite, inKey, rest, old(inCounter[..]))
      ensures inCounter[..] == CtrAdd(old(inCounter[..]), Blocks(|rest|))
    {
      hide Ctr, Advance, Blocks;
      plain := first + Ctr(suite, inKey, rest, inCounter[..]);
      BlocksBehindFirst(|rest|);
      CtrIncrementBlocks(inCounter, Blocks(16 + |rest|) - 1);
    }

    method RecvTwo(pipe: Pipe, m: nat) returns (ok: bool, rest: Bytes, mac: Bytes)
      modifies pipe
      ensures ok ==> |old(pipe.bytes)| >= m + MAC_LEN && rest == old(pipe.bytes)[..m]
      ensures ok ==> mac == old(pipe.bytes)[m..m + MAC_LEN] && pipe.bytes == old(pipe.bytes)[m + MAC_LEN..]
      ensures !ok && Generous(old(pipe.recvPlan), old(pipe.bytes)) ==> |old(pipe.bytes)| < m + MAC_LEN
      ensures ok ==> Keeps(old(pipe.recvPlan), pipe.recvPlan, m + MAC_LEN)
      ensures pipe.sendPlan == old(pipe.sendPlan)
    {
      mac := [];
      ghost var plan := pipe.recvPlan;
      ok, rest := pipe.RecvExact(m);
      ghost var between := pipe.recvPlan;
      if ok {
        ok, mac := pipe.RecvExact(MAC_LEN);
      }
      if ok {
        KeepsBoth(plan, between, pipe.recvPlan, m, MAC_LEN);
      }
    }
  }
}
