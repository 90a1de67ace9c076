/**
 * What the two programs accept in the key exchange, byte by byte; and that no server, whatever it does, brings the client
 * past the exchange without a signature that verifies under the host key it presents.
 */
module HostAuthentication {
  import opened Octets
  import opened Wrappers
  import opened Cipher
  import opened Wire
  import opened Mpint
  import opened Packet
  import opened Identification
  import KexInit
  import opened KeyExchange
  import UserAuth
  import opened Handshake
  import opened Interleaving
  import opened FirstExchange

  // ----- waiting for a message -----

  /** The packet behind k others, none of which is the message, a KEXINIT, or numbered 255, is the message. */
  ghost predicate Awaited(s: Suite, h: Half, input: Bytes, wanted: byte, max: nat, k: nat, r: Received) {
    var d := DecodeAll(s, h, input, k, 35000);
    && d.Some? && (forall p :: p in d.value.payloads ==> p == [] || p[0] !in {20, 255, wanted})
    && Decode(s, d.value.half, d.value.rest, 35000) == Some(r)
    && r.payload != [] && r.payload[0] == wanted && |r.payload| <= max
  }

  /** The wait ends with the first packet of the wanted kind, if it is among the first n and no KEXINIT or 255 is before it. */
  lemma {:induction false} WaitForExactly(g: Config, h: Half, input: Bytes, wanted: byte, max: nat, n: nat, r: Received)
    requires wanted != 20
    ensures WaitFor(g, h, input, wanted, max, n) == Some(r) <==> exists k: nat :: k < n && Awaited(g.suite, h, input, wanted, max, k, r)
    decreases n
  {
    hide Decode;
    if WaitFor(g, h, input, wanted, max, n) == Some(r) {
      var k := WaitEnds(g, h, input, wanted, max, n, r);
    }
    if k: nat :| k < n && Awaited(g.suite, h, input, wanted, max, k, r) {
      WaitFinds(g, h, input, wanted, max, n, k, r);
    }
  }

  lemma {:induction false} WaitEnds(g: Config, h: Half, input: Bytes, wanted: byte, max: nat, n: nat, r: Received) returns (k: nat)
    requires WaitFor(g, h, input, wanted, max, n) == Some(r)
    ensures k < n && Awaited(g.suite, h, input, wanted, max, k, r)
    decreases n
  {
    hide Decode;
    var q := Decode(g.suite, h, input, MAX_PACKET_LEN).value;
    if q.payload != [] && q.payload[0] == wanted {
      k := 0;
    } else {
      var j := WaitEnds(g, q.half, q.rest, wanted, max, n - 1, r);
      DecodeAllStep(g.suite, h, input, j + 1, MAX_PACKET_LEN, q);
      k := j + 1;
    }
  }

  lemma {:induction false} WaitFinds(g: Config, h: Half, input: Bytes, wanted: byte, max: nat, n: nat, k: nat, r: Received)
    requires k < n && wanted != 20 && Awaited(g.suite, h, input, wanted, max, k, r)
    ensures WaitFor(g, h, input, wanted, max, n) == Some(r)
    decreases n
  {
    hide Decode;
    if k > 0 {
      var q := Decode(g.suite, h, input, MAX_PACKET_LEN).value;
      DecodeAllStep(g.suite, h, input, k, MAX_PACKET_LEN, q);
      var d, e := DecodeAll(g.suite, h, input, k, 35000).value, DecodeAll(g.suite, q.half, q.rest, k - 1, 35000).value;
      assert q.payload == d.payloads[0] && forall p :: p in e.payloads ==> p in d.payloads;
      WaitFinds(g, q.half, q.rest, wanted, max, n - 1, k - 1, r);
    }
  }

  lemma {:induction false} AwaitedKind(s: Suite, h: Half, input: Bytes, wanted: byte, max: nat, k: nat, r: Received)
    requires Awaited(s, h, input, wanted, max, k, r)
    ensures r.payload != [] && r.payload[0] == wanted && |r.payload| <= max
  {
    hide DecodeAll, Decode;
  }

  // ----- the server's reply -----

  /**
   * What proves the host: a key and a signature, with the bytes behind each list of fields, which the client does not look at.
   * The numbers of an RSA key may have zeros in front of them.
   */
  datatype Proof =
    | EdProof(key: Bytes, afterKey: Bytes, signature: Bytes, afterSignature: Bytes)
    | RsaProof(sha256: bool, zeros: nat, exponent: Bytes, moreZeros: nat, modulus: Bytes, size: nat,
               afterKey: Bytes, signature: Bytes, afterSignature: Bytes)
  {
    predicate Sized() {
      && |afterKey| <= 4096 && |afterSignature| <= 4096
      && match this
         case EdProof(key, _, signature, _) => |key| == 32 && |signature| == 64
         case RsaProof(_, zeros, exponent, moreZeros, modulus, size, _, signature, _) =>
           && zeros <= 4096 && moreZeros <= 4096
           && (size == 128 || size == 256 || size == 384 || size == 512) && size - 128 < |modulus| <= size
           && 0 < |exponent| <= size && |signature| <= size && exponent[0] != 0 && modulus[0] != 0
    }

    function HostKey(): Bytes
      requires Sized()
    {
      match this
      case EdProof(key, _, _, _) => Str(Ascii("ssh-ed25519")) + Str(key) + afterKey
      case RsaProof(_, zeros, exponent, moreZeros, modulus, _, _, _, _) =>
        Str(Ascii("ssh-rsa")) + Str(Zeros(zeros) + exponent) + Str(Zeros(moreZeros) + modulus) + afterKey
    }

    function SignatureBlob(): (b: Bytes)
      requires Sized()
      ensures 0 < |b| <= 8192
    {
      match this
      case EdProof(_, _, _, _) => Str(Ascii("ssh-ed25519")) + Str(signature) + afterSignature
      case RsaProof(sha256, _, _, _, _, _, _, _, _) =>
        Str(if sha256 then Ascii("rsa-sha2-256") else Ascii("ssh-rsa")) + Str(signature) + afterSignature
    }

    predicate Verifies(s: Suite, hash: Digest)
      requires Sized()
    {
      match this
      case EdProof(key, _, signature, _) => s.edVerify(key, hash, signature)
      case RsaProof(sha256, _, exponent, _, modulus, size, _, signature, _) =>
        s.rsaVerify(sha256, Zeros(size - |modulus|) + modulus, Zeros(size - |exponent|) + exponent, hash,
                    Zeros(size - |signature|) + signature)
    }
  }

  /** A reply: what proves the host, the server's public key, and the bytes behind. */
  datatype Claim = Claim(proof: Proof, pub: Bytes, tail: Bytes)
  {
    predicate Sized() {
      proof.Sized() && |proof.HostKey()| <= 2048 && |pub| == 32
    }

    function Written(): Bytes
      requires Sized()
    {
      [31] + Str(proof.HostKey()) + Str(pub) + Str(proof.SignatureBlob()) + tail
    }
  }

  /** The bytes under the host's signature, for the names and KEXINITs that the client has stored. */
  function Signed(g: Config, x: Side, c: Claim): Bytes
    requires c.Sized()
  {
    Str(g.clientIdent) + Str(x.peerIdent) + Str(g.clientKexInit) + Str(x.peerKexInit) + Str(c.proof.HostKey())
    + Str(g.suite.dhPublic(g.clientSecret)) + Str(c.pub) + EncodeMpint(x.secret)
  }

  /** The reply's key signs the digest that is the session id, and the secret is the one shared with the reply's public key. */
  ghost predicate Authentic(g: Config, x: Side, p: Bytes, c: Claim) {
    && c.Sized() && |p| <= 2048 && p == c.Written()
    && g.suite.dhShared(g.clientSecret, c.pub) == Some(x.secret)
    && |Signed(g, x, c)| <= 4096 && x.sessionId == g.suite.sha(Signed(g, x, c))
    && c.proof.Verifies(g.suite, x.sessionId)
  }

  lemma {:induction false} ReadReplyMeans(p: Bytes) returns (tail: Bytes)
    requires ReadReply(p).Some? && p[0] == 31 && |p| <= 2048
    ensures var r := ReadReply(p).value;
      && |r.signature| < 0x1_0000_0000 && p == [31] + Str(r.hostKey) + Str(r.serverPublic) + Str(r.signature) + tail
  {
    hide Str;
    var host := ReadString(p, 1).value;
    var pub := ReadString(p, host.next).value;
    var sig := ReadString(p, pub.next).value;
    ReadIsStr(p, 1);
    ReadIsStr(p, host.next);
    ReadIsStr(p, pub.next);
    tail := p[sig.next..];
    FourPieces(p, host.next, pub.next, sig.next);
  }

  lemma FourPieces(p: Bytes, a: nat, b: nat, c: nat)
    requires 1 <= a <= b <= c <= |p|
    ensures p == [p[0]] + p[1..a] + p[a..b] + p[b..c] + p[c..]
  {
  }

  lemma {:induction false} ReplyWritten(host: Bytes, pub: Bytes, sig: Bytes, tail: Bytes)
    requires 0 < |host| <= 2048 && |pub| == 32 && 0 < |sig| <= 8192
    ensures ReadReply([31] + Str(host) + Str(pub) + Str(sig) + tail) == Some(Reply(host, pub, sig))
  {
    hide Str;
    var p := [31] + Str(host) + Str(pub) + Str(sig) + tail;
    assert p[1..] == Str(host) + (Str(pub) + (Str(sig) + tail));
    ReadStringFrom(p, 1, host, Str(pub) + (Str(sig) + tail));
    ReadStringFrom(p, 5 + |host|, pub, Str(sig) + tail);
    ReadStringFrom(p, 41 + |host|, sig, tail);
  }

  /** A blob of two fields and whatever follows. */
  lemma {:induction false} TwoFieldsMean(b: Bytes) returns (rest: Bytes)
    requires ReadString(b, 0).Some? && ReadString(b, ReadString(b, 0).value.next).Some?
    ensures var first := ReadString(b, 0).value;
      var second := ReadString(b, first.next).value;
      && |first.data| < 0x1_0000_0000 && |second.data| < 0x1_0000_0000 && b == Str(first.data) + Str(second.data) + rest
  {
    hide Str;
    var first := ReadString(b, 0).value;
    var second := ReadString(b, first.next).value;
    ReadIsStr(b, 0);
    ReadIsStr(b, first.next);
    rest := b[second.next..];
    assert b == b[0..first.next] + b[first.next..second.next] + b[second.next..];
  }

  lemma {:induction false} TwoFieldsRead(a: Bytes, b: Bytes, rest: Bytes)
    requires |a| < 0x1_0000_0000 && |b| < 0x1_0000_0000
    ensures var p := Str(a) + Str(b) + rest;
      ReadString(p, 0) == Some(View(a, 4 + |a|)) && ReadString(p, 4 + |a|) == Some(View(b, 8 + |a| + |b|))
  {
    hide Str;
    var p := Str(a) + Str(b) + rest;
    assert p[0..] == Str(a) + (Str(b) + rest);
    ReadStringFrom(p, 0, a, Str(b) + rest);
    ReadStringFrom(p, 4 + |a|, b, rest);
  }

  lemma {:induction false} ThreeFieldsMean(b: Bytes) returns (rest: Bytes)
    requires ReadString(b, 0).Some? && ReadString(b, ReadString(b, 0).value.next).Some?
    requires ReadString(b, ReadString(b, ReadString(b, 0).value.next).value.next).Some?
    ensures var first := ReadString(b, 0).value;
      var second := ReadString(b, first.next).value;
      var third := ReadString(b, second.next).value;
      && |first.data| < 0x1_0000_0000 && |second.data| < 0x1_0000_0000 && |third.data| < 0x1_0000_0000
      && b == Str(first.data) + Str(second.data) + Str(third.data) + rest
  {
    hide Str;
    var first := ReadString(b, 0).value;
    var second := ReadString(b, first.next).value;
    var third := ReadString(b, second.next).value;
    ReadIsStr(b, 0);
    ReadIsStr(b, first.next);
    ReadIsStr(b, second.next);
    rest := b[third.next..];
    assert b == b[0..first.next] + b[first.next..second.next] + b[second.next..third.next] + b[third.next..];
  }

  lemma {:induction false} ThreeFieldsRead(a: Bytes, b: Bytes, c: Bytes, rest: Bytes)
    requires |a| < 0x1_0000_0000 && |b| < 0x1_0000_0000 && |c| < 0x1_0000_0000
    ensures var p := Str(a) + Str(b) + Str(c) + rest;
      && ReadString(p, 0) == Some(View(a, 4 + |a|)) && ReadString(p, 4 + |a|) == Some(View(b, 8 + |a| + |b|))
      && ReadString(p, 8 + |a| + |b|) == Some(View(c, 12 + |a| + |b| + |c|))
  {
    hide Str;
    var p := Str(a) + Str(b) + Str(c) + rest;
    assert p[0..] == Str(a) + (Str(b) + (Str(c) + rest));
    ReadStringFrom(p, 0, a, Str(b) + (Str(c) + rest));
    ReadStringFrom(p, 4 + |a|, b, Str(c) + rest);
    ReadStringFrom(p, 8 + |a| + |b|, c, rest);
  }

  /** A number is its leading zeros and what is left without them. */
  lemma {:induction false} ZerosInFront(x: Bytes) returns (k: nat)
    ensures x == Zeros(k) + Trim(x) && (Trim(x) != [] ==> Trim(x)[0] != 0)
  {
    if x == [] || x[0] != 0 {
      k := 0;
    } else {
      var j := ZerosInFront(x[1..]);
      k := j + 1;
      assert x == [0] + x[1..] && [0] + Zeros(j) == Zeros(k);
      Regroup([0], Zeros(j), Trim(x[1..]));
    }
  }

  /** The RSA branch passes only for such a proof, whatever is behind the signature. */
  lemma {:induction false} RsaMeans(s: Suite, host: Bytes, sha256: bool, signature: Bytes, after: Bytes, hash: Digest)
    returns (p: Proof)
    requires |host| <= 2048 && |after| <= 4096 && ReadString(host, 0).Some? && ReadString(host, 0).value.data == Ascii("ssh-rsa")
    requires VerifyRsa(s, host, ReadString(host, 0).value.next, sha256, signature, hash)
    ensures p.RsaProof? && p.Sized() && p.Verifies(s, hash) && host == p.HostKey()
    ensures p.sha256 == sha256 && p.signature == signature && p.afterSignature == after
  {
    hide ReadString, Str, Ascii, Trim;
    var e := ReadString(host, ReadString(host, 0).value.next).value;
    var n := ReadString(host, e.next).value;
    var afterKey := ThreeFieldsMean(host);
    var i := ZerosInFront(e.data);
    var j := ZerosInFront(n.data);
    p := RsaProof(sha256, i, Trim(e.data), j, Trim(n.data), RsaKeyBytes(|Trim(n.data)|).value, afterKey, signature, after);
  }

  /** The host key check passes only for a proof that verifies. */
  lemma {:induction false} VerifyHostMeans(s: Suite, host: Bytes, sig: Bytes, hash: Digest) returns (p: Proof)
    requires VerifyHost(s, host, sig, hash) && |host| <= 2048 && |sig| <= 2048
    ensures p.Sized() && p.Verifies(s, hash) && host == p.HostKey() && sig == p.SignatureBlob()
  {
    hide ReadString, Str, VerifyRsa, Ascii;
    var alg := ReadString(host, 0).value;
    var sigAlg := ReadString(sig, 0).value;
    var signature := ReadString(sig, sigAlg.next).value.data;
    var after := TwoFieldsMean(sig);
    if alg.data == UserAuth.Ed25519() && sigAlg.data == UserAuth.Ed25519() {
      var afterKey := TwoFieldsMean(host);
      p := EdProof(ReadString(host, alg.next).value.data, afterKey, signature, after);
    } else {
      p := RsaMeans(s, host, sigAlg.data == RsaSha256(), signature, after, hash);
    }
  }

  lemma {:induction false} EdVerifies(s: Suite, p: Proof, hash: Digest)
    requires p.EdProof? && p.Sized() && p.Verifies(s, hash)
    ensures VerifyHost(s, p.HostKey(), p.SignatureBlob(), hash)
  {
    hide ReadString, Str, Ascii, VerifyRsa;
    TwoFieldsRead(Ascii("ssh-ed25519"), p.key, p.afterKey);
    TwoFieldsRead(Ascii("ssh-ed25519"), p.signature, p.afterSignature);
  }

  lemma {:induction false} RsaVerifies(s: Suite, p: Proof, hash: Digest)
    requires p.RsaProof? && p.Sized() && p.Verifies(s, hash)
    ensures VerifyHost(s, p.HostKey(), p.SignatureBlob(), hash)
  {
    hide ReadString, Str, Ascii, VerifyRsa;
    var e, n := Zeros(p.zeros) + p.exponent, Zeros(p.moreZeros) + p.modulus;
    ThreeFieldsRead(Ascii("ssh-rsa"), e, n, p.afterKey);
    TwoFieldsRead(if p.sha256 then Ascii("rsa-sha2-256") else Ascii("ssh-rsa"), p.signature, p.afterSignature);
    NamesDiffer();
    RsaSuffices(s, p, p.HostKey(), 11, hash, View(e, 15 + |e|), View(n, 19 + |e| + |n|));
  }

  lemma {:induction false} RsaSuffices(s: Suite, p: Proof, host: Bytes, off: nat, hash: Digest, e: View, n: View)
    requires p.RsaProof? && p.Sized() && p.Verifies(s, hash)
    requires ReadString(host, off) == Some(e) && ReadString(host, e.next) == Some(n)
    requires e.data == Zeros(p.zeros) + p.exponent && n.data == Zeros(p.moreZeros) + p.modulus
    ensures VerifyRsa(s, host, off, p.sha256, p.signature, hash)
  {
    hide ReadString;
    TrimZeros(Zeros(p.zeros), p.exponent);
    TrimZeros(Zeros(p.moreZeros), p.modulus);
  }

  lemma {:induction false} ProofVerifies(s: Suite, p: Proof, hash: Digest)
    requires p.Sized() && p.Verifies(s, hash)
    ensures VerifyHost(s, p.HostKey(), p.SignatureBlob(), hash)
  {
    hide *;
    if p.EdProof? {
      EdVerifies(s, p, hash);
    } else {
      RsaVerifies(s, p, hash);
    }
  }

  lemma NamesDiffer()
    ensures Ascii("ssh-rsa") != Ascii("rsa-sha2-256") && Ascii("ssh-rsa") != Ascii("ssh-ed25519")
  {
    assert |Ascii("ssh-rsa")| == 7 && |Ascii("rsa-sha2-256")| == 12 && |Ascii("ssh-ed25519")| == 11;
  }

  /** What the client does with the packet it waited for. */
  ghost predicate Takes(g: Config, x: Side, r: Received, c: Claim, m: Move) {
    && m == Move(x.(pc := 6, inp := r.half, secret := m.side.secret, sessionId := m.side.sessionId),
                 r.rest, [], [], [Item(x.inp.encrypted, r.payload)])
    && Authentic(g, m.side, r.payload, c)
  }

  lemma {:induction false} SignedIsHashed(g: Config, x: Side, c: Claim)
    requires c.Sized()
    ensures Signed(g, x, c) == HashInput(Transcript(g.clientIdent, x.peerIdent, g.clientKexInit, x.peerKexInit, c.proof.HostKey(),
                                                    g.suite.dhPublic(g.clientSecret), c.pub, x.secret))
  {
    HashInputWritten(Transcript(g.clientIdent, x.peerIdent, g.clientKexInit, x.peerKexInit, c.proof.HostKey(),
                                g.suite.dhPublic(g.clientSecret), c.pub, x.secret));
  }

  lemma {:induction false} ReplyIsAuthentic(g: Config, x: Side, input: Bytes, m: Move) returns (k: nat, r: Received, c: Claim)
    requires x.pc == 5 && ClientMove(g, x, input) == Some(m)
    ensures k < g.waitLimit && Awaited(g.suite, x.inp, input, 31, 2048, k, r) && Takes(g, x, r, c, m)
  {
    hide Str, EncodeMpint, HashInput, Decode, WaitFor, ReadReply, VerifyHost, Awaited;
    assert ClientTakesReply(g, x, input) == Some(m);
    r := WaitFor(g, x.inp, input, MSG_KEX_ECDH_REPLY, 2048, g.waitLimit).value;
    k := WaitEnds(g, x.inp, input, MSG_KEX_ECDH_REPLY, 2048, g.waitLimit, r);
    AwaitedKind(g.suite, x.inp, input, 31, 2048, k, r);
    var reply := ReadReply(r.payload).value;
    c := ClaimOf(g.suite, r.payload, reply, m.side.sessionId);
    SignedIsHashed(g, m.side, c);
  }

  lemma {:induction false} ClaimOf(s: Suite, p: Bytes, reply: Reply, hash: Digest) returns (c: Claim)
    requires ReadReply(p) == Some(reply) && p[0] == 31 && |p| <= 2048 && VerifyHost(s, reply.hostKey, reply.signature, hash)
    ensures c.Sized() && p == c.Written() && c.pub == reply.serverPublic && c.proof.HostKey() == reply.hostKey
    ensures c.proof.Verifies(s, hash)
  {
    hide VerifyHost, Str, ReadString;
    var tail := ReadReplyMeans(p);
    var proof := VerifyHostMeans(s, reply.hostKey, reply.signature, hash);
    assert |reply.hostKey| <= 2048 && |reply.serverPublic| == 32;
    c := Claim(proof, reply.serverPublic, tail);
  }

  lemma {:induction false} AuthenticIsTaken(g: Config, x: Side, input: Bytes, m: Move, k: nat, r: Received, c: Claim)
    requires x.pc == 5 && k < g.waitLimit && Awaited(g.suite, x.inp, input, 31, 2048, k, r) && Takes(g, x, r, c, m)
    ensures ClientMove(g, x, input) == Some(m)
  {
    hide Str, EncodeMpint, HashInput, Decode, WaitFor, ReadReply, VerifyHost, Awaited;
    WaitFinds(g, x.inp, input, MSG_KEX_ECDH_REPLY, 2048, g.waitLimit, k, r);
    ReplyWritten(c.proof.HostKey(), c.pub, c.proof.SignatureBlob(), c.tail);
    ProofVerifies(g.suite, c.proof, m.side.sessionId);
    SignedIsHashed(g, m.side, c);
    assert ClientTakesReply(g, x, input) == Some(m);
  }

  /**
   * For any side at this point and any bytes on the wire: the client goes on exactly when the packet it waits for is a reply
   * whose host key verifies its signature over the session id, and it stores this session id and the secret behind it.
   */
  lemma {:induction false} ReplyTakenExactly(g: Config, x: Side, input: Bytes, m: Move)
    requires x.pc == 5
    ensures ClientMove(g, x, input) == Some(m) <==>
            exists k: nat, r, c :: k < g.waitLimit && Awaited(g.suite, x.inp, input, 31, 2048, k, r) && Takes(g, x, r, c, m)
  {
    hide *;
    if ClientMove(g, x, input) == Some(m) {
      var k, r, c := ReplyIsAuthentic(g, x, input, m);
    }
    if k: nat, r, c :| k < g.waitLimit && Awaited(g.suite, x.inp, input, 31, 2048, k, r) && Takes(g, x, r, c, m) {
      AuthenticIsTaken(g, x, input, m, k, r, c);
    }
  }

  // ----- any server -----

  /** Some packet the client took is a reply that proves the host for this session. */
  ghost predicate Proven(g: Config, x: Side, got: seq<Item>) {
    exists i, c :: 0 <= i < |got| && Authentic(g, x, got[i].payload, c)
  }

  /** The client has not passed the reply, or the host is proven; once done, it encrypts both ways with keys from this session. */
  ghost predicate Guarded(g: Config, x: Side, got: seq<Item>) {
    && x.pc <= 8
    && (x.pc >= 6 ==> Proven(g, x, got))
    && (x.pc == 8 ==>
          && KeyedFrom(g.suite, x.out, x.secret, x.sessionId, 67, 69)
          && KeyedFrom(g.suite, x.inp, x.secret, x.sessionId, 68, 70))
  }

  /** The client's move keeps what it has stored of the session from the reply on. */
  predicate SameSession(x: Side, y: Side) {
    && y.secret == x.secret && y.sessionId == x.sessionId && y.peerIdent == x.peerIdent && y.peerKexInit == x.peerKexInit
  }

  lemma {:induction false} ProvenStays(g: Config, x: Side, y: Side, got: seq<Item>, more: seq<Item>)
    requires Proven(g, x, got) && SameSession(x, y)
    ensures Proven(g, y, got + more)
  {
    hide Str, EncodeMpint;
    var i, c :| 0 <= i < |got| && Authentic(g, x, got[i].payload, c);
    assert (got + more)[i] == got[i] && Signed(g, x, c) == Signed(g, y, c);
    assert Authentic(g, y, (got + more)[i].payload, c);
  }

  lemma {:induction false} ProvenNow(g: Config, x: Side, input: Bytes, m: Move, got: seq<Item>)
    requires x.pc == 5 && ClientMove(g, x, input) == Some(m)
    ensures m.side.pc == 6 && Proven(g, m.side, got + m.got)
  {
    hide Authentic, ClientMove, Awaited;
    var k, r, c := ReplyIsAuthentic(g, x, input, m);
    var i := |got|;
    assert (got + m.got)[i] == m.got[0] && Authentic(g, m.side, (got + m.got)[i].payload, c);
  }

  lemma {:induction false} SwitchedKeys(g: Config, x: Side)
    ensures var y := SwitchClient(g, x);
      && KeyedFrom(g.suite, y.out, x.secret, x.sessionId, 67, 69) && KeyedFrom(g.suite, y.inp, x.secret, x.sessionId, 68, 70)
  {
    hide EncodeMpint, Keys;
    KeysWritten(g.suite, x.secret, x.sessionId);
  }

  lemma {:induction false} ProgramGuarded(g: Config, x: Side, input: Bytes, m: Move, got: seq<Item>)
    requires Guarded(g, x, got) && x.pc < 8 && ClientMove(g, x, input) == Some(m)
    ensures Guarded(g, m.side, got + m.got)
  {
    hide Decode, WaitFor, Proven, KeyedFrom, ClientTakesReply, Sendable, Encode, FindIdent;
    if x.pc == 5 {
      ProvenNow(g, x, input, m, got);
    } else if x.pc == 6 {
      ProvenStays(g, x, m.side, got, m.got);
    } else if x.pc == 7 {
      ProvenStays(g, x, m.side, got, m.got);
      SwitchedKeys(g, Took(x, WaitFor(g, x.inp, input, MSG_NEWKEYS, 2048, g.waitLimit).value));
    }
  }

  lemma {:induction false} DataGuarded(g: Config, x: Side, m: Move, got: seq<Item>)
    requires Guarded(g, x, got) && x.pc == m.side.pc == 8 && SameSession(x, m.side)
    requires m.side.out == x.out.(counter := m.side.out.counter, seqNo := m.side.out.seqNo)
    requires m.side.inp == x.inp.(counter := m.side.inp.counter, seqNo := m.side.inp.seqNo)
    ensures Guarded(g, m.side, got + m.got)
  {
    hide Proven, EncodeMpint;
    ProvenStays(g, x, m.side, got, m.got);
  }

  lemma {:induction false} DecodeKeepsKeys(s: Suite, h: Half, input: Bytes, max: nat)
    requires Decode(s, h, input, max).Some?
    ensures var k := Decode(s, h, input, max).value.half;
      k == h.(counter := k.counter, seqNo := k.seqNo)
  {
    hide Ctr, Mac, Open, CtrAdd;
  }

  lemma {:induction false} StepGuarded(g: Config, program: Program, u: World, a: Action, w: World)
    requires Guarded(g, u.c, u.gotC) && Perform(Machine(g.suite, ClientRuns(g), program), u, a) == Some(w)
    ensures Guarded(g, w.c, w.gotC)
  {
    hide ClientMove, Guarded, Decode, Encode, Sendable;
    var y := Machine(g.suite, ClientRuns(g), program);
    if ByClient(a) {
      var m := MoveOf(y, u, a).value;
      assert w.c == m.side && w.gotC == u.gotC + m.got;
      if a.ClientProgram? {
        ProgramGuarded(g, u.c, u.s2c, m, u.gotC);
      } else {
        if a.ClientTakes? {
          DecodeKeepsKeys(g.suite, u.c.inp, u.s2c, MAX_PACKET_LEN);
        }
        DataGuarded(g, u.c, m, u.gotC);
      }
    }
  }

  lemma {:induction false} AlwaysGuarded(g: Config, program: Program, v: Side, actions: seq<Action>, w: World)
    requires PerformAll(Machine(g.suite, ClientRuns(g), program), Begin(Fresh(), v), actions) == Some(w)
    ensures Guarded(g, w.c, w.gotC)
    decreases |actions|
  {
    hide Perform;
    if actions != [] {
      var before := actions[..|actions| - 1];
      var u := PerformAll(Machine(g.suite, ClientRuns(g), program), Begin(Fresh(), v), before).value;
      AlwaysGuarded(g, program, v, before, u);
      StepGuarded(g, program, u, actions[|actions| - 1], w);
    }
  }

  /**
   * Whatever program runs at the other end, from whatever state, and however moves interleave: a client whose exchange is done
   * has taken a reply whose host key verifies its signature over this session id, which is the digest over what the client
   * itself sent and received, and it encrypts with the keys that come from this session id and secret.
   */
  lemma {:induction false} NoSessionWithoutHost(g: Config, program: Program, v: Side, actions: seq<Action>, w: World)
    requires PerformAll(Machine(g.suite, ClientRuns(g), program), Begin(Fresh(), v), actions) == Some(w) && w.c.pc == 8
    ensures exists i, c :: 0 <= i < |w.gotC| && Authentic(g, w.c, w.gotC[i].payload, c)
    ensures KeyedFrom(g.suite, w.c.out, w.c.secret, w.c.sessionId, 67, 69)
    ensures KeyedFrom(g.suite, w.c.inp, w.c.secret, w.c.sessionId, 68, 70)
  {
    hide Authentic, KeyedFrom, PerformAll;
    AlwaysGuarded(g, program, v, actions, w);
  }

  // ----- the server's side -----

  /** A key exchange message with a public key of 32 bytes, and whatever follows. */
  ghost predicate Proposes(g: Config, x: Side, r: Received, pub: Bytes, tail: Bytes, m: Move) {
    && |pub| == 32 && r.payload == [30] + Str(pub) + tail
    && m == Move(x.(pc := 5, inp := r.half, secret := m.side.secret, sessionId := m.side.sessionId),
                 r.rest, [], [], [Item(x.inp.encrypted, r.payload)])
    && g.suite.dhShared(g.serverSecret, pub) == Some(m.side.secret)
    && var hostKey := Str(Ascii("ssh-ed25519")) + Str(g.suite.edPublic(g.hostSecret));
    && var input := Str(x.peerIdent) + Str(g.serverIdent) + Str(x.peerKexInit) + Str(g.serverKexInit) + Str(hostKey)
                    + Str(pub) + Str(g.suite.dhPublic(g.serverSecret)) + EncodeMpint(m.side.secret);
    && |input| <= 4096 && m.side.sessionId == g.suite.sha(input)
  }

  function ServerTranscript(g: Config, x: Side, pub: Digest, secret: Digest): Transcript {
    Transcript(x.peerIdent, g.serverIdent, x.peerKexInit, g.serverKexInit, HostBlob(g), pub, g.suite.dhPublic(g.serverSecret), secret)
  }

  lemma {:induction false} InitIsRead(p: Bytes, pub: Bytes, tail: Bytes)
    requires |pub| == 32 && p == [30] + Str(pub) + tail
    ensures ReadString(p, 1) == Some(View(pub, 37))
  {
    hide Str;
    assert p[1..] == Str(pub) + tail;
    ReadStringFrom(p, 1, pub, tail);
  }

  lemma {:induction false} InitMeans(g: Config, x: Side, input: Bytes, m: Move) returns (r: Received, pub: Bytes, tail: Bytes)
    requires x.pc == 4 && ServerMove(g, x, input) == Some(m)
    ensures Decode(g.suite, x.inp, input, 2048) == Some(r) && Proposes(g, x, r, pub, tail, m)
  {
    hide Str, EncodeMpint, HashInput, Decode;
    assert ServerTakesInit(g, x, input) == Some(m);
    r := Decode(g.suite, x.inp, input, 2048).value;
    var v := ReadString(r.payload, 1).value;
    pub, tail := v.data, r.payload[v.next..];
    ReadIsStr(r.payload, 1);
    assert r.payload == [r.payload[0]] + r.payload[1..v.next] + r.payload[v.next..];
    HashInputWritten(ServerTranscript(g, x, pub, m.side.secret));
  }

  /** The server goes on exactly when the next packet is such a message, and it stores the secret and this session id. */
  lemma {:induction false} InitTakenExactly(g: Config, x: Side, input: Bytes, m: Move)
    requires x.pc == 4
    ensures ServerMove(g, x, input) == Some(m) <==>
            exists r, pub, tail :: Decode(g.suite, x.inp, input, 2048) == Some(r) && Proposes(g, x, r, pub, tail, m)
  {
    hide Str, EncodeMpint, HashInput, Decode;
    if ServerMove(g, x, input) == Some(m) {
      var r, pub, tail := InitMeans(g, x, input, m);
    }
    if r, pub, tail :| Decode(g.suite, x.inp, input, 2048) == Some(r) && Proposes(g, x, r, pub, tail, m) {
      InitIsRead(r.payload, pub, tail);
      HashInputWritten(ServerTranscript(g, x, pub, m.side.secret));
      assert ServerTakesInit(g, x, input) == Some(m);
    }
  }

  // ----- the other messages -----

  /** Both programs take the peer's identification from behind fewer than eight other lines. */
  lemma {:induction false} BannerSkipped(g: Config, x: Side, lines: seq<Bytes>, ident: Bytes, rest: Bytes)
    requires AreBanner(lines) && OneLine(ident) && 0 !in ident && |ident| <= 254 && [83, 83, 72, 45] <= ident
    ensures var input, y := Lines(lines) + (ident + [13, 10] + rest), x.(pc := x.pc + 1, peerIdent := ident);
      var m := if |lines| < 8 then Some(Move(y, rest, [], [], [])) else None;
      (x.pc == 1 ==> ClientMove(g, x, input) == m) && (x.pc == 0 ==> ServerMove(g, x, input) == m)
  {
    hide FindIdent, Announced, WaitFor, Decode, SendMove, TakeKexInit, ClientTakesReply, ClientTakesNewKeys, ServerTakesInit, ServerTakesNewKeys, Lines, OneLine;
    var input := Lines(lines) + (ident + [13, 10] + rest);
    IdentBehindBanner(lines, ident, rest, 8);
    assert TakeLine(x, input) == if |lines| < 8 then Some(Move(x.(pc := x.pc + 1, peerIdent := ident), rest, [], [], [])) else None;
  }

  /** The next packet is stored as the peer's KEXINIT. */
  ghost predicate Stores(g: Config, x: Side, input: Bytes, r: Received, m: Move) {
    && Decode(g.suite, x.inp, input, 35000) == Some(r) && |r.payload| <= 32768
    && m == Move(x.(pc := x.pc + 1, inp := r.half, peerKexInit := r.payload), r.rest, [], [], [Item(x.inp.encrypted, r.payload)])
  }

  lemma {:induction false} KexInitTaken(g: Config, x: Side, input: Bytes, accepts: Bytes -> bool, m: Move)
    ensures TakeKexInit(g, x, input, accepts) == Some(m) <==>
            exists r :: Stores(g, x, input, r, m) && r.payload != [] && r.payload[0] == 20 && accepts(r.payload)
  {
    hide Decode;
    if TakeKexInit(g, x, input, accepts) == Some(m) {
      assert Stores(g, x, input, Decode(g.suite, x.inp, input, 35000).value, m);
    }
  }

  /** The client takes exactly a KEXINIT with the eight names it demands. */
  lemma {:induction false} ServerKexInitTakenExactly(g: Config, x: Side, input: Bytes, m: Move)
    requires x.pc == 3
    ensures ClientMove(g, x, input) == Some(m) <==>
            exists r, lists, tail :: Stores(g, x, input, r, m) && KexInit.HasNames(r.payload, lists, tail)
  {
    hide Decode, TakeKexInit, KexInit.ClientAccepts;
    KexInitTaken(g, x, input, KexInit.ClientAccepts, m);
    assert ClientMove(g, x, input) == TakeKexInit(g, x, input, KexInit.ClientAccepts);
    forall r | Stores(g, x, input, r, m)
      ensures KexInit.ClientAccepts(r.payload) <==> exists lists, tail :: KexInit.HasNames(r.payload, lists, tail)
    {
      KexInit.ClientAcceptsExactly(r.payload);
    }
  }

  /** The server demands two more fields. */
  lemma {:induction false} ClientKexInitTakenExactly(g: Config, x: Side, input: Bytes, m: Move)
    requires x.pc == 2
    ensures ServerMove(g, x, input) == Some(m) <==>
            exists r, lists, a: Field, b: Field, tail ::
              Stores(g, x, input, r, m) && KexInit.HasNames(r.payload, lists, Str(a) + Str(b) + tail)
  {
    hide Decode, TakeKexInit, KexInit.ServerAccepts, Str;
    KexInitTaken(g, x, input, KexInit.ServerAccepts, m);
    assert ServerMove(g, x, input) == TakeKexInit(g, x, input, KexInit.ServerAccepts);
    forall r | Stores(g, x, input, r, m)
      ensures KexInit.ServerAccepts(r.payload) <==>
              exists lists, a: Field, b: Field, tail :: KexInit.HasNames(r.payload, lists, Str(a) + Str(b) + tail)
    {
      KexInit.ServerAcceptsExactly(r.payload);
    }
  }

  /** Both directions switch to encryption, with the values for these letters; the numbers run on. */
  ghost predicate Switches(g: Config, x: Side, r: Received, m: Move, out: seq<byte>, inp: seq<byte>)
    requires |out| == |inp| == 3
  {
    && m == Move(x.(pc := 8, out := m.side.out, inp := m.side.inp, keys := m.side.keys), r.rest, [], [],
                 [Item(x.inp.encrypted, r.payload)])
    && FromLetters(g.suite, m.side.out, x.secret, x.sessionId, out[0], out[1], out[2]) && m.side.out.seqNo == x.out.seqNo
    && FromLetters(g.suite, m.side.inp, x.secret, x.sessionId, inp[0], inp[1], inp[2]) && m.side.inp.seqNo == r.half.seqNo
  }

  /** The client switches on a NEWKEYS among the packets it waits for, and sends under A, C and E. */
  lemma {:induction false} ClientSwitchesOn(g: Config, x: Side, input: Bytes)
    requires x.pc == 7
    ensures ClientMove(g, x, input).Some? <==> exists k: nat, r :: k < g.waitLimit && Awaited(g.suite, x.inp, input, 21, 2048, k, r)
    ensures forall k: nat, r :: k < g.waitLimit && Awaited(g.suite, x.inp, input, 21, 2048, k, r) ==>
      ClientMove(g, x, input).Some? && Switches(g, x, r, ClientMove(g, x, input).value, [65, 67, 69], [66, 68, 70])
  {
    hide Decode, WaitFor, Awaited, EncodeMpint, Keys;
    KeysWritten(g.suite, x.secret, x.sessionId);
    assert ClientMove(g, x, input) == ClientTakesNewKeys(g, x, input);
    if ClientMove(g, x, input).Some? {
      var r := WaitFor(g, x.inp, input, 21, 2048, g.waitLimit).value;
      var k := WaitEnds(g, x.inp, input, 21, 2048, g.waitLimit, r);
    }
    forall k: nat, r | k < g.waitLimit && Awaited(g.suite, x.inp, input, 21, 2048, k, r)
      ensures ClientMove(g, x, input).Some? && Switches(g, x, r, ClientMove(g, x, input).value, [65, 67, 69], [66, 68, 70])
    {
      WaitFinds(g, x.inp, input, 21, 2048, g.waitLimit, k, r);
    }
  }

  /** The server switches on a NEWKEYS as the next packet, and sends under B, D and F. */
  lemma {:induction false} ServerSwitchesOn(g: Config, x: Side, input: Bytes)
    requires x.pc == 7
    ensures var d := Decode(g.suite, x.inp, input, 64);
      if d.Some? && [21] <= d.value.payload
      then ServerMove(g, x, input).Some? && Switches(g, x, d.value, ServerMove(g, x, input).value, [66, 68, 70], [65, 67, 69])
      else ServerMove(g, x, input) == None
  {
    hide Decode, EncodeMpint, Keys;
    KeysWritten(g.suite, x.secret, x.sessionId);
    assert ServerMove(g, x, input) == ServerTakesNewKeys(g, x, input);
  }

  // ----- what each program sends, whoever the peer is -----

  /** The client's three packets of the exchange. */
  function ClientScript(g: Config): (r: seq<Item>)
    ensures |r| == 3
  {
    [Item(false, g.clientKexInit), Item(false, [30] + Str(g.suite.dhPublic(g.clientSecret))), Item(false, [21])]
  }

  /** The server's; its signature is over the session id it has computed. */
  function ServerScript(g: Config, sessionId: Digest): (r: seq<Item>)
    ensures |r| == 3
  {
    var name := Str(Ascii("ssh-ed25519"));
    var reply := [31] + Str(name + Str(g.suite.edPublic(g.hostSecret))) + Str(g.suite.dhPublic(g.serverSecret))
                 + Str(name + Str(g.suite.edSign(g.hostSecret, sessionId)));
    [Item(false, g.serverKexInit), Item(false, reply), Item(false, [21])]
  }

  /** The packets of the script that a program has sent by now, and in the end anything behind them. */
  ghost predicate Says(x: Side, r: Role, script: seq<Item>, sent: seq<Item>)
    requires |script| == 3
  {
    && x.pc <= 8
    && (x.pc < 8 ==> !x.out.encrypted && sent == script[..if Sent(r, x.pc) == 0 then 0 else Sent(r, x.pc) - 1])
    && (x.pc == 8 ==> script <= sent)
  }

  lemma {:induction false} ClientSays(g: Config, x: Side, input: Bytes, m: Move, sent: seq<Item>)
    requires Says(x, Client, ClientScript(g), sent) && x.pc < 8 && ClientMove(g, x, input) == Some(m)
    ensures Says(m.side, Client, ClientScript(g), sent + m.sent)
    ensures x.pc == 0 ==> m.bytes == g.clientIdent + [13, 10]
  {
    hide Decode, WaitFor, ReadReply, VerifyHost, Hash, Keys, Sendable, Encode, FindIdent, Str, U32, KexInit.ClientAccepts;
  }

  lemma {:induction false} ServerSays(g: Config, x: Side, input: Bytes, m: Move, sent: seq<Item>)
    requires Says(x, Server, ServerScript(g, x.sessionId), sent) && x.pc < 8 && ServerMove(g, x, input) == Some(m)
    ensures Says(m.side, Server, ServerScript(g, m.side.sessionId), sent + m.sent)
    ensures x.pc == 1 ==> m.bytes == g.serverIdent + [13, 10]
  {
    hide Decode, Hash, Keys, Sendable, Encode, FindIdent, Str, U32, KexInit.ServerAccepts;
  }

  /** Both histories, in any world that two programs of which one is ours can reach. */
  lemma {:induction false} StepSays(g: Config, y: Machine, u: World, a: Action, w: World)
    requires Perform(y, u, a) == Some(w)
    ensures y.client == ClientRuns(g) && Says(u.c, Client, ClientScript(g), u.sentC) ==> Says(w.c, Client, ClientScript(g), w.sentC)
    ensures y.server == ServerRuns(g) && Says(u.v, Server, ServerScript(g, u.v.sessionId), u.sentV)
      ==> Says(w.v, Server, ServerScript(g, w.v.sessionId), w.sentV)
  {
    hide ClientMove, ServerMove, Decode, Encode, Sendable, ClientScript, ServerScript;
    var m := MoveOf(y, u, a).value;
    if a.ClientProgram? && y.client == ClientRuns(g) && Says(u.c, Client, ClientScript(g), u.sentC) {
      ClientSays(g, u.c, u.s2c, m, u.sentC);
    } else if a.ServerProgram? && y.server == ServerRuns(g) && Says(u.v, Server, ServerScript(g, u.v.sessionId), u.sentV) {
      ServerSays(g, u.v, u.c2s, m, u.sentV);
    }
  }

  lemma {:induction false} AlwaysSays(g: Config, y: Machine, c: Side, v: Side, actions: seq<Action>, w: World)
    requires PerformAll(y, Begin(c, v), actions) == Some(w)
    ensures y.client == ClientRuns(g) && c == Fresh() ==> Says(w.c, Client, ClientScript(g), w.sentC)
    ensures y.server == ServerRuns(g) && v == Fresh() ==> Says(w.v, Server, ServerScript(g, w.v.sessionId), w.sentV)
    decreases |actions|
  {
    hide Perform;
    if actions != [] {
      var before := actions[..|actions| - 1];
      var u := PerformAll(y, Begin(c, v), before).value;
      AlwaysSays(g, y, c, v, before, u);
      StepSays(g, y, u, actions[|actions| - 1], w);
    }
  }

  /** Against any peer: what a program that is done has sent begins with its KEXINIT, its key exchange message and NEWKEYS, in the clear. */
  lemma {:induction false} PacketsWritten(g: Config, y: Machine, c: Side, v: Side, actions: seq<Action>, w: World)
    requires PerformAll(y, Begin(c, v), actions) == Some(w)
    ensures y.client == ClientRuns(g) && c == Fresh() && w.c.pc == 8 ==> ClientScript(g) <= w.sentC
    ensures y.server == ServerRuns(g) && v == Fresh() && w.v.pc == 8 ==> ServerScript(g, w.v.sessionId) <= w.sentV
  {
    hide ClientScript, ServerScript, PerformAll;
    AlwaysSays(g, y, c, v, actions, w);
  }
}
