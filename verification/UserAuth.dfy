/** Public-key authentication (section 7 of RFC 4252): the client's signed request, and the server's reading of any request. */
module UserAuth {
  import opened Octets
  import opened Wrappers
  import opened Cipher
  import opened Wire

  const MSG_USERAUTH_REQUEST: byte := 50
  const MAX_USERNAME_LEN := 64

  function Userauth(): (b: Bytes)
    ensures |b| == 12
  {
    Ascii("ssh-userauth")
  }

  function Connection(): (b: Bytes)
    ensures |b| == 14
  {
    Ascii("ssh-connection")
  }

  function PublicKey(): (b: Bytes)
    ensures |b| == 9
  {
    Ascii("publickey")
  }

  function Ed25519(): (b: Bytes)
    ensures |b| == 11
  {
    Ascii("ssh-ed25519")
  }

  // ----- the client's side -----

  /** An algorithm name and its data: the form of public keys and of signatures. */
  function Blob(data: Bytes): (b: Bytes)
    requires |data| <= 64
    ensures |b| == 19 + |data|
  {
    Str(Ed25519()) + Str(data)
  }

  /** Message number, user, service and method. */
  function HeadOf(user: Field, service: Field, name: Field): Bytes {
    [MSG_USERAUTH_REQUEST] + (Str(user) + (Str(service) + Str(name)))
  }

  function Head(user: Bytes): (h: Bytes)
    requires |user| <= MAX_USERNAME_LEN
    ensures |h| == 36 + |user|
  {
    HeadOf(user, Connection(), PublicKey())
  }

  /** Flag, algorithm and key blob. */
  function KeyPart(flag: byte, key: Digest): Bytes {
    [flag] + Str(Ed25519()) + Str(Blob(key))
  }

  /** The request up to and including the key, which is what the signature covers. */
  function Request(user: Bytes, flag: byte, key: Digest): Bytes
    requires |user| <= MAX_USERNAME_LEN
  {
    Head(user) + KeyPart(flag, key)
  }

  function ToSign(sessionId: Digest, request: Bytes): Bytes {
    Str(sessionId) + request
  }

  function SignedRequest(user: Bytes, key: Digest, signature: Signature): Bytes
    requires |user| <= MAX_USERNAME_LEN
  {
    Request(user, 1, key) + Str(Blob(signature))
  }

  /** append_string twice, where there is room. */
  method AppendTwo(out: PayloadBuffer, a: Field, b: Field)
    requires out.Valid() && out.len + 8 + |a| + |b| <= out.data.Length
    modifies out, out.data
    ensures out.Valid() && out.Contents() == old(out.Contents()) + Str(a) + Str(b)
  {
    var ok := out.AppendString(a);
    ok := out.AppendString(b);
  }

  /** Name and data, in one of the 256-byte blob buffers. */
  method BuildBlob(data: Bytes) returns (blob: Bytes)
    requires |data| <= 64
    ensures blob == Blob(data)
  {
    var out := new PayloadBuffer(256);
    AppendTwo(out, Ed25519(), data);
    blob := out.data[..out.len];
  }

  method BuildHead(out: PayloadBuffer, user: Field, service: Field, name: Field)
    requires out.Valid() && out.Contents() == [] && 13 + |user| + |service| + |name| <= out.data.Length
    modifies out, out.data
    ensures out.Valid() && out.Contents() == HeadOf(user, service, name)
  {
    hide Str, HeadOf;
    var ok := out.AppendU8(MSG_USERAUTH_REQUEST);
    ok := out.AppendString(user);
    AppendTwo(out, service, name);
    HeadJoins(user, service, name);
  }

  lemma HeadJoins(user: Field, service: Field, name: Field)
    ensures [] + [MSG_USERAUTH_REQUEST] + Str(user) + Str(service) + Str(name) == HeadOf(user, service, name)
  {
    hide Str;
    Regroup([MSG_USERAUTH_REQUEST] + Str(user), Str(service), Str(name));
    Regroup([MSG_USERAUTH_REQUEST], Str(user), Str(service) + Str(name));
  }

  method BuildRequest(out: PayloadBuffer, user: Bytes, key: Digest)
    requires out.Valid() && out.data.Length == 1024 && out.Contents() == [] && |user| <= MAX_USERNAME_LEN
    modifies out, out.data
    ensures out.Valid() && out.Contents() == Request(user, 1, key)
  {
    hide U32, Ascii, Blob;
    var blob := BuildBlob(key);
    BuildHead(out, user, Connection(), PublicKey());
    var ok := out.AppendU8(1);
    AppendTwo(out, Ed25519(), blob);
  }

  /** send_userauth_publickey_ed25519: builds the request, signs it behind the session id, and appends the signature. */
  method BuildSignedRequest(s: Suite, user: Bytes, sessionId: Digest, secretKey: Digest) returns (payload: Bytes)
    requires |user| <= MAX_USERNAME_LEN
    ensures var key := s.edPublic(secretKey);
      payload == SignedRequest(user, key, s.edSign(secretKey, ToSign(sessionId, Request(user, 1, key))))
  {
    var out := new PayloadBuffer(1024);
    BuildRequest(out, user, s.edPublic(secretKey));
    var request := out.data[..out.len];
    var signature := s.edSign(secretKey, ToSign(sessionId, request));
    var blob := BuildBlob(signature);
    var ok := out.AppendString(blob);
    payload := out.data[..out.len];
  }

  // ----- the server's side -----

  /** What the handler makes of a request before it asks whether the key may be used. */
  datatype Offer =
    | Malformed   // the handler gives up the connection
    | Refused     // answered with USERAUTH_FAILURE
    | Offered(user: Bytes, flag: byte, key: Digest, reqLen: nat)

  /** A blob in this algorithm, with nothing behind it: the data inside. */
  function OpenBlob(blob: Bytes): (data: Option<Bytes>) {
    match ReadString(blob, 0)
    case None => None
    case Some(name) =>
      match ReadString(blob, name.next)
      case None => None
      case Some(data) => if data.next == |blob| && name.data == Ed25519() then Some(data.data) else None
  }

  /** flag, algorithm and key blob, from the given offset. */
  function ReadKey(p: Bytes, off: nat, user: Bytes): Offer {
    if user == [] || |user| > MAX_USERNAME_LEN || 0 in user || off >= |p| || p[off] > 1 then Refused
    else
      match ReadString(p, off + 1)
      case None => Refused
      case Some(alg) =>
        match ReadString(p, alg.next)
        case None => Refused
        case Some(blob) =>
          var key := OpenBlob(blob.data);
          if alg.data != Ed25519() || key.None? || |key.value| != 32 then Refused
          else Offered(user, p[off], key.value, blob.next)
  }

  function ReadOffer(p: Bytes): Offer {
    if |p| < 2 || p[0] != MSG_USERAUTH_REQUEST then Malformed
    else
      match ReadString(p, 1)
      case None => Malformed
      case Some(user) =>
        match ReadString(p, user.next)
        case None => Malformed
        case Some(service) =>
          match ReadString(p, service.next)
          case None => Malformed
          case Some(name) =>
            if service.data != Connection() || name.data != PublicKey() then Refused
            else ReadKey(p, name.next, user.data)
  }

  /** The signature behind the key, with nothing behind it. */
  function ReadSignature(p: Bytes, reqLen: nat): Option<Signature> {
    match ReadString(p, reqLen)
    case None => None
    case Some(blob) =>
      var sig := OpenBlob(blob.data);
      if blob.next == |p| && sig.Some? && |sig.value| == 64 then Some(sig.value) else None
  }

  /** The bytes the handler rebuilds for verification. */
  function Rebuilt(sessionId: Digest, p: Bytes, reqLen: nat): Bytes
    requires reqLen <= |p|
  {
    U32(|sessionId|) + sessionId + p[..reqLen]
  }

  // ----- the two sides together -----

  lemma {:induction false} OpenBlobOf(data: Bytes)
    requires |data| <= 64
    ensures OpenBlob(Blob(data)) == Some(data)
  {
    var b := Blob(data);
    assert b[0..] == Str(Ed25519()) + Str(data);
    ReadStringFrom(b, 0, Ed25519(), Str(data));
    assert Str(data) + [] == Str(data);
    ReadStringFrom(b, 15, data, []);
  }

  lemma {:induction false} ReadKeyOf(p: Bytes, off: nat, user: Bytes, flag: byte, key: Digest, tail: Bytes)
    requires 1 <= |user| <= MAX_USERNAME_LEN && 0 !in user && flag <= 1
    requires off <= |p| && p[off..] == [flag] + (Str(Ed25519()) + (Str(Blob(key)) + tail))
    ensures ReadKey(p, off, user) == Offered(user, flag, key, |p| - |tail|)
  {
    assert p[off] == p[off..][0] && p[off + 1..] == p[off..][1..];
    assert p[off + 1..] == Str(Ed25519()) + (Str(Blob(key)) + tail);
    ReadStringFrom(p, off + 1, Ed25519(), Str(Blob(key)) + tail);
    ReadStringFrom(p, off + 16, Blob(key), tail);
    OpenBlobOf(key);
  }

  lemma {:induction false} ReadOfferOf(user: Bytes, flag: byte, key: Digest, tail: Bytes)
    requires 1 <= |user| <= MAX_USERNAME_LEN && 0 !in user && flag <= 1
    ensures ReadOffer(Request(user, flag, key) + tail) == Offered(user, flag, key, |Request(user, flag, key)|)
  {
    var p := Request(user, flag, key) + tail;
    var rest := [flag] + (Str(Ed25519()) + (Str(Blob(key)) + tail));
    assert p == Head(user) + rest;
    ReadHeadOf(p, user, rest);
    ReadKeyOf(p, 36 + |user|, user, flag, key, tail);
    assert |p| - |tail| == |Request(user, flag, key)|;
  }

  lemma {:induction false} ReadHeadOf(p: Bytes, user: Bytes, rest: Bytes)
    requires |user| <= MAX_USERNAME_LEN && p == Head(user) + rest
    ensures ReadOffer(p) == ReadKey(p, 36 + |user|, user) && 36 + |user| <= |p| && p[36 + |user|..] == rest
  {
    ReadThree(p, user, Connection(), PublicKey(), rest);
  }

  /** The three strings behind the message number are read where they were written. */
  lemma {:induction false} ReadThree(p: Bytes, a: Field, b: Field, c: Field, rest: Bytes)
    requires p == HeadOf(a, b, c) + rest
    ensures ReadString(p, 1) == Some(View(a, 5 + |a|)) && ReadString(p, 5 + |a|) == Some(View(b, 9 + |a| + |b|))
    ensures var off := 13 + |a| + |b| + |c|;
      ReadString(p, 9 + |a| + |b|) == Some(View(c, off)) && off <= |p| && p[off..] == rest
    ensures |p| >= 2 && p[0] == MSG_USERAUTH_REQUEST
  {
    hide ReadString, U32;
    var t2 := Str(c) + rest;
    var t1 := Str(b) + t2;
    assert p[1..] == Str(a) + t1;
    ReadStringFrom(p, 1, a, t1);
    ReadStringFrom(p, 5 + |a|, b, t2);
    ReadStringFrom(p, 9 + |a| + |b|, c, rest);
  }

  lemma {:induction false} ReadSignatureOf(request: Bytes, signature: Signature)
    ensures ReadSignature(request + Str(Blob(signature)), |request|) == Some(signature)
  {
    var p := request + Str(Blob(signature));
    assert p[|request|..] == Str(Blob(signature)) + [];
    ReadStringFrom(p, |request|, Blob(signature), []);
    OpenBlobOf(signature);
  }

  /**
   * For every user name, session id and key: the server reads the client's request completely, rebuilds byte for byte
   * the message the client signed, and so the verification succeeds.
   */
  lemma {:induction false} SignedRequestVerifies(s: Suite, user: Bytes, sessionId: Digest, secretKey: Digest)
    requires s.Lawful()
    requires 1 <= |user| <= MAX_USERNAME_LEN && 0 !in user
    ensures var key := s.edPublic(secretKey);
      var request := Request(user, 1, key);
      var signature := s.edSign(secretKey, ToSign(sessionId, request));
      var p := SignedRequest(user, key, signature);
      && ReadOffer(p) == Offered(user, 1, key, |request|)
      && ReadSignature(p, |request|) == Some(signature)
      && Rebuilt(sessionId, p, |request|) == ToSign(sessionId, request)
      && s.edVerify(key, Rebuilt(sessionId, p, |request|), signature)
  {
    var key := s.edPublic(secretKey);
    var request := Request(user, 1, key);
    var signature := s.edSign(secretKey, ToSign(sessionId, request));
    var p := SignedRequest(user, key, signature);
    ReadOfferOf(user, 1, key, Str(Blob(signature)));
    ReadSignatureOf(request, signature);
    assert p[..|request|] == request;
  }

  // ----- what an accepted request says -----

  lemma {:induction false} OpenBlobIs(blob: Bytes)
    requires OpenBlob(blob).Some?
    ensures var data := OpenBlob(blob).value;
      |data| < 0x1_0000_0000 && blob == Str(Ed25519()) + Str(data)
  {
    var name := ReadString(blob, 0).value;
    ReadIsStr(blob, 0);
    ReadIsStr(blob, name.next);
    assert blob == blob[0..name.next] + blob[name.next..|blob|];
  }

  lemma {:induction false} ReadKeyIs(p: Bytes, off: nat, user: Bytes)
    requires ReadKey(p, off, user).Offered?
    ensures var o := ReadKey(p, off, user);
      && off <= o.reqLen <= |p| && o.user == user && |user| <= MAX_USERNAME_LEN
      && p[off..o.reqLen] == KeyPart(o.flag, o.key)
  {
    var o := ReadKey(p, off, user);
    var alg := ReadString(p, off + 1).value;
    var blob := ReadString(p, alg.next).value;
    ReadIsStr(p, off + 1);
    ReadIsStr(p, alg.next);
    OpenBlobIs(blob.data);
    CutThree(p, off, alg.next, blob.next);
  }

  lemma CutThree(p: Bytes, off: nat, i: nat, j: nat)
    requires off < i <= j <= |p|
    ensures p[off..j] == [p[off]] + p[off + 1..i] + p[i..j]
  {
  }

  /**
   * Whatever packet is read as an offer, the bytes that get verified are this session's id and the one request for the
   * user and key that were read: nothing else in the packet is covered and nothing that matters is left out.
   */
  lemma {:induction false} OfferIsBound(sessionId: Digest, p: Bytes)
    requires ReadOffer(p).Offered?
    ensures var o := ReadOffer(p);
      && o.reqLen <= |p| && 1 <= |o.user| <= MAX_USERNAME_LEN && 0 !in o.user
      && Rebuilt(sessionId, p, o.reqLen) == ToSign(sessionId, Request(o.user, o.flag, o.key))
  {
    var o := ReadOffer(p);
    HeadIs(p);
    var off := |Head(o.user)|;
    ReadKeyIs(p, off, o.user);
    assert p[..o.reqLen] == p[..off] + p[off..o.reqLen];
  }

  lemma {:induction false} HeadIs(p: Bytes)
    requires ReadOffer(p).Offered?
    ensures var user := ReadOffer(p).user;
      && |user| <= MAX_USERNAME_LEN && |Head(user)| <= |p| && p[..|Head(user)|] == Head(user)
      && ReadOffer(p) == ReadKey(p, |Head(user)|, user)
  {
    var user := ReadString(p, 1).value;
    var service := ReadString(p, user.next).value;
    var name := ReadString(p, service.next).value;
    ThreeAre(p, user, service, name);
  }

  lemma {:induction false} ThreeAre(p: Bytes, a: View, b: View, c: View)
    requires |p| >= 2 && p[0] == MSG_USERAUTH_REQUEST
    requires ReadString(p, 1) == Some(a) && ReadString(p, a.next) == Some(b) && ReadString(p, b.next) == Some(c)
    requires |a.data| < 1000 && |b.data| < 1000 && |c.data| < 1000
    ensures c.next == |HeadOf(a.data, b.data, c.data)| <= |p| && p[..c.next] == HeadOf(a.data, b.data, c.data)
  {
    ReadIsStr(p, 1);
    ReadIsStr(p, a.next);
    ReadIsStr(p, b.next);
    CutFour(p, a.next, b.next, c.next);
  }

  lemma CutFour(p: Bytes, i: nat, j: nat, k: nat)
    requires 1 <= i <= j <= k <= |p|
    ensures p[..k] == [p[0]] + (p[1..i] + (p[i..j] + p[j..k]))
  {
  }

  /** A signature cannot be carried over to another session, user or key: the signed message determines all three. */
  lemma {:induction false} ToSignInjective(
    id1: Digest, user1: Bytes, flag1: byte, key1: Digest, id2: Digest, user2: Bytes, flag2: byte, key2: Digest)
    requires |user1| <= MAX_USERNAME_LEN && |user2| <= MAX_USERNAME_LEN
    requires ToSign(id1, Request(user1, flag1, key1)) == ToSign(id2, Request(user2, flag2, key2))
    ensures id1 == id2 && user1 == user2 && flag1 == flag2 && key1 == key2
  {
    StrSplits(id1, Request(user1, flag1, key1), id2, Request(user2, flag2, key2));
    HeadSplits(user1, KeyPart(flag1, key1), user2, KeyPart(flag2, key2));
    KeyPartSplits(flag1, key1, flag2, key2);
  }

  lemma {:induction false} HeadSplits(user1: Bytes, x: Bytes, user2: Bytes, y: Bytes)
    requires |user1| <= MAX_USERNAME_LEN && |user2| <= MAX_USERNAME_LEN
    requires Head(user1) + x == Head(user2) + y
    ensures user1 == user2 && x == y
  {
    HeadOfSplits(user1, x, user2, y, Connection(), PublicKey());
  }

  lemma {:induction false} HeadOfSplits(user1: Field, x: Bytes, user2: Field, y: Bytes, service: Field, name: Field)
    requires HeadOf(user1, service, name) + x == HeadOf(user2, service, name) + y
    ensures user1 == user2 && x == y
  {
    ReadThree(HeadOf(user1, service, name) + x, user1, service, name, x);
    ReadThree(HeadOf(user2, service, name) + y, user2, service, name, y);
  }

  lemma {:induction false} KeyPartSplits(flag1: byte, key1: Digest, flag2: byte, key2: Digest)
    requires KeyPart(flag1, key1) == KeyPart(flag2, key2)
    ensures flag1 == flag2 && key1 == key2
  {
    assert KeyPart(flag1, key1)[0] == flag1 && KeyPart(flag2, key2)[0] == flag2;
    assert KeyPart(flag1, key1)[39..] == key1 && KeyPart(flag2, key2)[39..] == key2;
  }

  // ----- the same, written out -----

  /** The client's request and what its signature covers, byte by byte. */
  lemma {:induction false} RequestWritten(user: Bytes, flag: byte, key: Digest, sessionId: Digest, signature: Signature)
    requires |user| <= 64
    ensures var blob := Str(Ascii("ssh-ed25519")) + Str(key);
      var request := [50] + Str(user) + Str(Ascii("ssh-connection")) + Str(Ascii("publickey"))
                     + [flag] + Str(Ascii("ssh-ed25519")) + Str(blob);
      && Request(user, flag, key) == request && ToSign(sessionId, request) == Str(sessionId) + request
      && (flag == 1 ==>
            SignedRequest(user, key, signature) == request + Str(Str(Ascii("ssh-ed25519")) + Str(signature)))
  {
    hide Str;
    var a, b, c := Str(user), Str(Ascii("ssh-connection")), Str(Ascii("publickey"));
    Regroup([50] + a, b, c);
    Regroup([50], a, b + c);
    var head, alg, blob := [50] + a + b + c, Str(Ascii("ssh-ed25519")), Str(Blob(key));
    Regroup(head, [flag] + alg, blob);
    Regroup(head, [flag], alg);
    assert Head(user) == head && KeyPart(flag, key) == [flag] + alg + blob;
  }

  /**
   * The packets that are read as an offer are exactly those that begin with the request for a user name of 1 to 64 bytes
   * without NUL, with a flag of 0 or 1; the offer ends where that request ends.
   */
  lemma {:induction false} OfferExactly(p: Bytes, user: Bytes, flag: byte, key: Digest, reqLen: nat)
    ensures ReadOffer(p) == Offered(user, flag, key, reqLen) <==>
      1 <= |user| <= 64 && 0 !in user && flag <= 1 && reqLen == |Request(user, flag, key)| && Request(user, flag, key) <= p
  {
    hide ReadOffer, Request, Rebuilt, ToSign;
    if ReadOffer(p) == Offered(user, flag, key, reqLen) {
      RequestBegins(p);
    }
    if 1 <= |user| <= 64 && 0 !in user && flag <= 1 && reqLen == |Request(user, flag, key)| && Request(user, flag, key) <= p {
      ReadOfferOf(user, flag, key, p[reqLen..]);
      assert p == Request(user, flag, key) + p[reqLen..];
    }
  }

  lemma {:induction false} RequestBegins(p: Bytes)
    requires ReadOffer(p).Offered?
    ensures var o := ReadOffer(p);
      && o.reqLen <= |p| && 1 <= |o.user| <= 64 && 0 !in o.user && o.flag <= 1
      && p[..o.reqLen] == Request(o.user, o.flag, o.key)
  {
    var o, id := ReadOffer(p), seq(32, i => 0);
    OfferIsBound(id, p);
    assert Rebuilt(id, p, o.reqLen)[36..] == p[..o.reqLen];
    assert ToSign(id, Request(o.user, o.flag, o.key))[36..] == Request(o.user, o.flag, o.key);
  }

  ghost predicate ThreeStrings(p: Bytes, a: Bytes, b: Bytes, c: Bytes) {
    |a| < 0x1_0000_0000 && |b| < 0x1_0000_0000 && |c| < 0x1_0000_0000 && [50] + Str(a) + Str(b) + Str(c) <= p
  }

  /** The handler gives up exactly on packets without three strings behind the message number. */
  lemma {:induction false} MalformedExactly(p: Bytes)
    ensures ReadOffer(p).Malformed? <==> !exists a, b, c :: ThreeStrings(p, a, b, c)
  {
    hide ReadOffer, ThreeStrings;
    if !ReadOffer(p).Malformed? {
      var a, b, c := ThreeFound(p);
    }
    if a, b, c :| ThreeStrings(p, a, b, c) {
      ThreeSuffice(p, a, b, c);
    }
  }

  lemma {:induction false} ThreeFound(p: Bytes) returns (a: Bytes, b: Bytes, c: Bytes)
    requires !ReadOffer(p).Malformed?
    ensures ThreeStrings(p, a, b, c)
  {
    hide ReadString, Str, ReadKey;
    var x := ReadString(p, 1).value;
    var y := ReadString(p, x.next).value;
    var z := ReadString(p, y.next).value;
    ThreeBegin(p, x, y, z);
    a, b, c := x.data, y.data, z.data;
  }

  lemma {:induction false} ThreeSuffice(p: Bytes, a: Bytes, b: Bytes, c: Bytes)
    requires ThreeStrings(p, a, b, c)
    ensures !ReadOffer(p).Malformed?
  {
    hide ReadString, Str;
    ThreeAreRead(p, a, b, c);
  }

  lemma {:induction false} ThreeBegin(p: Bytes, a: View, b: View, c: View)
    requires |p| >= 2 && p[0] == 50
    requires ReadString(p, 1) == Some(a) && ReadString(p, a.next) == Some(b) && ReadString(p, b.next) == Some(c)
    ensures |a.data| < 0x1_0000_0000 && |b.data| < 0x1_0000_0000 && |c.data| < 0x1_0000_0000
    ensures [50] + Str(a.data) + Str(b.data) + Str(c.data) <= p
  {
    hide ReadString, Str;
    ReadIsStr(p, 1);
    ReadIsStr(p, a.next);
    ReadIsStr(p, b.next);
    CutFour(p, a.next, b.next, c.next);
    Regroup([50] + Str(a.data), Str(b.data), Str(c.data));
    Regroup([50], Str(a.data), Str(b.data) + Str(c.data));
    assert p[..c.next] == [50] + Str(a.data) + Str(b.data) + Str(c.data);
  }

  lemma {:induction false} ThreeAreRead(p: Bytes, a: Bytes, b: Bytes, c: Bytes)
    requires |a| < 0x1_0000_0000 && |b| < 0x1_0000_0000 && |c| < 0x1_0000_0000 && [50] + Str(a) + Str(b) + Str(c) <= p
    ensures |p| >= 2 && p[0] == 50 && ReadString(p, 1) == Some(View(a, 5 + |a|))
    ensures ReadString(p, 5 + |a|) == Some(View(b, 9 + |a| + |b|)) && ReadString(p, 9 + |a| + |b|).Some?
  {
    hide ReadString;
    var k := [50] + Str(a);
    PrefixSplit(k + Str(b), Str(c), p);
    PrefixSplit(k, Str(b), p);
    PrefixSplit([50], Str(a), p);
    ReadStringExactly(p, 1, a);
    ReadStringExactly(p, 5 + |a|, b);
    ReadStringExactly(p, 9 + |a| + |b|, c);
  }

  /** A signature is read exactly if it is all that is behind the request, in this algorithm. */
  lemma {:induction false} SignatureExactly(p: Bytes, reqLen: nat, signature: Signature)
    requires reqLen <= |p|
    ensures ReadSignature(p, reqLen) == Some(signature)
      <==> p[reqLen..] == Str(Str(Ascii("ssh-ed25519")) + Str(signature))
  {
    if p[reqLen..] == Str(Str(Ascii("ssh-ed25519")) + Str(signature)) {
      ReadSignatureOf(p[..reqLen], signature);
      assert p == p[..reqLen] + Str(Blob(signature));
    }
    if ReadSignature(p, reqLen) == Some(signature) {
      ReadIsStr(p, reqLen);
      OpenBlobIs(ReadString(p, reqLen).value.data);
    }
  }
}
