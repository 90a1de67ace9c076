/** What the server makes of authentication and channel requests, on any packet and byte by byte. */
module ServerRequests {
  import opened Octets
  import opened Wrappers
  import opened Cipher
  import opened Wire
  import UserAuth
  import opened Messages
  import opened ServerTrace
  import opened Server

  // ----- authentication -----

  /** The request for a user and an Ed25519 key, up to and including the key. */
  function Claim(user: Bytes, flag: byte, key: Digest): Bytes
    requires |user| <= 64
  {
    [50] + Str(user) + Str(Ascii("ssh-connection")) + Str(Ascii("publickey"))
    + [flag] + Str(Ascii("ssh-ed25519")) + Str(Str(Ascii("ssh-ed25519")) + Str(key))
  }

  predicate UserName(user: Bytes) {
    1 <= |user| <= 64 && 0 !in user
  }

  /** The packet is a claim and a signature, and the signature verifies over the session id and the claim. */
  ghost predicate Proof(cx: Context, p: Bytes, user: Bytes, key: Digest, signature: Signature) {
    && UserName(user) && p == Claim(user, 1, key) + Str(Str(Ascii("ssh-ed25519")) + Str(signature))
    && cx.suite.edVerify(key, Str(cx.sessionId) + Claim(user, 1, key), signature)
  }

  lemma {:induction false} ClaimIsRequest(user: Bytes, flag: byte, key: Digest)
    requires |user| <= 64
    ensures UserAuth.Request(user, flag, key) == Claim(user, flag, key)
    ensures forall sessionId: Digest :: UserAuth.ToSign(sessionId, Claim(user, flag, key)) == Str(sessionId) + Claim(user, flag, key)
  {
    hide Str, Ascii;
    UserAuth.RequestWritten(user, flag, key, seq(32, i => 0), seq(64, i => 0));
  }

  lemma {:induction false} OfferProves(cx: Context, p: Bytes) returns (user: Bytes, key: Digest, signature: Signature)
    requires SignedOffer(cx, p)
    ensures Proof(cx, p, user, key, signature) && user == UserAuth.ReadOffer(p).user
  {
    hide UserAuth.Request, Str, Ascii, UserAuth.ReadOffer, UserAuth.ReadSignature, UserAuth.Rebuilt, UserAuth.ToSign, Claim;
    var o := UserAuth.ReadOffer(p);
    user, key := o.user, o.key;
    signature := UserAuth.ReadSignature(p, o.reqLen).value;
    UserAuth.OfferIsBound(cx.sessionId, p);
    UserAuth.OfferExactly(p, user, 1, key, o.reqLen);
    UserAuth.SignatureExactly(p, o.reqLen, signature);
    ClaimIsRequest(user, 1, key);
    assert p == p[..o.reqLen] + p[o.reqLen..];
  }

  lemma {:induction false} ProofIsOffer(cx: Context, p: Bytes, user: Bytes, key: Digest, signature: Signature)
    requires Proof(cx, p, user, key, signature)
    ensures SignedOffer(cx, p)
  {
    hide UserAuth.Request, Str, Ascii, UserAuth.ReadOffer, UserAuth.ReadSignature, UserAuth.Rebuilt, UserAuth.ToSign, Claim;
    var n := |Claim(user, 1, key)|;
    ClaimIsRequest(user, 1, key);
    UserAuth.OfferExactly(p, user, 1, key, n);
    UserAuth.OfferIsBound(cx.sessionId, p);
    assert p[n..] == Str(Str(Ascii("ssh-ed25519")) + Str(signature));
    UserAuth.SignatureExactly(p, n, signature);
  }

  /** The packets that log a user in, if the callback approves: exactly a claim with its signature over this session. */
  lemma {:induction false} SignedOfferExactly(cx: Context, p: Bytes)
    ensures SignedOffer(cx, p) <==> exists user, key, signature :: Proof(cx, p, user, key, signature)
  {
    hide *;
    if SignedOffer(cx, p) {
      var user, key, signature := OfferProves(cx, p);
    }
    if user, key, signature :| Proof(cx, p, user, key, signature) {
      ProofIsOffer(cx, p, user, key, signature);
    }
  }

  /** What an unsigned request is answered with, if the key is approved. */
  function Acceptance(key: Digest): Message {
    PkOk(Ascii("ssh-ed25519"), Str(Ascii("ssh-ed25519")) + Str(key))
  }

  lemma {:induction false} QueryAnswered(p: Bytes, approved: bool, key: Digest) returns (user: Bytes)
    requires AuthReply(p, approved, false) == Acceptance(key)
    ensures approved && UserName(user) && p == Claim(user, 0, key)
  {
    hide UserAuth.Request, Str, Ascii, UserAuth.ReadOffer, Claim;
    var o := UserAuth.ReadOffer(p);
    user := o.user;
    UserAuth.OfferExactly(p, user, o.flag, o.key, o.reqLen);
    ClaimIsRequest(user, 0, o.key);
    assert p[..o.reqLen] == p;
    UserAuthBlob(o.key);
    LastField(Str(Ascii("ssh-ed25519")), key, o.key);
  }

  lemma {:induction false} UserAuthBlob(key: Digest)
    ensures UserAuth.Blob(key) == Str(Ascii("ssh-ed25519")) + Str(key) && UserAuth.Ed25519() == Ascii("ssh-ed25519")
  {
  }

  lemma {:induction false} LastField(head: Bytes, a: Digest, b: Digest)
    requires head + Str(a) == head + Str(b)
    ensures a == b
  {
    assert (head + Str(a))[|head| + 4..] == a && (head + Str(b))[|head| + 4..] == b;
  }

  lemma {:induction false} ClaimAnswered(p: Bytes, user: Bytes, key: Digest)
    requires UserName(user) && p == Claim(user, 0, key)
    ensures AuthReply(p, true, false) == Acceptance(key)
  {
    hide UserAuth.Request, Str, Ascii, UserAuth.ReadOffer, Claim;
    ClaimIsRequest(user, 0, key);
    UserAuth.OfferExactly(p, user, 0, key, |p|);
    UserAuthBlob(key);
  }

  /** A request without a signature is answered with the key it names, if the callback approves. */
  lemma {:induction false} QueryAnsweredExactly(p: Bytes, approved: bool, key: Digest)
    ensures AuthReply(p, approved, false) == Acceptance(key) <==> approved && exists user :: UserName(user) && p == Claim(user, 0, key)
  {
    hide Claim, AuthReply, Acceptance;
    if AuthReply(p, approved, false) == Acceptance(key) {
      var user := QueryAnswered(p, approved, key);
    }
    if approved {
      if user :| UserName(user) && p == Claim(user, 0, key) {
        ClaimAnswered(p, user, key);
      }
    }
  }

  /** Whoever is admitted is told so; whatever is neither admitted nor such a query is refused. */
  lemma {:induction false} OtherwiseRefused(cx: Context, p: Bytes, approved: bool)
    ensures SignedOffer(cx, p) ==> AuthReply(p, approved, true) == AuthSuccess
    ensures AuthReply(p, approved, false) == AuthFailure || exists key :: AuthReply(p, approved, false) == Acceptance(key)
  {
    hide UserAuth.ReadOffer, UserAuth.Rebuilt, UserAuth.ReadSignature;
    var o := UserAuth.ReadOffer(p);
    if o.Offered? {
      UserAuthBlob(o.key);
      assert AuthReply(p, approved, false) == AuthFailure || AuthReply(p, approved, false) == Acceptance(o.key);
    }
  }

  // ----- channel requests -----

  predicate Command(cmd: Bytes) {
    |cmd| <= 512 && 0 !in cmd
  }

  /** Behind the channel number: the kind, the wish for a reply, and the command, which ends the packet. */
  predicate Exec(p: Bytes, w: byte, cmd: Bytes)
    requires |p| >= 5
  {
    Command(cmd) && p == p[..5] + Str(Ascii("exec")) + [w] + Str(cmd)
  }

  predicate Shell(p: Bytes, w: byte)
    requires |p| >= 5
  {
    p == p[..5] + Str(Ascii("shell")) + [w]
  }

  /** A terminal name, four sizes and modes, which end the packet. */
  predicate Terminal(p: Bytes, w: byte, term: Bytes, sizes: Bytes, modes: Bytes)
    requires |p| >= 5
  {
    && |term| <= 64 && 0 !in term && |sizes| == 16 && |modes| < 0x1_0000_0000
    && p == p[..5] + Str(Ascii("pty-req")) + [w] + Str(term) + sizes + Str(modes)
  }

  /** What is behind the head of a request. */
  lemma {:induction false} HeadSplits(p: Bytes, kind: Bytes, w: byte, rest: Bytes)
    requires |p| >= 5 && |kind| < 0x1_0000_0000
    ensures p == p[..5] + Str(kind) + [w] + rest <==>
            ReadRequest(p) == Some(ChannelRequest(kind, w != 0, 10 + |kind|)) && p[9 + |kind|] == w && p[10 + |kind|..] == rest
  {
    hide Str, ReadRequest;
    RequestExactly(p, kind, w);
    var head := p[..5] + Str(kind) + [w];
    if p == head + rest {
      assert head <= p && p[|head|..] == rest && p[|head| - 1] == w;
    }
    if ReadRequest(p) == Some(ChannelRequest(kind, w != 0, 10 + |kind|)) && p[9 + |kind|] == w && p[10 + |kind|..] == rest {
      assert head <= p && p == p[..|head|] + p[|head|..];
    }
  }

  lemma {:induction false} CommandExactly(p: Bytes, off: nat)
    requires off <= |p|
    ensures IsCommand(p, off) <==> exists cmd :: Command(cmd) && p[off..] == Str(cmd)
  {
    hide Str;
    if IsCommand(p, off) {
      var v := ReadString(p, off).value;
      ReadIsStr(p, off);
      assert Command(v.data) && p[off..] == p[off..v.next];
    }
    if cmd :| Command(cmd) && p[off..] == Str(cmd) {
      assert Str(cmd) + [] == Str(cmd);
      ReadStringFrom(p, off, cmd, []);
    }
  }

  lemma {:induction false} TerminalRead(p: Bytes, off: nat) returns (term: Bytes, sizes: Bytes, modes: Bytes)
    requires off <= |p| && IsPtyRequest(p, off)
    ensures |term| <= 64 && 0 !in term && |sizes| == 16 && |modes| < 0x1_0000_0000 && p[off..] == Str(term) + sizes + Str(modes)
  {
    hide Str;
    var t := ReadString(p, off).value;
    var m := ReadString(p, t.next + 16).value;
    ReadIsStr(p, off);
    ReadIsStr(p, t.next + 16);
    term, sizes, modes := t.data, p[t.next..t.next + 16], m.data;
    assert p[off..] == p[off..t.next] + p[t.next..t.next + 16] + p[t.next + 16..m.next];
  }

  lemma {:induction false} TerminalSuffices(p: Bytes, off: nat, term: Bytes, sizes: Bytes, modes: Bytes)
    requires off <= |p| && |term| <= 64 && 0 !in term && |sizes| == 16 && |modes| < 0x1_0000_0000
    requires p[off..] == Str(term) + sizes + Str(modes)
    ensures IsPtyRequest(p, off)
  {
    hide Str;
    Regroup(Str(term), sizes, Str(modes));
    ReadStringFrom(p, off, term, sizes + Str(modes));
    var next := off + 4 + |term|;
    assert p[next + 16..] == p[next..][16..] == Str(modes) + [];
    ReadStringFrom(p, next + 16, modes, []);
  }

  /** A session starts on exactly these packets: a command, or a shell, addressed by the four bytes behind the message number. */
  lemma {:induction false} LaunchesExactly(p: Bytes)
    requires |p| >= 5
    ensures ReadRequest(p).Some? && Launches(p, ReadRequest(p).value) <==>
            (exists w, cmd :: Exec(p, w, cmd)) || (exists w :: Shell(p, w))
  {
    hide Str, Ascii, ReadRequest, IsCommand, Exec, Shell;
    if ReadRequest(p).Some? && Launches(p, ReadRequest(p).value) {
      LaunchMeans(p, ReadRequest(p).value);
    }
    if w, cmd :| Exec(p, w, cmd) {
      ExecLaunches(p, w, cmd);
    }
    if w :| Shell(p, w) {
      ShellLaunches(p, w);
    }
  }

  lemma {:induction false} LaunchMeans(p: Bytes, r: ChannelRequest)
    requires |p| >= 5 && ReadRequest(p) == Some(r) && Launches(p, r)
    ensures (exists w, cmd :: Exec(p, w, cmd)) || (exists w :: Shell(p, w))
  {
    hide Str, Ascii, ReadRequest, IsCommand;
    RequestExactly(p, r.kind, 0);
    var w, rest := p[r.next - 1], p[r.next..];
    HeadSplits(p, r.kind, w, rest);
    if r.kind == ExecKind() && IsCommand(p, r.next) {
      CommandExactly(p, r.next);
      var cmd :| Command(cmd) && rest == Str(cmd);
      assert Exec(p, w, cmd);
    } else {
      assert p[..5] + Str(r.kind) + [w] + [] == p[..5] + Str(r.kind) + [w];
      assert Shell(p, w);
    }
  }

  lemma {:induction false} ExecLaunches(p: Bytes, w: byte, cmd: Bytes)
    requires |p| >= 5 && Exec(p, w, cmd)
    ensures ReadRequest(p) == Some(ChannelRequest(Ascii("exec"), w != 0, 14)) && Launches(p, ReadRequest(p).value)
  {
    hide Str, ReadRequest, IsCommand;
    HeadSplits(p, Ascii("exec"), w, Str(cmd));
    CommandExactly(p, 14);
  }

  lemma {:induction false} ShellLaunches(p: Bytes, w: byte)
    requires |p| >= 5 && Shell(p, w)
    ensures ReadRequest(p) == Some(ChannelRequest(Ascii("shell"), w != 0, 15)) && Launches(p, ReadRequest(p).value)
  {
    hide Str, ReadRequest, IsCommand;
    assert p[..5] + Str(Ascii("shell")) + [w] + [] == p[..5] + Str(Ascii("shell")) + [w];
    HeadSplits(p, Ascii("shell"), w, []);
  }

  /** A terminal is asked for by exactly these packets. */
  lemma {:induction false} TerminalExactly(p: Bytes)
    requires |p| >= 5
    ensures ReadRequest(p).Some? && ReadRequest(p).value.kind == PtyKind() && IsPtyRequest(p, ReadRequest(p).value.next) <==>
            exists w, term, sizes, modes :: Terminal(p, w, term, sizes, modes)
  {
    hide Str, Ascii, ReadRequest, IsPtyRequest, Terminal;
    if ReadRequest(p).Some? && ReadRequest(p).value.kind == PtyKind() && IsPtyRequest(p, ReadRequest(p).value.next) {
      TerminalMeans(p, ReadRequest(p).value);
    }
    if w, term, sizes, modes :| Terminal(p, w, term, sizes, modes) {
      TerminalTaken(p, w, term, sizes, modes);
    }
  }

  lemma {:induction false} TerminalMeans(p: Bytes, r: ChannelRequest)
    requires |p| >= 5 && ReadRequest(p) == Some(r) && r.kind == PtyKind() && IsPtyRequest(p, r.next)
    ensures exists w, term, sizes, modes :: Terminal(p, w, term, sizes, modes)
  {
    hide Str, Ascii, ReadRequest, IsPtyRequest;
    RequestExactly(p, r.kind, 0);
    var w, rest := p[r.next - 1], p[r.next..];
    HeadSplits(p, r.kind, w, rest);
    var term, sizes, modes := TerminalRead(p, r.next);
    Joined(p[..5] + Str(r.kind) + [w], Str(term), sizes, Str(modes));
    assert Terminal(p, w, term, sizes, modes);
  }

  lemma Joined(head: Bytes, a: Bytes, b: Bytes, c: Bytes)
    ensures head + (a + b + c) == head + a + b + c
  {
  }

  lemma {:induction false} TerminalTaken(p: Bytes, w: byte, term: Bytes, sizes: Bytes, modes: Bytes)
    requires |p| >= 5 && Terminal(p, w, term, sizes, modes)
    ensures ReadRequest(p) == Some(ChannelRequest(Ascii("pty-req"), w != 0, 17)) && IsPtyRequest(p, 17)
  {
    hide Str, ReadRequest, IsPtyRequest;
    Joined(p[..5] + Str(Ascii("pty-req")) + [w], Str(term), sizes, Str(modes));
    HeadSplits(p, Ascii("pty-req"), w, Str(term) + sizes + Str(modes));
    TerminalSuffices(p, 17, term, sizes, modes);
  }

  // ----- output -----

  /** A piece of output goes out whole exactly when it fits a buffer of 4096, the peer's window, and its packets less 64 bytes. */
  lemma ChunkExactly(data: Bytes, window: uint32, maxPacket: uint32)
    ensures ChunkOf(data, window, maxPacket) == Some(data) <==>
      0 < |data| <= 4096 && |data| <= window && (maxPacket > 64 ==> |data| <= maxPacket - 64)
    ensures |data| <= Cap(window, maxPacket) <==>
      |data| <= 4096 && |data| <= window && (maxPacket > 64 ==> |data| <= maxPacket - 64)
  {
  }
}
