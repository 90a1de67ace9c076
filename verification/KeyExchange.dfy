/** The exchange hash (section 4 of RFC 5656, RFC 8731) and the key derivation (section 7.2 of RFC 4253). */
module KeyExchange {
  import opened Octets
  import opened Wrappers
  import opened Cipher
  import opened Wire
  import opened Mpint
  import opened KexInit

  const HASH_INPUT_MAX := 4096
  const CONTINUATION_MAX := 2048

  // ----- the exchange hash -----

  /** Everything that goes into the hash: seven strings in the order of the RFC, and the shared secret. */
  datatype Transcript = Transcript(
    clientIdent: Field, serverIdent: Field, clientKexInit: Field, serverKexInit: Field,
    hostKey: Field, clientPublic: Field, serverPublic: Field, secret: Digest)
  {
    function Strings(): (r: seq<Field>)
      ensures |r| == 7
    {
      [clientIdent, serverIdent, clientKexInit, serverKexInit, hostKey, clientPublic, serverPublic]
    }
  }

  function HashInput(t: Transcript): Bytes {
    Fields(t.Strings()) + EncodeMpint(t.secret)
  }

  lemma {:induction false} FieldsInjective(a: seq<Field>, x: Bytes, b: seq<Field>, y: Bytes)
    requires |a| == |b| && Fields(a) + x == Fields(b) + y
    ensures a == b && x == y
  {
    if a == [] {
      assert Fields(a) + x == x && Fields(b) + y == y;
    } else {
      FirstSplits(a[0], Fields(a[1..]), x, b[0], Fields(b[1..]), y);
      FieldsInjective(a[1..], x, b[1..], y);
      SameCons(a, b);
    }
  }

  lemma {:induction false} FirstSplits(a: Field, rest: Bytes, x: Bytes, b: Field, others: Bytes, y: Bytes)
    requires Str(a) + rest + x == Str(b) + others + y
    ensures a == b && rest + x == others + y
  {
    Regroup(Str(a), rest, x);
    Regroup(Str(b), others, y);
    StrSplits(a, rest + x, b, others + y);
  }

  lemma SameCons(a: seq<Field>, b: seq<Field>)
    requires a != [] && b != [] && a[0] == b[0] && a[1..] == b[1..]
    ensures a == b
  {
    assert a == [a[0]] + a[1..] && b == [b[0]] + b[1..];
  }

  /** The hash input, field by field. */
  lemma {:induction false} HashInputWritten(t: Transcript)
    ensures HashInput(t)
         == Str(t.clientIdent) + Str(t.serverIdent) + Str(t.clientKexInit) + Str(t.serverKexInit)
            + Str(t.hostKey) + Str(t.clientPublic) + Str(t.serverPublic) + EncodeMpint(t.secret)
  {
    hide Str, EncodeMpint;
    SevenFields(t.clientIdent, t.serverIdent, t.clientKexInit, t.serverKexInit, t.hostKey, t.clientPublic, t.serverPublic);
  }

  lemma {:induction false} SevenFields(a: Field, b: Field, c: Field, d: Field, e: Field, f: Field, g: Field)
    ensures Fields([a, b, c, d, e, f, g]) == Str(a) + Str(b) + Str(c) + Str(d) + Str(e) + Str(f) + Str(g)
  {
    hide Str;
    FieldsSnoc([a, b, c, d, e, f], g);
    FieldsSnoc([a, b, c, d, e], f);
    FieldsSnoc([a, b, c, d], e);
    FieldsSnoc([a, b, c], d);
    FieldsSnoc([a, b], c);
    FieldsSnoc([a], b);
    FieldsSnoc([], a);
    assert [] + [a] == [a] && [a] + [b] == [a, b] && [a, b] + [c] == [a, b, c] && [a, b, c] + [d] == [a, b, c, d];
    assert [a, b, c, d] + [e] == [a, b, c, d, e] && [a, b, c, d, e] + [f] == [a, b, c, d, e, f];
    assert [a, b, c, d, e, f] + [g] == [a, b, c, d, e, f, g] && [] + Str(a) == Str(a);
  }

  /** Equal hash inputs come from equal transcripts: no string can be moved into its neighbour. */
  lemma {:induction false} HashInputInjective(t: Transcript, u: Transcript)
    requires HashInput(t) == HashInput(u)
    ensures t == u
  {
    FieldsInjective(t.Strings(), EncodeMpint(t.secret), u.Strings(), EncodeMpint(u.secret));
    assert t.Strings()[..] == u.Strings()[..];
    forall i | 0 <= i < 7
      ensures t.Strings()[i] == u.Strings()[i]
    {
    }
    SameStrings(t, u);
    assert EncodeMpint(t.secret) + [] == EncodeMpint(u.secret) + [];
    MpintInjective(t.secret, [], u.secret, []);
  }

  lemma SameStrings(t: Transcript, u: Transcript)
    requires forall i :: 0 <= i < 7 ==> t.Strings()[i] == u.Strings()[i]
    ensures t.(secret := u.secret) == u
  {
    var a, b := t.Strings(), u.Strings();
    assert a[0] == b[0] && a[1] == b[1] && a[2] == b[2] && a[3] == b[3] && a[4] == b[4] && a[5] == b[5] && a[6] == b[6];
  }

  lemma {:induction false} FieldsPrefix(lists: seq<Field>, i: nat)
    requires i <= |lists|
    ensures |Fields(lists[..i])| <= |Fields(lists)|
    ensures i < |lists| ==> |Fields(lists[..i])| + 4 + |lists[i]| <= |Fields(lists)|
    decreases |lists|
  {
    if i > 0 {
      FieldsPrefix(lists[1..], i - 1);
      assert lists[..i][1..] == lists[1..][..i - 1];
    } else {
      assert lists[..0] == [];
    }
  }

  /** compute_exchange_hash's buffer: seven strings and the mpint are appended, and it fails exactly when they do not fit. */
  method BuildHashInput(t: Transcript) returns (input: Option<Bytes>)
    ensures input == if |HashInput(t)| <= HASH_INPUT_MAX then Some(HashInput(t)) else None
  {
    hide Str, EncodeMpint;
    var strings := t.Strings();
    var out := new PayloadBuffer(HASH_INPUT_MAX);
    assert strings[..0] == [];
    for i := 0 to 7
      invariant out.Valid() && out.data.Length == HASH_INPUT_MAX && fresh(out) && fresh(out.data)
      invariant out.Contents() == Fields(strings[..i])
    {
      FieldsSnoc(strings[..i], strings[i]);
      assert strings[..i + 1] == strings[..i] + [strings[i]];
      FieldsPrefix(strings, i);
      var ok := out.AppendString(strings[i]);
      if !ok {
        return None;
      }
    }
    assert strings[..7] == strings;
    var ok := AppendMpint(out, t.secret);
    input := if ok then Some(out.data[..out.len]) else None;
  }

  // ----- key derivation -----

  /** K1 || K2 || ... || K(n+1), where each further digest is taken over `pre` and everything before it. */
  function Expansion(s: Suite, pre: Bytes, k1: Digest, n: nat): (e: Bytes)
    ensures |e| == 32 * (n + 1)
  {
    if n == 0 then k1 else var p := Expansion(s, pre, k1, n - 1); p + s.sha(pre + p)
  }

  lemma {:induction false} ExpansionPrefix(s: Suite, pre: Bytes, k1: Digest, m: nat, n: nat)
    requires m <= n
    ensures Expansion(s, pre, k1, n)[..32 * (m + 1)] == Expansion(s, pre, k1, m)
  {
    if m < n {
      ExpansionPrefix(s, pre, k1, m, n - 1);
      var p := Expansion(s, pre, k1, n - 1);
      assert Expansion(s, pre, k1, n)[..32 * (m + 1)] == p[..32 * (m + 1)];
    }
  }

  /** In the first exchange the hash H and the session id are the same 32 bytes. */
  function Key(s: Suite, secret: Digest, sessionId: Bytes, selector: byte, len: nat): (key: Bytes)
    requires len > 0
    ensures |key| == len
  {
    var pre := EncodeMpint(secret) + sessionId;
    Expansion(s, pre, s.sha(pre + [selector] + sessionId), (len - 1) / 32)[..len]
  }

  /**
   * Block j of a key: the first is the digest over K, H, the letter and the session id, and each further one the digest over
   * K, H and the key so far.
   */
  lemma {:induction false} KeyBlock(s: Suite, secret: Digest, sessionId: Bytes, selector: byte, len: nat, j: nat)
    requires 32 * j < len
    ensures var n, pre := if len - 32 * j < 32 then len - 32 * j else 32, EncodeMpint(secret) + sessionId;
      Key(s, secret, sessionId, selector, len)[32 * j..32 * j + n]
        == s.sha(pre + if j == 0 then [selector] + sessionId else Key(s, secret, sessionId, selector, 32 * j))[..n]
  {
    hide EncodeMpint;
    var n, pre := if len - 32 * j < 32 then len - 32 * j else 32, EncodeMpint(secret) + sessionId;
    var k1, last := s.sha(pre + [selector] + sessionId), (len - 1) / 32;
    Regroup(pre, [selector], sessionId);
    assert j <= last;
    ExpansionPrefix(s, pre, k1, j, last);
    BlockOf(Expansion(s, pre, k1, last), len, j, n);
    if j > 0 {
      var p := Expansion(s, pre, k1, j - 1);
      WholeBlocks(j);
      assert p[..32 * j] == p;
      assert (p + s.sha(pre + p))[32 * j..32 * j + n] == s.sha(pre + p)[..n];
    } else {
      assert k1[0..n] == k1[..n];
    }
  }

  lemma WholeBlocks(j: nat)
    requires j > 0
    ensures (32 * j - 1) / 32 == j - 1
  {
  }

  lemma BlockOf(e: Bytes, len: nat, j: nat, n: nat)
    requires 32 * j + n <= len <= |e| && n <= 32 && 32 * (j + 1) <= |e|
    ensures e[..len][32 * j..32 * j + n] == e[..32 * (j + 1)][32 * j..32 * j + n]
  {
  }

  /** Up to one digest, a key is the beginning of that digest. */
  lemma {:induction false} ShortKey(s: Suite, secret: Digest, sessionId: Bytes, selector: byte, len: nat)
    requires 0 < len <= 32
    ensures Key(s, secret, sessionId, selector, len)
         == s.sha(EncodeMpint(secret) + sessionId + [selector] + sessionId)[..len]
  {
    hide EncodeMpint, Key;
    KeyBlock(s, secret, sessionId, selector, len, 0);
    Regroup(EncodeMpint(secret) + sessionId, [selector], sessionId);
  }

  /** A shorter key is a prefix of a longer one. */
  lemma {:induction false} KeyPrefix(s: Suite, secret: Digest, sessionId: Bytes, selector: byte, short: nat, long: nat)
    requires 0 < short <= long
    ensures Key(s, secret, sessionId, selector, long)[..short] == Key(s, secret, sessionId, selector, short)
  {
    var pre := EncodeMpint(secret) + sessionId;
    var k1, m, n := s.sha(pre + [selector] + sessionId), (short - 1) / 32, (long - 1) / 32;
    DigestsFor(short - 1, long - 1);
    ExpansionPrefix(s, pre, k1, m, n);
    CutTwice(Expansion(s, pre, k1, n), long, 32 * (m + 1), short);
  }

  lemma DigestsFor(a: nat, b: nat)
    requires a <= b
    ensures a / 32 <= b / 32 && 32 * (a / 32) <= a < 32 * (a / 32 + 1)
  {
  }

  lemma CutTwice(e: Bytes, long: nat, middle: nat, short: nat)
    requires short <= long <= |e| && short <= middle <= |e|
    ensures e[..long][..short] == e[..middle][..short]
  {
  }

  /** The continuation buffer holds K, H and all output so far, up to the last digest needed. */
  predicate Admits(secret: Digest, sessionId: Bytes, len: nat) {
    len <= 32 || |EncodeMpint(secret)| + |sessionId| + (len - 1) / 32 * 32 <= CONTINUATION_MAX
  }

  /** derive_key_block: fills the output digest by digest. It succeeds exactly when its buffers admit the length. */
  method DeriveKeyBlock(s: Suite, secret: Digest, sessionId: Bytes, selector: byte, out: array<byte>) returns (ok: bool)
    requires |sessionId| <= 32
    modifies out
    ensures ok <==> out.Length > 0 && sessionId != [] && Admits(secret, sessionId, out.Length)
    ensures ok ==> out[..] == Key(s, secret, sessionId, selector, out.Length)
  {
    if out.Length == 0 || |sessionId| == 0 {
      return false;
    }
    var pre := EncodeMpint(secret) + sessionId;
    var k1 := s.sha(pre + [selector] + sessionId);
    var take := if out.Length < 32 then out.Length else 32;
    Store(out, 0, k1[..take]);
    ok := FillRest(s, pre, k1, out, take);
  }

  /** Digest n + 1 is in place, as far as there is room. */
  ghost predicate Filled(s: Suite, pre: Bytes, k1: Digest, out: array<byte>, produced: nat, n: nat)
    reads out
  {
    && produced == (if 32 * (n + 1) < out.Length then 32 * (n + 1) else out.Length)
    && out[..produced] == Expansion(s, pre, k1, n)[..produced]
  }

  lemma {:induction false} FilledStart(s: Suite, pre: Bytes, k1: Digest, out: array<byte>, first: nat)
    requires first == (if out.Length < 32 then out.Length else 32) && out[..first] == k1[..first]
    ensures Filled(s, pre, k1, out, first, 0)
  {
  }

  /** The loop for the second and all further digests. */
  method FillRest(s: Suite, pre: Bytes, k1: Digest, out: array<byte>, first: nat) returns (ok: bool)
    requires out.Length > 0 && first == (if out.Length < 32 then out.Length else 32) && out[..first] == k1[..first]
    modifies out
    ensures ok <==> out.Length <= 32 || |pre| + (out.Length - 1) / 32 * 32 <= CONTINUATION_MAX
    ensures ok ==> out[..] == Expansion(s, pre, k1, (out.Length - 1) / 32)[..out.Length]
  {
    hide Expansion;
    var produced := first;
    ghost var n: nat := 0;
    FilledStart(s, pre, k1, out, first);
    while produced < out.Length
      invariant Filled(s, pre, k1, out, produced, n)
      invariant n > 0 ==> 32 * n < out.Length && |pre| + 32 * n <= CONTINUATION_MAX
    {
      if |pre| + produced > CONTINUATION_MAX {
        TooLong(out.Length, n, |pre|);
        return false;
      }
      produced := Extend(s, pre, k1, out, produced, n);
      n := n + 1;
    }
    LastDigest(out.Length, n);
    assert out[..] == out[..produced];
    ok := true;
  }

  lemma LastDigest(len: nat, n: nat)
    requires 0 < len <= 32 * (n + 1) && (n > 0 ==> 32 * n < len)
    ensures (len - 1) / 32 == n
  {
  }

  lemma TooLong(len: nat, n: nat, pre: nat)
    requires 32 * (n + 1) < len && pre + 32 * (n + 1) > CONTINUATION_MAX
    ensures len > 32 && pre + (len - 1) / 32 * 32 > CONTINUATION_MAX
  {
    assert (len - 1) / 32 >= n + 1;
  }

  /** One turn of the loop: the digest over everything so far, as much of it as there is room for. */
  method Extend(s: Suite, pre: Bytes, ghost k1: Digest, out: array<byte>, produced: nat, ghost n: nat) returns (next: nat)
    requires produced == 32 * (n + 1) < out.Length
    requires out[..produced] == Expansion(s, pre, k1, n)[..produced]
    modifies out
    ensures next == if 32 * (n + 2) < out.Length then 32 * (n + 2) else out.Length
    ensures out[..next] == Expansion(s, pre, k1, n + 1)[..next]
  {
    var done := out[..produced];
    var digest := s.sha(pre + done);
    var take := if out.Length - produced < 32 then out.Length - produced else 32;
    ExpansionStep(s, pre, k1, n, done, take);
    Store(out, produced, digest[..take]);
    next := produced + take;
  }

  lemma {:induction false} ExpansionStep(s: Suite, pre: Bytes, k1: Digest, n: nat, done: Bytes, take: nat)
    requires done == Expansion(s, pre, k1, n)[..32 * (n + 1)] && take <= 32
    ensures done + s.sha(pre + done)[..take] == Expansion(s, pre, k1, n + 1)[..|done| + take]
  {
    assert done == Expansion(s, pre, k1, n);
    assert Expansion(s, pre, k1, n + 1) == done + s.sha(pre + done);
  }

  /** memcpy to an offset. */
  method Store(out: array<byte>, at: nat, s: Bytes)
    requires at + |s| <= out.Length
    modifies out
    ensures out[..at + |s|] == old(out[..at]) + s
  {
    forall i | 0 <= i < |s| {
      out[at + i] := s[i];
    }
  }

  /** The six values of derive_transport_keys. */
  datatype KeySet = KeySet(c2sIv: Block, s2cIv: Block, c2sKey: Block, s2cKey: Block, c2sMac: Digest, s2cMac: Digest)

  function Keys(s: Suite, secret: Digest, sessionId: Digest): KeySet {
    var key := (selector: byte) => Key(s, secret, sessionId, selector, 16);
    var mac := (selector: byte) => Key(s, secret, sessionId, selector, 32);
    KeySet(key(65), key(66), key(67), key(68), mac(69), mac(70))
  }
}
