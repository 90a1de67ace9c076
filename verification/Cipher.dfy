/** The primitives of the external crypto library, as functions, and what the code builds from AES: counter mode. */
module Cipher {
  import opened Octets
  import opened Wrappers

  type Block = b: Bytes | |b| == 16 witness seq(16, i => 0)
  type Digest = b: Bytes | |b| == 32 witness seq(32, i => 0)
  type Signature = b: Bytes | |b| == 64 witness seq(64, i => 0)

  /**
   * AES-128 on one block, HMAC-SHA-256, SHA-256, X25519, Ed25519, and the verification of RSA signatures: over SHA-256 or SHA-1,
   * with modulus, exponent, message and signature. A None from `dhShared` is the library's refusal.
   */
  datatype Suite = Suite(
    aes: (Block, Block) -> Block,
    hmac: (Digest, Bytes) -> Digest,
    sha: Bytes -> Digest,
    dhPublic: Digest -> Digest,
    dhShared: (Digest, Digest) -> Option<Digest>,
    edPublic: Digest -> Digest,
    edSign: (Digest, Bytes) -> Signature,
    edVerify: (Digest, Bytes, Signature) -> bool,
    rsaVerify: (bool, Bytes, Bytes, Bytes, Bytes) -> bool)
  {
    /** The two laws the protocol needs: both ends reach the same secret, and a signature verifies. */
    ghost predicate Lawful() {
      && (forall a, b :: dhShared(a, dhPublic(b)) == dhShared(b, dhPublic(a)))
      && (forall sk, m :: edVerify(edPublic(sk), m, edSign(sk, m)))
    }
  }

  // ----- the 16-byte counter -----

  /** The string read as a counter, n steps further on, modulo 256^|c|. */
  function Advance(c: Bytes, n: nat): (d: Bytes)
    ensures |d| == |c|
  {
    ToBytes(Value(c) + n, |c|)
  }

  /** The AES counter n blocks further on, modulo 2^128. */
  function CtrAdd(c: Block, n: nat): Block {
    Advance(c, n)
  }

  lemma {:induction false} ToBytesMod(n: nat, k: nat)
    ensures ToBytes(n % Pow256(k), k) == ToBytes(n, k)
  {
    ValueOfToBytes(n, k);
    ToBytesOfValue(ToBytes(n, k));
  }

  lemma {:induction false} AdvanceZero(c: Bytes)
    ensures Advance(c, 0) == c
  {
    ToBytesOfValue(c);
  }

  /** Increments compose. */
  lemma {:induction false} AdvanceAdvance(c: Bytes, m: nat, n: nat)
    ensures Advance(Advance(c, m), n) == Advance(c, m + n)
  {
    var v, p := Value(c) + m, Pow256(|c|);
    ValueOfToBytes(v, |c|);
    ToBytesMod(v % p + n, |c|);
    ToBytesMod(v + n, |c|);
    ModAdd(v, n, p);
  }

  lemma {:induction false} ModAdd(v: nat, n: nat, p: nat)
    requires p >= 1
    ensures (v % p + n) % p == (v + n) % p
  {
    var w := v % p + n;
    DivMod(w, p);
    DivMod(v, p);
    assert v + n == (v / p + w / p) * p + w % p;
    ModUnique(v + n, p, v / p + w / p, w % p);
  }

  /** Within one cycle, different distances give different counters. */
  lemma {:induction false} AdvanceInjective(c: Bytes, m: nat, n: nat)
    requires m < Pow256(|c|) && n < Pow256(|c|)
    requires Advance(c, m) == Advance(c, n)
    ensures m == n
  {
    AdvanceValue(c, m);
    AdvanceValue(c, n);
    ModEqual(Value(c), m, n, Pow256(|c|));
  }

  lemma {:induction false} AdvanceValue(c: Bytes, n: nat)
    ensures Value(Advance(c, n)) == (Value(c) + n) % Pow256(|c|)
  {
    var v := Value(c) + n;
    ValueOfToBytes(v, |c|);
  }

  lemma {:induction false} ModEqual(v: nat, m: nat, n: nat, p: nat)
    requires m < p && n < p && (v + m) % p == (v + n) % p
    ensures m == n
  {
    var i, j := (v + m) / p, (v + n) / p;
    DivMod(v + m, p);
    DivMod(v + n, p);
    MulDistributes(i - j, j, p);
    if i != j {
      MulGap(i - j, p);
    }
  }

  /** The bytes from k on already hold their part of was + n, and `carry` is what is still to be added above them. */
  ghost predicate AddedFrom(now: Bytes, was: Bytes, k: nat, n: nat, carry: nat) {
    && |now| == |was| && k <= |was| && now[..k] == was[..k]
    && Value(now[k..]) + carry * Pow256(|was| - k) == Value(was[k..]) + n
  }

  /** The carry loop: adds nBlocks to the counter in place, least significant byte first. */
  method CtrIncrementBlocks(counter: array<byte>, nBlocks: uint32)
    requires counter.Length == 16
    modifies counter
    ensures counter[..] == CtrAdd(old(counter[..]), nBlocks)
  {
    hide AddedFrom, Advance;
    ghost var was := counter[..];
    AddStart(was, nBlocks);
    var i := 15;
    var carry: uint64 := nBlocks;
    while i >= 0 && carry > 0
      invariant -1 <= i <= 15
      invariant carry < 0x1_0000_0000
      invariant AddedFrom(counter[..], was, i + 1, nBlocks, carry)
    {
      ghost var before := counter[..];
      CarryStep(before, was, i, nBlocks, carry);
      carry := carry + counter[i];
      counter[i] := carry % 256;
      carry := carry / 256;
      assert counter[..] == before[i := counter[i]];
      i := i - 1;
    }
    CounterSettled(counter[..], was, i + 1, nBlocks, carry);
  }

  lemma {:induction false} AddStart(was: Bytes, n: nat)
    ensures AddedFrom(was, was, |was|, n, n)
  {
    assert was[|was|..] == [];
  }

  /** One turn of the carry loop: the byte takes the low byte of the sum and the rest is carried. */
  lemma {:induction false} CarryStep(now: Bytes, was: Bytes, k: nat, n: nat, carry: nat)
    requires k < |was| && AddedFrom(now, was, k + 1, n, carry)
    ensures AddedFrom(now[k := (carry + now[k]) % 256], was, k, n, (carry + now[k]) / 256)
  {
    var sum, p := carry + now[k], Pow256(|was| - k - 1);
    var next := now[k := sum % 256];
    assert next[k..] == [sum % 256] + now[k + 1..];
    assert was[k..] == [now[k]] + was[k + 1..];
    ValueAppend([sum % 256], now[k + 1..]);
    ValueAppend([now[k]], was[k + 1..]);
    ValueOfOne(sum % 256);
    ValueOfOne(now[k]);
    CarryArithmetic(sum, p);
    MulDistributes(carry, now[k], p);
    assert next[..k] == was[..k] by { assert now[..k] == now[..k + 1][..k]; }
  }

  lemma {:induction false} CarryArithmetic(sum: nat, p: nat)
    ensures sum % 256 * p + sum / 256 * (256 * p) == sum * p
  {
    MulDistributes(sum % 256, sum / 256 * 256, p);
    MulAssociates(sum / 256, 256, p);
  }

  lemma {:induction false} MulDistributes(a: int, b: int, p: int)
    ensures (a + b) * p == a * p + b * p
  {
  }

  lemma {:induction false} MulAssociates(a: int, b: int, p: int)
    ensures a * b * p == a * (b * p)
  {
  }

  /** When the loop stops, either the carry is spent or every byte was visited. */
  lemma {:induction false} CounterSettled(now: Bytes, was: Bytes, k: nat, n: nat, carry: nat)
    requires AddedFrom(now, was, k, n, carry)
    requires k == 0 || carry == 0
    ensures now == Advance(was, n)
  {
    JoinedValue(now, k);
    JoinedValue(was, k);
    SumSettled(Value(now), Value(was), n, carry, now, |was|);
  }

  lemma {:induction false} JoinedValue(s: Bytes, k: nat)
    requires k <= |s|
    ensures Value(s) == Value(s[..k]) * Pow256(|s| - k) + Value(s[k..])
  {
    assert s == s[..k] + s[k..];
    ValueAppend(s[..k], s[k..]);
  }

  lemma {:induction false} SumSettled(v: nat, w: nat, n: nat, carry: nat, now: Bytes, len: nat)
    requires v + carry * Pow256(len) == w + n && v == Value(now) && len == |now|
    ensures now == ToBytes(w + n, len)
  {
    ValueBound(now);
    ModUnique(w + n, Pow256(len), carry, v);
    ToBytesMod(w + n, len);
    ToBytesOfValue(now);
  }

  // ----- counter mode -----

  /** Exclusive or of the n low-order bits. */
  function XorBits(a: nat, b: nat, n: nat): nat {
    if n == 0 then 0 else (a + b) % 2 + 2 * XorBits(a / 2, b / 2, n - 1)
  }

  function Pow2(n: nat): (p: nat)
    ensures p >= 1
  {
    if n == 0 then 1 else 2 * Pow2(n - 1)
  }

  lemma {:induction false} XorBitsTwice(a: nat, k: nat, n: nat)
    requires a < Pow2(n)
    ensures XorBits(a, k, n) < Pow2(n)
    ensures XorBits(XorBits(a, k, n), k, n) == a
  {
    if n > 0 {
      var h := XorBits(a / 2, k / 2, n - 1);
      XorBitsTwice(a / 2, k / 2, n - 1);
      XorOneBit(a, k, h);
    }
  }

  lemma {:induction false} XorOneBit(a: nat, k: nat, h: nat)
    ensures var x := (a + k) % 2 + 2 * h;
      x / 2 == h && (x + k) % 2 == a % 2
  {
  }

  function Xor(a: byte, b: byte): byte {
    XorBitsTwice(a, b, 8);
    XorBits(a, b, 8)
  }

  lemma {:induction false} XorTwice(a: byte, k: byte)
    ensures Xor(Xor(a, k), k) == a
  {
    XorBitsTwice(a, k, 8);
  }

  /** Bit k of a number, the lowest being bit 0. */
  function Bit(a: nat, k: nat): nat {
    a / Pow2(k) % 2
  }

  lemma {:induction false} BitOfHalf(a: nat, k: nat)
    ensures Bit(a, 0) == a % 2 && (k > 0 ==> Bit(a, k) == Bit(a / 2, k - 1))
  {
    if k > 0 {
      DivTwice(a, Pow2(k - 1));
    }
  }

  lemma {:induction false} DivTwice(a: nat, p: nat)
    requires p > 0
    ensures a / 2 / p == a / (2 * p)
  {
    var b, e := a / 2, a % 2;
    var q, r := b / p, b % p;
    DivMod(b, p);
    Doubled(a, b, e, p, q, r);
    ModUnique(a, 2 * p, q, 2 * r + e);
  }

  lemma {:induction false} Doubled(a: nat, b: nat, e: nat, p: nat, q: nat, r: nat)
    requires a == 2 * b + e && b == q * p + r
    ensures a == q * (2 * p) + (2 * r + e)
  {
  }

  lemma {:induction false} XorBitAt(a: nat, b: nat, n: nat, k: nat)
    requires k < n
    ensures Bit(XorBits(a, b, n), k) == if Bit(a, k) == Bit(b, k) then 0 else 1
  {
    hide Bit;
    var h := XorBits(a / 2, b / 2, n - 1);
    FirstBit(a, b, h);
    BitOfHalf((a + b) % 2 + 2 * h, k);
    BitOfHalf(a, k);
    BitOfHalf(b, k);
    if k > 0 {
      XorBitAt(a / 2, b / 2, n - 1, k - 1);
    }
  }

  lemma FirstBit(a: nat, b: nat, h: nat)
    ensures var x := (a + b) % 2 + 2 * h;
      x / 2 == h && x % 2 == if a % 2 == b % 2 then 0 else 1
  {
  }

  /** Exclusive or, bit by bit. */
  lemma {:induction false} XorWritten(a: byte, b: byte, k: nat)
    requires k < 8
    ensures Bit(Xor(a, b), k) == if Bit(a, k) == Bit(b, k) then 0 else 1
  {
    XorBitAt(a, b, 8, k);
  }

  /** Byte i of the key stream that starts at the given counter. */
  function KeyStream(s: Suite, key: Block, counter: Block, i: nat): byte {
    s.aes(key, CtrAdd(counter, i / 16))[i % 16]
  }

  /** noxtls_aes_encrypt_ctr: encryption and decryption are the same operation, and it leaves the counter alone. */
  function Ctr(s: Suite, key: Block, data: Bytes, counter: Block): (out: Bytes)
    ensures |out| == |data|
  {
    seq(|data|, i requires 0 <= i < |data| => Xor(data[i], KeyStream(s, key, counter, i)))
  }

  /** Byte i of the output: the data byte against byte i % 16 of the cipher applied to the counter i / 16 blocks further on. */
  lemma {:induction false} CtrWritten(s: Suite, key: Block, data: Bytes, counter: Block, i: nat)
    requires i < |data|
    ensures var c: Block := ToBytes(Value(counter) + i / 16, 16);
      Ctr(s, key, data, counter)[i] == Xor(data[i], s.aes(key, c)[i % 16])
  {
  }

  lemma {:induction false} CtrTwice(s: Suite, key: Block, data: Bytes, counter: Block)
    ensures Ctr(s, key, Ctr(s, key, data, counter), counter) == data
  {
    var once := Ctr(s, key, data, counter);
    forall i | 0 <= i < |data|
      ensures Ctr(s, key, once, counter)[i] == data[i]
    {
      XorTwice(data[i], KeyStream(s, key, counter, i));
    }
  }

  /** One-shot CTR equals CTR on the first n blocks followed by CTR on the rest, n blocks further on. */
  lemma {:induction false} CtrSplit(s: Suite, key: Block, data: Bytes, counter: Block, n: nat)
    requires 16 * n <= |data|
    ensures Ctr(s, key, data, counter)
         == Ctr(s, key, data[..16 * n], counter) + Ctr(s, key, data[16 * n..], CtrAdd(counter, n))
  {
    hide Xor, Advance;
    var k := 16 * n;
    var whole, tail := Ctr(s, key, data, counter), Ctr(s, key, data[k..], CtrAdd(counter, n));
    forall i | k <= i < |data|
      ensures whole[i] == tail[i - k]
    {
      assert i / 16 == n + (i - k) / 16 && i % 16 == (i - k) % 16;
      AdvanceAdvance(counter, n, (i - k) / 16);
    }
  }
}
