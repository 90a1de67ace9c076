/** Bytes, 32-bit integers and the big-endian reading of a byte string. */
module Octets {

  type byte = x: int | 0 <= x < 256
  type Bytes = seq<byte>
  type uint32 = x: int | 0 <= x < 0x1_0000_0000
  type uint64 = x: int | 0 <= x < 0x1_0000_0000_0000_0000

  const UINT32_MAX: uint32 := 0xFFFF_FFFF
  const UINT64_MAX: uint64 := 0xFFFF_FFFF_FFFF_FFFF

  /** The bytes of a C string literal; the literals of this project are ASCII. */
  function Ascii(s: string): (b: Bytes)
    ensures |b| == |s|
    ensures forall i :: 0 <= i < |s| ==> b[i] == s[i] as int % 256
  {
    seq(|s|, i requires 0 <= i < |s| => s[i] as int % 256)
  }

  function Wrap32(n: int): uint32 {
    n % 0x1_0000_0000
  }

  // ----- big-endian values -----

  function Pow256(k: nat): (p: nat)
    ensures p >= 1
  {
    if k == 0 then 1 else 256 * Pow256(k - 1)
  }

  /** The unsigned integer a byte string denotes, most significant byte first. */
  function Value(s: Bytes): nat {
    if s == [] then 0 else Value(s[..|s| - 1]) * 256 + s[|s| - 1]
  }

  /** The k low-order bytes of n, most significant first. */
  function ToBytes(n: nat, k: nat): (b: Bytes)
    ensures |b| == k
  {
    if k == 0 then [] else ToBytes(n / 256, k - 1) + [n % 256]
  }

  lemma {:induction false} Pow256Add(a: nat, b: nat)
    ensures Pow256(a + b) == Pow256(a) * Pow256(b)
  {
    if b > 0 {
      Pow256Add(a, b - 1);
      MulSwap(256, Pow256(a), Pow256(b - 1));
    }
  }

  lemma {:induction false} MulSwap(x: int, y: int, z: int)
    ensures x * (y * z) == y * (x * z)
  {
  }

  lemma {:induction false} ValueBound(s: Bytes)
    ensures Value(s) < Pow256(|s|)
  {
    if s != [] {
      ValueBound(s[..|s| - 1]);
    }
  }

  lemma {:induction false} ValueAppend(a: Bytes, b: Bytes)
    ensures Value(a + b) == Value(a) * Pow256(|b|) + Value(b)
  {
    if b == [] {
      assert a + b == a;
    } else {
      var b' := b[..|b| - 1];
      assert (a + b)[..|a + b| - 1] == a + b';
      ValueAppend(a, b');
      assert Value(a) * Pow256(|b|) == Value(a) * Pow256(|b'|) * 256 by {
        assert Value(a) * (256 * Pow256(|b'|)) == Value(a) * Pow256(|b'|) * 256;
      }
    }
  }

  /** ToBytes inverts Value on strings of the given length. */
  lemma {:induction false} ToBytesOfValue(s: Bytes)
    ensures ToBytes(Value(s), |s|) == s
  {
    if s != [] {
      ToBytesOfValue(s[..|s| - 1]);
    }
  }

  /** Value inverts ToBytes, up to the truncation to k bytes. */
  lemma {:induction false} ValueOfToBytes(n: nat, k: nat)
    ensures Value(ToBytes(n, k)) == n % Pow256(k)
  {
    if k > 0 {
      var q, p := n / 256, Pow256(k - 1);
      ValueOfToBytes(q, k - 1);
      assert ToBytes(n, k)[..k - 1] == ToBytes(q, k - 1);
      ModMul(n, p);
    }
  }

  lemma {:induction false} ModMul(n: nat, p: nat)
    requires p >= 1
    ensures n % (256 * p) == n / 256 % p * 256 + n % 256
  {
    var q := n / 256;
    var r := q % p * 256 + n % 256;
    DivMod(q, p);
    assert n == 256 * (q / p * p + q % p) + n % 256;
    assert n == q / p * (256 * p) + r by {
      assert 256 * (q / p * p) == q / p * (256 * p);
    }
    ModUnique(n, 256 * p, q / p, r);
  }

  lemma {:induction false} DivMod(n: nat, d: nat)
    requires d >= 1
    ensures n == n / d * d + n % d
  {
  }

  lemma {:induction false} ModUnique(n: nat, d: nat, q: int, r: int)
    requires d >= 1 && 0 <= r < d && n == q * d + r
    ensures n % d == r
  {
    DivMod(n, d);
    assert (q - n / d) * d == n % d - r;
    if q != n / d {
      MulGap(q - n / d, d);
    }
  }

  lemma {:induction false} MulGap(k: int, d: int)
    requires k != 0 && d >= 0
    ensures k * d >= d || k * d <= -d
  {
    assert k >= 1 ==> (k - 1) * d >= 0;
    assert k <= -1 ==> (k + 1) * d <= 0;
  }

  lemma {:induction false} ValueOfOne(b: byte)
    ensures Value([b]) == b
  {
    assert [b][..0] == [];
  }

  lemma MulMono(a: int, b: int, d: nat)
    requires a <= b
    ensures a * d <= b * d
  {
    assert (b - a) * d >= 0;
  }

  // ----- 32-bit words -----

  /** Four bytes, most significant first. */
  function U32(n: uint32): (b: Bytes)
    ensures |b| == 4
  {
    ToBytes(n, 4)
  }

  function U32At(p: Bytes, off: nat): uint32
    requires off + 4 <= |p|
  {
    WordBound(p[off..off + 4]);
    Value(p[off..off + 4])
  }

  lemma {:induction false} WordBound(w: Bytes)
    requires |w| == 4
    ensures Value(w) < 0x1_0000_0000
  {
    ValueBound(w);
    assert Pow256(4) == 0x1_0000_0000;
  }

  /** The shifts of read_u32_be. */
  lemma U32AtShifts(p: Bytes, off: nat)
    requires off + 4 <= |p|
    ensures U32At(p, off) as int
         == (p[off] as int) * 0x100_0000 + (p[off + 1] as int) * 0x1_0000 + (p[off + 2] as int) * 0x100 + p[off + 3] as int
  {
    var w := p[off..off + 4];
    assert w[..3][..2] == w[..2] && w[..2][..1] == w[..1] && w[..1][..0] == [];
    assert Value(w[..1]) == w[0] as int;
    assert Value(w[..2]) == (w[0] as int) * 256 + w[1] as int;
    assert Value(w[..3]) == Value(w[..2]) * 256 + w[2] as int;
  }

  lemma {:induction false} ValueOfU32(n: uint32)
    ensures Value(U32(n)) == n
  {
    ValueOfToBytes(n, 4);
    assert Pow256(4) == 0x1_0000_0000;
  }

  lemma U32Injective(m: uint32, n: uint32)
    requires U32(m) == U32(n)
    ensures m == n
  {
    ValueOfU32(m);
    ValueOfU32(n);
  }

  /** The shifts and masks of write_u32_be. */
  lemma U32Written(n: uint32)
    ensures U32(n) == [n / 0x100_0000, n / 0x1_0000 % 0x100, n / 0x100 % 0x100, n % 0x100]
  {
    var a := n / 256;
    var b := a / 256;
    assert ToBytes(n, 4) == ToBytes(a, 3) + [n % 256] && ToBytes(a, 3) == ToBytes(b, 2) + [a % 256];
    assert ToBytes(b, 2) == ToBytes(b / 256, 1) + [b % 256] && ToBytes(b / 256, 1) == [] + [b / 256 % 256];
  }

  /** Two parts, one behind the other, begin a string exactly when the second begins what is behind the first. */
  lemma PrefixSplit<T>(a: seq<T>, b: seq<T>, q: seq<T>)
    ensures a + b <= q <==> a <= q && b <= q[|a|..]
  {
    if a + b <= q {
      assert (a + b)[..|a|] == a && (a + b)[|a|..] == b;
      assert q[..|a|] == (a + b)[..|a|] && q[|a|..|a| + |b|] == (a + b)[|a|..];
    }
    if a <= q && b <= q[|a|..] {
      assert q == a + q[|a|..] && q[|a|..] == b + q[|a|..][|b|..];
      assert q == (a + b) + q[|a|..][|b|..];
    }
  }

  lemma Regroup<T>(a: seq<T>, b: seq<T>, c: seq<T>)
    ensures a + b + c == a + (b + c)
  {
  }
}
