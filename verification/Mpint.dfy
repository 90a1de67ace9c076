/** Multiple-precision integers (section 5 of RFC 4251), from an unsigned big-endian byte string. */
module Mpint {
  import opened Octets
  import opened Wire

  function Trim(s: Bytes): Bytes {
    if s != [] && s[0] == 0 then Trim(s[1..]) else s
  }

  function Body(s: Bytes): Bytes {
    var t := Trim(s);
    if t != [] && t[0] >= 128 then [0] + t else t
  }

  function EncodeMpint(s: Bytes): Bytes
    requires |s| < 0xFFFF_FFFF
  {
    BodyLength(s);
    Str(Body(s))
  }

  lemma BodyLength(s: Bytes)
    ensures |Trim(s)| <= |s| && |Body(s)| <= |s| + 1
  {
  }

  /** The two's complement reading that section 5 of RFC 4251 gives a body. */
  function Signed(b: Bytes): int {
    if b != [] && b[0] >= 128 then Value(b) - Pow256(|b|) else Value(b)
  }

  lemma {:induction false} TrimValue(s: Bytes)
    ensures Value(Trim(s)) == Value(s)
    ensures Trim(s) != [] ==> Trim(s)[0] != 0
  {
    if s != [] && s[0] == 0 {
      ValueZeroHead(s[1..]);
      assert s == [0] + s[1..];
      TrimValue(s[1..]);
    }
  }

  lemma {:induction false} ValueZeroHead(t: Bytes)
    ensures Value([0] + t) == Value(t)
  {
    ValueAppend([0], t);
    ValueOfOne(0);
  }

  lemma {:induction false} ValueFirst(s: Bytes)
    requires s != []
    ensures s[0] * Pow256(|s| - 1) <= Value(s) < (s[0] + 1) * Pow256(|s| - 1)
  {
    var t := s[1..];
    assert s == [s[0]] + t;
    ValueAppend([s[0]], t);
    ValueBound(t);
    ValueOfOne(s[0]);
    assert (s[0] + 1) * Pow256(|t|) == s[0] * Pow256(|t|) + Pow256(|t|);
  }

  /** The encoding keeps the value, under the signed reading a peer applies; the sign bit is always clear. */
  lemma {:induction false} MpintKeepsValue(s: Bytes)
    ensures Signed(Body(s)) == Value(s) == Value(Body(s))
    ensures Body(s) != [] ==> Body(s)[0] < 128
  {
    TrimValue(s);
    ValueZeroHead(Trim(s));
  }

  /** Leading zeros go, and a zero is put in front of a byte from 128 on; zero itself has no bytes. */
  lemma {:induction false} MpintWritten(zeros: Bytes, rest: Bytes)
    requires |zeros + rest| < 0xFFFF_FFFF
    requires (forall i :: 0 <= i < |zeros| ==> zeros[i] == 0) && (rest != [] ==> rest[0] != 0)
    ensures EncodeMpint(zeros + rest) ==
            if rest == [] then [0, 0, 0, 0] else if rest[0] < 128 then Str(rest) else Str([0] + rest)
  {
    hide Str, EncodeMpint;
    TrimZeros(zeros, rest);
    EncodedBody(zeros + rest);
    if rest == [] {
      EmptyStr();
    }
  }

  lemma {:induction false} TrimZeros(zeros: Bytes, rest: Bytes)
    requires (forall i :: 0 <= i < |zeros| ==> zeros[i] == 0) && (rest != [] ==> rest[0] != 0)
    ensures Trim(zeros + rest) == rest
  {
    if zeros == [] {
      assert zeros + rest == rest;
    } else {
      TrimZeros(zeros[1..], rest);
      assert (zeros + rest)[1..] == zeros[1..] + rest;
    }
  }

  lemma {:induction false} EncodedBody(s: Bytes)
    requires |s| < 0xFFFF_FFFF
    ensures |Body(s)| < 0x1_0000_0000 && EncodeMpint(s) == Str(Body(s))
  {
    BodyLength(s);
  }

  lemma EmptyStr()
    ensures Str([]) == [0, 0, 0, 0]
  {
    U32Written(0);
  }

  /** No body that a peer would read as the same number is shorter. */
  lemma {:induction false} MpintMinimal(s: Bytes, b: Bytes)
    requires Signed(b) == Value(s)
    ensures |Body(s)| <= |b|
  {
    TrimValue(s);
    var t := Trim(s);
    if t != [] {
      ValueFirst(t);
      ValueBound(b);
      if b == [] {
        Pow256AtLeast(t[0], |t| - 1);
      } else {
        ValueFirst(b);
        Shortest(t, b);
      }
    }
  }

  lemma {:induction false} Pow256AtLeast(d: nat, k: nat)
    requires d >= 1
    ensures d * Pow256(k) >= Pow256(k) >= 1
  {
    assert (d - 1) * Pow256(k) >= 0;
  }

  lemma {:induction false} Pow256Monotone(a: nat, b: nat)
    requires a <= b
    ensures Pow256(a) <= Pow256(b)
    decreases b - a
  {
    if a < b {
      Pow256Monotone(a + 1, b);
    }
  }

  lemma {:induction false} Shortest(t: Bytes, b: Bytes)
    requires t != [] && t[0] != 0 && b != []
    requires t[0] * Pow256(|t| - 1) <= Value(t)
    requires Value(b) < (b[0] + 1) * Pow256(|b| - 1)
    requires Value(b) < Pow256(|b|)
    requires Signed(b) == Value(t)
    ensures if t[0] >= 128 then |t| < |b| else |t| <= |b|
  {
    var p, q := Pow256(|t| - 1), Pow256(|b| - 1);
    Pow256AtLeast(t[0], |t| - 1);
    assert b[0] < 128;
    MulMono(b[0] + 1, 128, q);
    if t[0] >= 128 {
      MulMono(128, t[0], p);
    }
    if |b| < |t| {
      Pow256Monotone(|b|, |t| - 1);
    }
  }

  /** Leading zeros of the input do not matter; more generally the encoding depends on the value alone. */
  lemma {:induction false} MpintCanonical(a: Bytes, b: Bytes)
    ensures Body(a) == Body(b) <==> Value(a) == Value(b)
  {
    MpintKeepsValue(a);
    MpintKeepsValue(b);
    if Value(a) == Value(b) {
      TrimValue(a);
      TrimValue(b);
      TrimmedEqual(Trim(a), Trim(b));
    }
  }

  lemma {:induction false} TrimmedEqual(s: Bytes, t: Bytes)
    requires Value(s) == Value(t)
    requires s != [] ==> s[0] != 0
    requires t != [] ==> t[0] != 0
    ensures s == t
  {
    if |s| < |t| {
      LongerIsLarger(s, t);
    } else if |t| < |s| {
      LongerIsLarger(t, s);
    } else {
      ToBytesOfValue(s);
      ToBytesOfValue(t);
    }
  }

  lemma {:induction false} LongerIsLarger(s: Bytes, t: Bytes)
    requires |s| < |t| && t[0] != 0
    ensures Value(s) < Value(t)
  {
    ValueBound(s);
    ValueFirst(t);
    Pow256AtLeast(t[0], |t| - 1);
    Pow256Monotone(|s|, |t| - 1);
  }

  /** Fixed-length inputs can be read back from the encoding. */
  lemma {:induction false} MpintInjective(a: Bytes, x: Bytes, b: Bytes, y: Bytes)
    requires |a| == |b| < 0xFFFF_FFFF
    requires EncodeMpint(a) + x == EncodeMpint(b) + y
    ensures a == b && x == y
  {
    BodyLength(a);
    BodyLength(b);
    StrSplits(Body(a), x, Body(b), y);
    MpintCanonical(a, b);
    ToBytesOfValue(a);
    ToBytesOfValue(b);
  }

  /** The index of the first byte that is not zero. */
  method SkipZeros(s: Bytes) returns (first: nat)
    ensures first <= |s| && s[first..] == Trim(s)
    ensures first < |s| ==> s[first] != 0
  {
    first := 0;
    while first < |s| && s[first] == 0
      invariant 0 <= first <= |s|
      invariant Trim(s[first..]) == Trim(s)
    {
      assert s[first..][1..] == s[first + 1..];
      first := first + 1;
    }
  }

  /** buf_append_mpint_be: skips the leading zeros, then writes the length, a zero if the sign bit is set, and the rest. */
  method AppendMpint(out: PayloadBuffer, s: Bytes) returns (ok: bool)
    requires out.Valid() && out.len + 5 + |s| <= UINT32_MAX
    modifies out, out.data
    ensures out.Valid()
    ensures ok == (old(out.len) + |EncodeMpint(s)| <= out.data.Length)
    ensures ok ==> out.Contents() == old(out.Contents()) + EncodeMpint(s)
  {
    BodyLength(s);
    var first := SkipZeros(s);
    if first == |s| {
      ok := out.AppendU32(0);
      assert EncodeMpint(s) == U32(0);
      return;
    }
    var t := s[first..];
    ghost var before := out.Contents();
    ok := AppendHead(out, t);
    if ok {
      ok := out.AppendRaw(t);
      MpintOf(s);
      assert ok ==> out.Contents() == before + Head(t) + t;
    }
  }

  /** Length field, and the zero byte that keeps the sign bit clear. */
  function Head(t: Bytes): Bytes
    requires 0 < |t| < 0xFFFF_FFFF
  {
    if t[0] >= 128 then U32(|t| + 1) + [0] else U32(|t|)
  }

  lemma {:induction false} MpintOf(s: Bytes)
    requires |s| < 0xFFFF_FFFF && Trim(s) != [] && |Trim(s)| <= |s|
    ensures forall before: Bytes :: before + Head(Trim(s)) + Trim(s) == before + EncodeMpint(s)
    ensures |EncodeMpint(s)| == |Head(Trim(s))| + |Trim(s)|
  {
    assert EncodeMpint(s) == Head(Trim(s)) + Trim(s);
  }

  method AppendHead(out: PayloadBuffer, t: Bytes) returns (ok: bool)
    requires out.Valid() && 0 < |t| && out.len + 5 + |t| <= UINT32_MAX
    modifies out, out.data
    ensures out.Valid()
    ensures ok ==> old(out.len) + |Head(t)| <= out.data.Length
    ensures !ok ==> old(out.len) + |Head(t)| > out.data.Length
    ensures ok ==> out.Contents() == old(out.Contents()) + Head(t)
  {
    if t[0] >= 128 {
      ok := out.AppendU32(|t| + 1);
      if ok {
        ok := out.AppendU8(0);
        assert ok ==> out.Contents() == old(out.Contents()) + (U32(|t| + 1) + [0]);
      }
    } else {
      ok := out.AppendU32(|t|);
    }
  }
}
