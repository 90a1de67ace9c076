/** SSH data types on the wire (section 5 of RFC 4251): strings, their reader, and the append-at-offset buffer. */
module Wire {
  import opened Octets
  import opened Wrappers

  const MAX_PACKET_LEN := 35000

  /** Long enough for every payload, short enough that adding a few lengths stays inside 32 bits. */
  type Field = s: Bytes | |s| <= 0x1000_0000

  function Str(s: Bytes): (b: Bytes)
    requires |s| < 0x1_0000_0000
    ensures |b| == 4 + |s|
  {
    U32(|s|) + s
  }

  function ReadU32(p: Bytes, off: nat): Option<uint32> {
    if off + 4 <= |p| then Some(U32At(p, off)) else None
  }

  /** A field and the offset just behind it. */
  datatype View = View(data: Bytes, next: nat)

  function ReadString(p: Bytes, off: nat): (v: Option<View>)
    ensures v.Some? ==> off + 4 <= v.value.next <= |p| && v.value.data == p[off + 4..v.value.next]
  {
    if off + 4 > |p| || off + 4 + U32At(p, off) > |p| then None
    else var next := off + 4 + U32At(p, off); Some(View(p[off + 4..next], next))
  }

  lemma {:induction false} U32AtOf(pre: Bytes, n: uint32, post: Bytes)
    ensures U32At(pre + U32(n) + post, |pre|) == n
    ensures ReadU32(pre + U32(n) + post, |pre|) == Some(n)
  {
    var p := pre + U32(n) + post;
    assert p[|pre|..|pre| + 4] == U32(n);
    ValueOfU32(n);
  }

  /** Reading at the offset where a string was written gives back that string, whatever surrounds it. */
  lemma {:induction false} ReadStringOfStr(pre: Bytes, s: Bytes, post: Bytes)
    requires |s| < 0x1_0000_0000
    ensures ReadString(pre + Str(s) + post, |pre|) == Some(View(s, |pre| + 4 + |s|))
  {
    var p := pre + Str(s) + post;
    assert p == pre + U32(|s|) + (s + post);
    U32AtOf(pre, |s|, s + post);
    assert p[|pre| + 4..|pre| + 4 + |s|] == s;
  }

  /** The same fact in the form a parser meets it: a packet known from the offset on. */
  lemma {:induction false} ReadStringFrom(p: Bytes, off: nat, s: Bytes, tail: Bytes)
    requires |s| < 0x1_0000_0000
    requires off <= |p| && p[off..] == Str(s) + tail
    ensures var next := off + 4 + |s|;
      next <= |p| && ReadString(p, off) == Some(View(s, next)) && p[next..] == tail
  {
    assert p == p[..off] + Str(s) + tail;
    ReadStringOfStr(p[..off], s, tail);
    assert p[off + 4 + |s|..] == p[off..][4 + |s|..];
  }

  lemma {:induction false} ReadU32From(p: Bytes, off: nat, n: uint32, tail: Bytes)
    requires off <= |p| && p[off..] == U32(n) + tail
    ensures off + 4 <= |p| && ReadU32(p, off) == Some(n) && p[off + 4..] == tail
  {
    assert p == p[..off] + U32(n) + tail;
    U32AtOf(p[..off], n, tail);
    assert p[off + 4..] == p[off..][4..];
  }

  /** A string is read exactly where its length and bytes are written. */
  lemma {:induction false} ReadStringExactly(p: Bytes, off: nat, s: Bytes)
    requires off <= |p| && |s| < 0x1_0000_0000
    ensures ReadString(p, off) == Some(View(s, off + 4 + |s|)) <==> Str(s) <= p[off..]
  {
    if Str(s) <= p[off..] {
      var tail := p[off..][4 + |s|..];
      assert p[off..] == Str(s) + tail;
      ReadStringFrom(p, off, s, tail);
    }
    if ReadString(p, off) == Some(View(s, off + 4 + |s|)) {
      ReadIsStr(p, off);
      assert p[off..][..4 + |s|] == p[off..off + 4 + |s|];
    }
  }

  lemma {:induction false} ReadU32Exactly(p: Bytes, off: nat, n: uint32)
    requires off <= |p|
    ensures ReadU32(p, off) == Some(n) <==> U32(n) <= p[off..]
  {
    if U32(n) <= p[off..] {
      assert p[off..] == U32(n) + p[off..][4..];
      ReadU32From(p, off, n, p[off..][4..]);
    }
    if ReadU32(p, off) == Some(n) {
      var w := p[off..off + 4];
      ToBytesOfValue(w);
      assert p[off..][..4] == w;
    }
  }

  /** A field that was read is encoded in the packet in exactly one way. */
  lemma {:induction false} ReadIsStr(p: Bytes, off: nat)
    requires ReadString(p, off).Some?
    ensures var v := ReadString(p, off).value;
      |v.data| < 0x1_0000_0000 && p[off..v.next] == Str(v.data)
  {
    var v := ReadString(p, off).value;
    var w := p[off..off + 4];
    ToBytesOfValue(w);
    assert p[off..v.next] == w + v.data;
  }

  /** A length-prefixed field is a prefix code: the field and everything behind it are determined by the bytes. */
  lemma {:induction false} StrSplits(a: Bytes, x: Bytes, b: Bytes, y: Bytes)
    requires |a| < 0x1_0000_0000 && |b| < 0x1_0000_0000
    requires Str(a) + x == Str(b) + y
    ensures a == b && x == y
  {
    assert U32(|a|) == (Str(a) + x)[..4] && U32(|b|) == (Str(b) + y)[..4];
    U32Injective(|a|, |b|);
    assert a == (Str(a) + x)[4..4 + |a|] && b == (Str(b) + y)[4..4 + |a|];
    assert x == (Str(a) + x)[4 + |a|..] && y == (Str(b) + y)[4 + |a|..];
  }

  // ----- the bounds check as the code writes it -----

  /** read_string_view's test: the sum of offset and length is a 32-bit sum. */
  predicate CodeAccepts(p: Bytes, off: nat) {
    off + 4 <= |p| && Wrap32(off + 4 + U32At(p, off)) <= |p|
  }

  /**
   * What the code accepts is a field inside the payload exactly when offset plus length does not wrap:
   * the test a caller can make beforehand, as the global-request handler does by subtracting.
   */
  lemma CodeAcceptsExactly(p: Bytes, off: nat)
    requires |p| < 0x1_0000_0000
    ensures CodeAccepts(p, off) && off + 4 + U32At(p, off) < 0x1_0000_0000 <==> ReadString(p, off).Some?
    ensures CodeAccepts(p, off) && off + 4 + U32At(p, off) >= 0x1_0000_0000 ==> ReadString(p, off).None?
  {
  }

  /** The family is not empty: four bytes of 255 announce a field far longer than the payload, and pass the test. */
  lemma WrappedLengthAccepted()
    ensures CodeAccepts([255, 255, 255, 255], 0) && ReadString([255, 255, 255, 255], 0).None?
  {
    var p: Bytes := [255, 255, 255, 255];
    U32AtShifts(p, 0);
  }

  // ----- append-at-offset buffers -----

  /** A fixed array with an in/out length, as every encoder of the code uses one. */
  class PayloadBuffer {
    const data: array<byte>
    var len: nat

    ghost predicate Valid()
      reads this
    {
      len <= data.Length <= UINT32_MAX
    }

    ghost function Contents(): Bytes
      requires Valid()
      reads this, data
    {
      data[..len]
    }

    constructor (capacity: nat)
      requires capacity <= UINT32_MAX
      ensures Valid() && fresh(data) && data.Length == capacity && Contents() == []
    {
      data := new byte[capacity](i => 0);
      len := 0;
    }

    /**
     * buf_append, as long as the sum of the lengths fits its 32 bits: copies the bytes behind the contents, or refuses and
     * changes nothing.
     */
    method AppendRaw(s: Bytes) returns (ok: bool)
      requires Valid() && len + |s| <= UINT32_MAX
      modifies this, data
      ensures Valid()
      ensures ok == (old(len) + |s| <= data.Length)
      ensures Contents() == if ok then old(Contents()) + s else old(Contents())
    {
      if len + |s| > data.Length {
        return false;
      }
      forall i | 0 <= i < |s| {
        data[len + i] := s[i];
      }
      len := len + |s|;
      assert Contents() == old(Contents()) + s;
      return true;
    }

    method AppendU8(value: byte) returns (ok: bool)
      requires Valid() && len + 1 <= UINT32_MAX
      modifies this, data
      ensures Valid()
      ensures ok == (old(len) + 1 <= data.Length)
      ensures Contents() == if ok then old(Contents()) + [value] else old(Contents())
    {
      ok := AppendRaw([value]);
    }

    method AppendU32(value: uint32) returns (ok: bool)
      requires Valid() && len + 4 <= UINT32_MAX
      modifies this, data
      ensures Valid()
      ensures ok == (old(len) + 4 <= data.Length)
      ensures Contents() == if ok then old(Contents()) + U32(value) else old(Contents())
    {
      ok := AppendRaw(U32(value));
    }

    method AppendString(s: Bytes) returns (ok: bool)
      requires Valid() && len + 4 + |s| <= UINT32_MAX
      modifies this, data
      ensures Valid()
      ensures ok == (old(len) + 4 + |s| <= data.Length)
      ensures Contents() == if ok then old(Contents()) + Str(s) else old(Contents())
    {
      if len + 4 + |s| > data.Length {
        return false;
      }
      ok := AppendU32(|s|);
      ok := AppendRaw(s);
      assert Contents() == old(Contents()) + U32(|s|) + s;
      assert Contents() == old(Contents()) + Str(s);
    }
  }
}
