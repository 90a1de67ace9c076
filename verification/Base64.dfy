/** The three pieces of base64 in the repository (section 4 of RFC 4648): the daemon's encoder and key decoder, the client's decoder. */
module Base64 {
  import opened Octets
  import opened Wrappers
  import opened Cipher
  import UserAuth

  const PAD: byte := 61
  const BLOB_LEN := 51
  const TEXT_LEN := 68

  type Sextet = v: int | 0 <= v < 64

  // ----- the alphabet -----

  /** b64val and noxssh_base64_val. */
  function Val(c: byte): (v: Option<Sextet>) {
    if 65 <= c <= 90 then Some(c - 65)
    else if 97 <= c <= 122 then Some(c - 97 + 26)
    else if 48 <= c <= 57 then Some(c - 48 + 52)
    else if c == 43 then Some(62)
    else if c == 47 then Some(63)
    else None
  }

  /** The character table of the encoder: capital letters, small letters, digits, plus and slash. */
  function Alphabet(): (a: Bytes)
    ensures |a| == 64 && forall v :: 0 <= v < 64 ==> a[v] == Digit(v)
  {
    seq(26, i => 65 + i) + seq(26, i => 97 + i) + seq(10, i => 48 + i) + [43, 47]
  }

  function Digit(v: Sextet): byte {
    if v < 26 then v + 65 else if v < 52 then v - 26 + 97 else if v < 62 then v - 52 + 48 else if v == 62 then 43 else 47
  }

  /** Value and character determine each other; the padding character has no value. */
  lemma DigitVal(v: Sextet, c: byte)
    ensures Val(c) == Some(v) <==> c == Digit(v)
    ensures Val(PAD) == None && Digit(v) != PAD
  {
  }

  // ----- the standard encoding -----

  /** Three bytes as four six-bit numbers, and back. */
  function S0(x: byte): Sextet {
    x / 4
  }

  function S1(x: byte, y: byte): Sextet {
    x % 4 * 16 + y / 16
  }

  function S2(y: byte, z: byte): Sextet {
    y % 16 * 4 + z / 64
  }

  function S3(z: byte): Sextet {
    z % 64
  }

  function B0(v0: Sextet, v1: Sextet): byte {
    v0 * 4 + v1 / 16
  }

  function B1(v1: Sextet, v2: Sextet): byte {
    v1 % 16 * 16 + v2 / 4
  }

  function B2(v2: Sextet, v3: Sextet): byte {
    v2 % 4 * 64 + v3
  }

  lemma BytesOfSextets(x: byte, y: byte, z: byte)
    ensures B0(S0(x), S1(x, y)) == x && B1(S1(x, y), S2(y, z)) == y && B2(S2(y, z), S3(z)) == z
  {
  }

  lemma SextetsOfBytes(v0: Sextet, v1: Sextet, v2: Sextet, v3: Sextet)
    ensures var x, y, z := B0(v0, v1), B1(v1, v2), B2(v2, v3);
      S0(x) == v0 && S1(x, y) == v1 && S2(y, z) == v2 && S3(z) == v3
  {
  }

  function Three(x: byte, y: byte, z: byte): (t: Bytes)
    ensures |t| == 4
  {
    [Digit(S0(x)), Digit(S1(x, y)), Digit(S2(y, z)), Digit(S3(z))]
  }

  /** The last group for one byte and for two, with padding. */
  function LastOne(x: byte): (t: Bytes)
    ensures |t| == 4
  {
    Three(x, 0, 0)[2 := PAD][3 := PAD]
  }

  function LastTwo(x: byte, y: byte): (t: Bytes)
    ensures |t| == 4
  {
    Three(x, y, 0)[3 := PAD]
  }

  /** Padded base64 of any byte string. */
  function Encode(data: Bytes): Bytes
    decreases |data|
  {
    if data == [] then []
    else if |data| == 1 then LastOne(data[0])
    else if |data| == 2 then LastTwo(data[0], data[1])
    else Three(data[0], data[1], data[2]) + Encode(data[3..])
  }

  lemma {:induction false} EncodedLength(data: Bytes)
    ensures |Encode(data)| == (|data| + 2) / 3 * 4
    decreases |data|
  {
    hide Three, LastOne, LastTwo;
    if |data| >= 3 {
      EncodedLength(data[3..]);
    }
  }

  /** The characters, and what they stand for. */
  lemma DigitWritten(v: Sextet)
    ensures Alphabet()[v] == Digit(v) ==
      if v < 26 then 'A' as int + v else if v < 52 then 'a' as int + (v - 26) else if v < 62 then '0' as int + (v - 52)
      else if v == 62 then '+' as int else '/' as int
    ensures Val(Digit(v)) == Some(v)
  {
  }

  // The encoding, group by group: 24 bits as four digits; 16 or 8 bits with zero bits behind them, and '=' for missing digits.

  lemma {:induction false} ThreeWritten(x: byte, y: byte, z: byte, rest: Bytes)
    ensures var w := x * 65536 + y * 256 + z;
      Encode([x, y, z] + rest) == [Digit(w / 262144), Digit(w / 4096 % 64), Digit(w / 64 % 64), Digit(w % 64)] + Encode(rest)
  {
    hide Digit, Encode;
    ByteWord(x, y, z);
    WordSextets(x * 65536 + y * 256 + z, S0(x), S1(x, y), S2(y, z), S3(z));
    assert ([x, y, z] + rest)[3..] == rest;
    EncodeThree([x, y, z] + rest);
  }

  lemma {:induction false} TwoWritten(x: byte, y: byte)
    ensures var w := x * 256 + y;
      Encode([x, y]) == [Digit(w / 1024), Digit(w / 16 % 64), Digit(w % 16 * 4), '=' as int]
  {
    hide Digit, Encode;
    WordOfTwo(x, y);
    EncodeTwo(x, y);
  }

  lemma {:induction false} OneWritten(x: byte)
    ensures Encode([x]) == [Digit(x / 4), Digit(x % 4 * 16), '=' as int, '=' as int] && Encode([]) == []
  {
    hide Digit;
    EncodeOne(x);
  }

  lemma WordOfTwo(x: byte, y: byte)
    ensures var w := x * 256 + y;
      S0(x) == w / 1024 && S1(x, y) == w / 16 % 64 && S2(y, 0) == w % 16 * 4
  {
    var w := x * 256 + y;
    assert w == 1024 * S0(x) + 16 * S1(x, y) + y % 16;
    assert w / 16 == 64 * S0(x) + S1(x, y);
  }

  // ----- decoding -----

  /** One group, as the client's decoder reads it. A third character of padding counts as 63 for a fourth that is none. */
  function Group(c0: byte, c1: byte, c2: byte, c3: byte): Option<Bytes> {
    var v0, v1 := Val(c0), Val(c1);
    if v0.None? || v1.None? || (c2 != PAD && Val(c2).None?) || (c3 != PAD && Val(c3).None?) then None
    else
      var v2: Sextet := if c2 == PAD then 63 else Val(c2).value;
      var b0 := B0(v0.value, v1.value);
      Some(if c3 == PAD then (if c2 == PAD then [b0] else [b0, B1(v1.value, v2)])
           else if c2 == PAD then [b0, B2(v2, Val(c3).value)]
           else [b0, B1(v1.value, v2), B2(v2, Val(c3).value)])
  }

  /** The client's decoder, on text of any length. */
  function Decode(text: Bytes): Option<Bytes>
    decreases |text|
  {
    if text == [] then Some([])
    else if |text| < 4 then None
    else
      match Group(text[0], text[1], text[2], text[3])
      case None => None
      case Some(bytes) =>
        match Decode(text[4..])
        case None => None
        case Some(rest) => Some(bytes + rest)
  }

  lemma {:induction false} GroupOfDigits(v0: Sextet, v1: Sextet, v2: Sextet, v3: Sextet)
    ensures Group(Digit(v0), Digit(v1), Digit(v2), Digit(v3)) == Some([B0(v0, v1), B1(v1, v2), B2(v2, v3)])
    ensures Group(Digit(v0), Digit(v1), Digit(v2), PAD) == Some([B0(v0, v1), B1(v1, v2)])
    ensures Group(Digit(v0), Digit(v1), PAD, PAD) == Some([B0(v0, v1)])
  {
    DigitVal(v0, Digit(v0));
    DigitVal(v1, Digit(v1));
    DigitVal(v2, Digit(v2));
    DigitVal(v3, Digit(v3));
  }

  lemma {:induction false} GroupOfThree(x: byte, y: byte, z: byte)
    ensures var t := Three(x, y, z);
      && Group(t[0], t[1], t[2], t[3]) == Some([x, y, z])
      && Group(t[0], t[1], t[2], PAD) == Some([x, y])
      && Group(t[0], t[1], PAD, PAD) == Some([x])
  {
    GroupOfDigits(S0(x), S1(x, y), S2(y, z), S3(z));
    BytesOfSextets(x, y, z);
  }

  lemma {:induction false} DecodeFour(text: Bytes)
    requires |text| >= 4
    ensures var g, rest := Group(text[0], text[1], text[2], text[3]), Decode(text[4..]);
      Decode(text) == if g.Some? && rest.Some? then Some(g.value + rest.value) else None
  {
  }

  lemma {:induction false} EncodeThree(data: Bytes)
    requires |data| >= 3
    ensures Encode(data) == Three(data[0], data[1], data[2]) + Encode(data[3..])
  {
  }

  lemma {:induction false} DecodeLast(text: Bytes, bytes: Bytes)
    requires |text| == 4 && Group(text[0], text[1], text[2], text[3]) == Some(bytes)
    ensures Decode(text) == Some(bytes)
  {
    DecodeFour(text);
    assert text[4..] == [] && bytes + [] == bytes;
  }

  lemma {:induction false} DecodeFirst(text: Bytes, bytes: Bytes, tail: Bytes, rest: Bytes)
    requires |text| == 4 && Group(text[0], text[1], text[2], text[3]) == Some(bytes) && Decode(tail) == Some(rest)
    ensures Decode(text + tail) == Some(bytes + rest)
  {
    DecodeFour(text + tail);
    assert (text + tail)[4..] == tail;
  }

  lemma {:induction false} EncodeOne(x: byte)
    ensures Encode([x]) == [Digit(S0(x)), Digit(S1(x, 0)), PAD, PAD]
  {
  }

  lemma {:induction false} EncodeTwo(x: byte, y: byte)
    ensures Encode([x, y]) == [Digit(S0(x)), Digit(S1(x, y)), Digit(S2(y, 0)), PAD]
  {
  }

  lemma {:induction false} DecodeOfShort(x: byte, y: byte)
    ensures Decode(Encode([x])) == Some([x]) && Decode(Encode([x, y])) == Some([x, y])
  {
    EncodeOne(x);
    EncodeTwo(x, y);
    GroupOfThree(x, 0, 0);
    GroupOfThree(x, y, 0);
    DecodeLast(Encode([x]), [x]);
    DecodeLast(Encode([x, y]), [x, y]);
  }

  /** The client's decoder inverts the standard encoding of every byte string. */
  lemma {:induction false} DecodeOfEncode(data: Bytes)
    ensures Decode(Encode(data)) == Some(data)
    decreases |data|
  {
    if |data| >= 3 {
      DecodeOfEncode(data[3..]);
      DecodeOfThree(data);
    } else if data != [] {
      DecodeOfShort(data[0], if |data| == 2 then data[1] else 0);
      assert data == if |data| == 1 then [data[0]] else [data[0], data[1]];
    }
  }

  lemma {:induction false} DecodeOfThree(data: Bytes)
    requires |data| >= 3 && Decode(Encode(data[3..])) == Some(data[3..])
    ensures Decode(Encode(data)) == Some(data)
  {
    EncodeThree(data);
    GroupOfThree(data[0], data[1], data[2]);
    DecodeFirst(Three(data[0], data[1], data[2]), [data[0], data[1], data[2]], Encode(data[3..]), data[3..]);
    assert data == [data[0], data[1], data[2]] + data[3..];
  }

  // ----- what the client's decoder accepts beyond that -----

  /** A group as the standard writes it: no padding, or padding at the end over bits that are zero. */
  predicate Canonical4(c0: byte, c1: byte, c2: byte, c3: byte, last: bool) {
    && Val(c0).Some? && Val(c1).Some?
    && if c2 == PAD then last && c3 == PAD && Val(c1).value % 16 == 0
       else Val(c2).Some? && if c3 == PAD then last && Val(c2).value % 4 == 0 else Val(c3).Some?
  }

  predicate Canonical(text: Bytes)
    decreases |text|
  {
    text == [] || (
      && |text| >= 4
      && Canonical4(text[0], text[1], text[2], text[3], |text| == 4)
      && Canonical(text[4..]))
  }

  /** A digit behind padding is accepted, and decodes to a second byte, although nothing encodes to such a text. */
  lemma {:induction false} LaxGroup(c0: byte, c1: byte, c3: byte)
    requires Val(c0).Some? && Val(c1).Some? && Val(c3).Some?
    ensures var text := [c0, c1, PAD, c3];
      Decode(text) == Some([B0(Val(c0).value, Val(c1).value), B2(63, Val(c3).value)]) && !Canonical(text)
  {
    DigitVal(Val(c3).value, c3);
    var text := [c0, c1, PAD, c3];
    DecodeLast(text, [B0(Val(c0).value, Val(c1).value), B2(63, Val(c3).value)]);
  }

  /** Taken apart, a group without padding gives back its characters. */
  lemma {:induction false} FullGroup(c0: byte, c1: byte, c2: byte, c3: byte)
    requires Val(c0).Some? && Val(c1).Some? && Val(c2).Some? && Val(c3).Some?
    ensures Group(c0, c1, c2, c3).Some?
    ensures var b := Group(c0, c1, c2, c3).value; |b| == 3 && Three(b[0], b[1], b[2]) == [c0, c1, c2, c3]
  {
    var v0, v1, v2, v3 := Val(c0).value, Val(c1).value, Val(c2).value, Val(c3).value;
    DigitVal(v0, c0);
    DigitVal(v1, c1);
    DigitVal(v2, c2);
    DigitVal(v3, c3);
    SextetsOfBytes(v0, v1, v2, v3);
  }

  /** Every text the standard encoding produces is canonical. */
  lemma {:induction false} EncodeIsCanonical(data: Bytes)
    ensures Canonical(Encode(data))
    decreases |data|
  {
    var text := Encode(data);
    if 1 <= |data| <= 2 {
      var y := if |data| == 2 then data[1] else 0;
      LastIsCanonical(data[0], y);
      assert text[4..] == [];
    } else if data != [] {
      EncodeThree(data);
      EncodeIsCanonical(data[3..]);
      ThreeIsCanonical(data[0], data[1], data[2]);
      CanonicalFirst(Three(data[0], data[1], data[2]), Encode(data[3..]));
    }
  }

  lemma {:induction false} ThreeIsCanonical(x: byte, y: byte, z: byte)
    ensures var t := Three(x, y, z); forall last :: Canonical4(t[0], t[1], t[2], t[3], last)
  {
    DigitVal(S0(x), Digit(S0(x)));
    DigitVal(S1(x, y), Digit(S1(x, y)));
    DigitVal(S2(y, z), Digit(S2(y, z)));
    DigitVal(S3(z), Digit(S3(z)));
  }

  lemma SpareBits(x: byte, y: byte)
    ensures S1(x, 0) % 16 == 0 && S2(y, 0) % 4 == 0
  {
  }

  lemma {:induction false} LastIsCanonical(x: byte, y: byte)
    ensures Canonical4(Digit(S0(x)), Digit(S1(x, y)), Digit(S2(y, 0)), PAD, true)
    ensures Canonical4(Digit(S0(x)), Digit(S1(x, 0)), PAD, PAD, true)
  {
    SpareBits(x, y);
    DigitVal(S0(x), Digit(S0(x)));
    DigitVal(S1(x, y), Digit(S1(x, y)));
    DigitVal(S1(x, 0), Digit(S1(x, 0)));
    DigitVal(S2(y, 0), Digit(S2(y, 0)));
  }

  lemma {:induction false} CanonicalFirst(first: Bytes, rest: Bytes)
    requires |first| == 4
    ensures Canonical(first + rest) <==> Canonical4(first[0], first[1], first[2], first[3], rest == []) && Canonical(rest)
  {
    assert (first + rest)[4..] == rest;
  }

  /** A canonical text is the encoding of what it decodes to. */
  lemma {:induction false} CanonicalBack(text: Bytes)
    requires Canonical(text)
    ensures Decode(text).Some? && Encode(Decode(text).value) == text
    decreases |text|
  {
    if text != [] {
      var first, rest := text[..4], text[4..];
      assert text == first + rest;
      CanonicalFirst(first, rest);
      CanonicalBack(rest);
      if first[3] == PAD {
        LastBack(first[0], first[1], first[2]);
        assert text == first && first == [first[0], first[1], first[2], PAD];
        DecodeLast(text, Group(first[0], first[1], first[2], PAD).value);
      } else {
        FullGroup(first[0], first[1], first[2], first[3]);
        var b := Group(first[0], first[1], first[2], first[3]).value;
        DecodeFirst(first, b, rest, Decode(rest).value);
        EncodeThree(b + Decode(rest).value);
        assert (b + Decode(rest).value)[3..] == Decode(rest).value;
        assert first == [first[0], first[1], first[2], first[3]];
      }
    }
  }

  lemma OneByte(v0: Sextet, v1: Sextet)
    requires v1 % 16 == 0
    ensures S0(B0(v0, v1)) == v0 && S1(B0(v0, v1), 0) == v1
  {
  }

  lemma TwoBytes(v0: Sextet, v1: Sextet, v2: Sextet)
    requires v2 % 4 == 0
    ensures var x, y := B0(v0, v1), B1(v1, v2);
      S0(x) == v0 && S1(x, y) == v1 && S2(y, 0) == v2
  {
  }

  lemma {:induction false} LastBack(c0: byte, c1: byte, c2: byte)
    requires Canonical4(c0, c1, c2, PAD, true)
    ensures Group(c0, c1, c2, PAD).Some? && Encode(Group(c0, c1, c2, PAD).value) == [c0, c1, c2, PAD]
  {
    DigitVal(Val(c0).value, c0);
    DigitVal(Val(c1).value, c1);
    if c2 == PAD {
      OneByte(Val(c0).value, Val(c1).value);
      EncodeOne(B0(Val(c0).value, Val(c1).value));
    } else {
      DigitVal(Val(c2).value, c2);
      TwoBytes(Val(c0).value, Val(c1).value, Val(c2).value);
      EncodeTwo(B0(Val(c0).value, Val(c1).value), B1(Val(c1).value, Val(c2).value));
    }
  }

  /** The client's decoder accepts more than the standard writes: encoding gives a text back exactly when it is canonical. */
  lemma {:induction false} EncodeOfDecode(text: Bytes)
    requires Decode(text).Some?
    ensures Encode(Decode(text).value) == text <==> Canonical(text)
  {
    EncodeIsCanonical(Decode(text).value);
    if Canonical(text) {
      CanonicalBack(text);
    }
  }

  // ----- the client's decoder -----

  /** noxssh_base64_decode: four characters at a time into a buffer of the caller's, up to outMax bytes. */
  method DecodeText(text: Bytes, out: array<byte>) returns (len: Option<nat>)
    modifies out
    ensures len.Some? <==> Decode(text).Some? && |Decode(text).value| <= out.Length
    ensures len.Some? ==> len.value <= out.Length && out[..len.value] == Decode(text).value
  {
    hide Progress, Decode, Group;
    if |text| % 4 != 0 {
      WholeGroups(text);
      return None;
    }
    var i: nat, o: nat := 0, 0;
    ProgressStart(text, out[..0]);
    while i < |text|
      invariant 0 <= i <= |text| && i % 4 == 0 && o <= out.Length
      invariant Progress(text, i, out[..o])
    {
      var bytes := Group(text[i], text[i + 1], text[i + 2], text[i + 3]);
      DecodeAt(text, i, out[..o]);
      if bytes.None? || |bytes.value| > out.Length - o {
        return None;
      }
      Copy(out, o, bytes.value);
      i, o := i + 4, o + |bytes.value|;
    }
    ProgressEnd(text, i, out[..o]);
    len := Some(o);
  }

  /** What is decoded so far, followed by what is left, is the whole. */
  ghost predicate Progress(text: Bytes, i: nat, done: Bytes) {
    i <= |text|
    && Decode(text) == if Decode(text[i..]).Some? then Some(done + Decode(text[i..]).value) else None
  }

  lemma {:induction false} ProgressStart(text: Bytes, none: Bytes)
    requires none == []
    ensures Progress(text, 0, none)
  {
    assert text[0..] == text;
    if Decode(text).Some? {
      assert none + Decode(text).value == Decode(text).value;
    }
  }

  lemma {:induction false} ProgressEnd(text: Bytes, i: nat, done: Bytes)
    requires i == |text| && Progress(text, i, done)
    ensures Decode(text) == Some(done)
  {
    assert text[i..] == [] && done + [] == done;
  }

  lemma {:induction false} DecodeAt(text: Bytes, i: nat, done: Bytes)
    requires i + 4 <= |text| && Progress(text, i, done)
    ensures var g := Group(text[i], text[i + 1], text[i + 2], text[i + 3]);
      && (g.None? ==> Decode(text).None?)
      && (g.Some? ==> Progress(text, i + 4, done + g.value))
      && (g.Some? && Decode(text).Some? ==> |done| + |g.value| <= |Decode(text).value|)
  {
    DecodeFour(text[i..]);
    assert text[i..][4..] == text[i + 4..];
    var g, rest := Group(text[i], text[i + 1], text[i + 2], text[i + 3]), Decode(text[i + 4..]);
    if g.Some? && rest.Some? {
      assert done + (g.value + rest.value) == done + g.value + rest.value;
    }
  }

  lemma {:induction false} WholeGroups(text: Bytes)
    requires |text| % 4 != 0
    ensures Decode(text).None?
    decreases |text|
  {
    if |text| >= 4 {
      WholeGroups(text[4..]);
    }
  }

  method Copy(out: array<byte>, at: nat, s: Bytes)
    requires at + |s| <= out.Length
    modifies out
    ensures out[..at + |s|] == old(out[..at]) + s
  {
    forall i | 0 <= i < |s| {
      out[at + i] := s[i];
    }
  }

  // ----- the daemon's encoder and key decoder -----

  /** Length of the name, the name, length of the key: 19 bytes in front of every key. */
  function Prefix(): (p: Bytes)
    ensures |p| == 19
  {
    UserAuth.Blob([])[..15] + U32(32)
  }

  /** Writing out a blob, so far as its first i bytes. */
  ghost predicate Written(blob: Bytes, i: nat, text: Bytes) {
    i <= |blob| && Encode(blob) == text + Encode(blob[i..])
  }

  /** print_host_public_key: the text of a key blob. */
  method PrintHostKey(key: Digest) returns (text: Bytes)
    ensures text == Encode(UserAuth.Blob(key)) && |text| == TEXT_LEN
  {
    text := WriteOut(UserAuth.Blob(key));
  }

  /** Fills the text buffer three bytes of the blob at a time. */
  method WriteOut(blob: Bytes) returns (text: Bytes)
    requires |blob| == BLOB_LEN
    ensures text == Encode(blob) && |text| == TEXT_LEN
  {
    hide Written, Encode;
    var encoded := new byte[TEXT_LEN];
    var i: nat, o: nat := 0, 0;
    ghost var k: nat := 0;
    WriteNone(blob, encoded[..0]);
    while i < BLOB_LEN
      invariant k <= 17 && i == 3 * k && o == 4 * k
      invariant Written(blob, i, encoded[..o])
    {
      WriteThree(blob, i, encoded[..o]);
      Copy(encoded, o, Quad(blob[i], blob[i + 1], blob[i + 2]));
      i, o, k := i + 3, o + 4, k + 1;
    }
    text := encoded[..];
    WriteAll(blob, encoded[..o]);
    assert encoded[..o] == text;
  }

  lemma {:induction false} WriteNone(blob: Bytes, none: Bytes)
    requires none == []
    ensures Written(blob, 0, none)
  {
    assert blob[0..] == blob && none + Encode(blob) == Encode(blob);
  }

  lemma {:induction false} WriteAll(blob: Bytes, text: Bytes)
    requires Written(blob, |blob|, text)
    ensures text == Encode(blob)
  {
    assert blob[|blob|..] == [] && text + [] == text;
  }

  lemma {:induction false} WriteThree(blob: Bytes, i: nat, text: Bytes)
    requires i + 3 <= |blob| && Written(blob, i, text)
    ensures Written(blob, i + 3, text + Quad(blob[i], blob[i + 1], blob[i + 2]))
  {
    EncodeThree(blob[i..]);
    assert blob[i..][3..] == blob[i + 3..];
    QuadIsThree(blob[i], blob[i + 1], blob[i + 2]);
    var q, rest := Quad(blob[i], blob[i + 1], blob[i + 2]), Encode(blob[i + 3..]);
    assert text + (q + rest) == (text + q) + rest;
  }

  /** The shifts and masks of the encoder, through its character table. */
  function Quad(x: byte, y: byte, z: byte): (q: Bytes)
    ensures |q| == 4
  {
    var w := x * 65536 + y * 256 + z;
    [Alphabet()[w / 262144], Alphabet()[w / 4096 % 64], Alphabet()[w / 64 % 64], Alphabet()[w % 64]]
  }

  lemma {:induction false} QuadIsThree(x: byte, y: byte, z: byte)
    ensures Quad(x, y, z) == Three(x, y, z)
  {
    ByteWord(x, y, z);
    QuadOf(x, y, z, S0(x), S1(x, y), S2(y, z), S3(z));
  }

  lemma ByteWord(x: byte, y: byte, z: byte)
    ensures x * 65536 + y * 256 + z == 262144 * S0(x) + 4096 * S1(x, y) + 64 * S2(y, z) + S3(z)
  {
  }

  lemma {:induction false} QuadOf(x: byte, y: byte, z: byte, a: Sextet, b: Sextet, c: Sextet, d: Sextet)
    requires x * 65536 + y * 256 + z == 262144 * a + 4096 * b + 64 * c + d
    ensures Quad(x, y, z) == [Digit(a), Digit(b), Digit(c), Digit(d)]
  {
    WordSextets(x * 65536 + y * 256 + z, a, b, c, d);
  }

  lemma WordSextets(w: nat, a: Sextet, b: Sextet, c: Sextet, d: Sextet)
    requires w == 262144 * a + 4096 * b + 64 * c + d
    ensures w / 262144 == a && w / 4096 % 64 == b && w / 64 % 64 == c && w % 64 == d
  {
    assert w / 64 == 4096 * a + 64 * b + c;
    assert w / 4096 == 64 * a + b;
  }

  /** decode_blob: exactly 68 digits without padding, for a blob that starts as every Ed25519 key does. */
  method DecodeBlob(text: Bytes, out: array<byte>) returns (ok: bool)
    requires out.Length == BLOB_LEN
    modifies out
    ensures ok <==> AcceptedKey(text)
    ensures ok ==> Decode(text) == Some(out[..])
  {
    if |text| != TEXT_LEN {
      return false;
    }
    ok := Unpack(text, out);
    ok := ok && out[..19] == Prefix();
  }

  method Unpack(text: Bytes, out: array<byte>) returns (ok: bool)
    requires out.Length == BLOB_LEN && |text| == TEXT_LEN
    modifies out
    ensures ok <==> AllDigits(text)
    ensures ok ==> Decode(text) == Some(out[..])
  {
    hide Unpacking, Decode, AllDigits;
    var i: nat, n: nat := 0, 0;
    ghost var k: nat := 0;
    UnpackingStart(text, out[..0]);
    while i < TEXT_LEN
      invariant k <= 17 && i == 4 * k && n == 3 * k
      invariant Unpacking(text, i, out[..n])
    {
      ok := UnpackFour(text, i, out, n);
      if !ok {
        return;
      }
      i, n, k := i + 4, n + 3, k + 1;
    }
    Unpacked(text, i, out[..n]);
    assert out[..n] == out[..];
    ok := true;
  }

  method UnpackFour(text: Bytes, i: nat, out: array<byte>, n: nat) returns (ok: bool)
    requires i + 4 <= |text| && n + 3 <= out.Length && Unpacking(text, i, out[..n])
    modifies out
    ensures if ok then Unpacking(text, i + 4, out[..n + 3]) else !AllDigits(text)
  {
    ok := FourDigits(text, i);
    if ok {
      TakeFour(text, i, out[..n]);
      Copy(out, n, PackedAt(text, i));
    } else {
      NotDigits(text, i);
    }
  }

  /** The first i characters are digits, and what they stand for is known. */
  ghost predicate Unpacking(text: Bytes, i: nat, done: Bytes) {
    Progress(text, i, done) && AllDigits(text[..i])
  }

  lemma {:induction false} NotDigits(text: Bytes, i: nat)
    requires i + 4 <= |text| && !FourDigits(text, i)
    ensures !AllDigits(text)
  {
  }

  lemma {:induction false} UnpackingStart(text: Bytes, none: Bytes)
    requires none == []
    ensures Unpacking(text, 0, none)
  {
    ProgressStart(text, none);
  }

  lemma {:induction false} Unpacked(text: Bytes, i: nat, done: Bytes)
    requires i == |text| && Unpacking(text, i, done)
    ensures Decode(text) == Some(done) && AllDigits(text)
  {
    assert text[i..] == [] && text[..i] == text && done + [] == done;
  }

  /** Four characters with values; a character without one ends the decoding. */
  predicate FourDigits(text: Bytes, i: nat)
    requires i + 4 <= |text|
  {
    Val(text[i]).Some? && Val(text[i + 1]).Some? && Val(text[i + 2]).Some? && Val(text[i + 3]).Some?
  }

  function PackedAt(text: Bytes, i: nat): (p: Bytes)
    requires i + 4 <= |text| && FourDigits(text, i)
    ensures |p| == 3
  {
    Packed(Val(text[i]).value, Val(text[i + 1]).value, Val(text[i + 2]).value, Val(text[i + 3]).value)
  }

  /** The three bytes of the 24-bit word. */
  function Packed(a: Sextet, b: Sextet, c: Sextet, d: Sextet): (p: Bytes)
    ensures |p| == 3
  {
    var x := a * 262144 + b * 4096 + c * 64 + d;
    [x / 65536 % 256, x / 256 % 256, x % 256]
  }

  lemma {:induction false} PackedIs(a: Sextet, b: Sextet, c: Sextet, d: Sextet)
    ensures Packed(a, b, c, d) == [B0(a, b), B1(b, c), B2(c, d)]
  {
    SextetWord(a, b, c, d);
    PackedOf(a, b, c, d, B0(a, b), B1(b, c), B2(c, d));
  }

  lemma {:induction false} PackedOf(a: Sextet, b: Sextet, c: Sextet, d: Sextet, x: byte, y: byte, z: byte)
    requires a * 262144 + b * 4096 + c * 64 + d == 65536 * x + 256 * y + z
    ensures Packed(a, b, c, d) == [x, y, z]
  {
    WordBytes(a * 262144 + b * 4096 + c * 64 + d, x, y, z);
  }

  lemma SextetWord(a: Sextet, b: Sextet, c: Sextet, d: Sextet)
    ensures a * 262144 + b * 4096 + c * 64 + d == 65536 * B0(a, b) + 256 * B1(b, c) + B2(c, d)
  {
  }

  lemma WordBytes(w: nat, x: byte, y: byte, z: byte)
    requires w == 65536 * x + 256 * y + z
    ensures w / 65536 % 256 == x && w / 256 % 256 == y && w % 256 == z
  {
    assert w / 256 == 256 * x + y;
  }

  lemma {:induction false} TakeFour(text: Bytes, i: nat, done: Bytes)
    requires i + 4 <= |text| && Unpacking(text, i, done) && FourDigits(text, i)
    ensures Unpacking(text, i + 4, done + PackedAt(text, i))
  {
    DecodeAt(text, i, done);
    PackedIs(Val(text[i]).value, Val(text[i + 1]).value, Val(text[i + 2]).value, Val(text[i + 3]).value);
    DigitVal(0, text[i]);
    forall j | 0 <= j < i + 4
      ensures Val(text[j]).Some?
    {
      assert j < i ==> text[..i][j] == text[j];
    }
  }

  predicate AllDigits(text: Bytes) {
    forall j :: 0 <= j < |text| ==> Val(text[j]).Some?
  }

  predicate AcceptedKey(text: Bytes) {
    && |text| == TEXT_LEN && AllDigits(text) && Decode(text).Some?
    && Prefix() <= Decode(text).value
  }

  lemma {:induction false} KeyTextAccepted(blob: Bytes)
    requires |blob| == BLOB_LEN && Prefix() <= blob
    ensures AcceptedKey(Encode(blob)) && Decode(Encode(blob)) == Some(blob)
  {
    hide Encode, Decode, AllDigits;
    DecodeOfEncode(blob);
    EncodeDigits(blob, 17);
    EncodedLength(blob);
  }

  /** For every key: the printed text is accepted, and decodes to the blob it was made from, for the client's decoder as well. */
  lemma {:induction false} PrintedKeyAccepted(key: Digest)
    ensures var text := Encode(UserAuth.Blob(key));
      AcceptedKey(text) && Decode(text) == Some(UserAuth.Blob(key))
  {
    PrefixOfBlob(key);
    KeyTextAccepted(UserAuth.Blob(key));
  }

  lemma {:induction false} PrefixOfBlob(key: Digest)
    ensures Prefix() <= UserAuth.Blob(key) && UserAuth.Blob(key)[19..] == key
  {
    assert UserAuth.Blob(key)[..15] == UserAuth.Blob([])[..15];
  }

  /** Without a remainder there is no padding. */
  lemma {:induction false} EncodeDigits(data: Bytes, n: nat)
    requires |data| == 3 * n
    ensures AllDigits(Encode(data))
    decreases n
  {
    if n > 0 {
      EncodeThree(data);
      EncodeDigits(data[3..], n - 1);
      ThreeDigits(data[0], data[1], data[2]);
      DigitsJoin(Three(data[0], data[1], data[2]), Encode(data[3..]));
    }
  }

  lemma {:induction false} ThreeDigits(x: byte, y: byte, z: byte)
    ensures AllDigits(Three(x, y, z))
  {
    DigitVal(S0(x), Digit(S0(x)));
    DigitVal(S1(x, y), Digit(S1(x, y)));
    DigitVal(S2(y, z), Digit(S2(y, z)));
    DigitVal(S3(z), Digit(S3(z)));
  }

  lemma DigitsJoin(a: Bytes, b: Bytes)
    requires AllDigits(a) && AllDigits(b)
    ensures AllDigits(a + b)
  {
  }

  lemma {:induction false} BlobFromPrefix(blob: Bytes, prefix: Bytes, key: Bytes)
    requires |blob| == BLOB_LEN && |prefix| == 19 && prefix <= blob && key == blob[19..]
    ensures blob == prefix + key && |key| == 32
  {
  }

  /** What is accepted is the printed text of the key inside: no other text passes for that key. */
  lemma {:induction false} AcceptedIsPrinted(text: Bytes)
    requires AcceptedKey(text)
    ensures Encode(Decode(text).value) == text && |Decode(text).value| == BLOB_LEN
    ensures Decode(text).value == Prefix() + Decode(text).value[19..]
  {
    AllDigitsLength(text);
    AllDigitsCanonical(text);
    CanonicalBack(text);
    BlobFromPrefix(Decode(text).value, Prefix(), Decode(text).value[19..]);
  }

  lemma {:induction false} AllDigitsLength(text: Bytes)
    requires AllDigits(text) && Decode(text).Some?
    ensures 4 * |Decode(text).value| == 3 * |text|
    decreases |text|
  {
    if |text| >= 4 {
      DigitsTail(text);
      DecodeFour(text);
      AllDigitsLength(text[4..]);
      FullGroupLength(text[0], text[1], text[2], text[3]);
    }
  }

  lemma DigitsTail(text: Bytes)
    requires AllDigits(text) && |text| >= 4
    ensures AllDigits(text[4..]) && FourDigits(text, 0)
  {
  }

  lemma {:induction false} FullGroupLength(c0: byte, c1: byte, c2: byte, c3: byte)
    requires Val(c2).Some? && Val(c3).Some? && Group(c0, c1, c2, c3).Some?
    ensures |Group(c0, c1, c2, c3).value| == 3
  {
    DigitVal(0, c2);
  }

  lemma {:induction false} AllDigitsCanonical(text: Bytes)
    requires AllDigits(text) && |text| % 4 == 0
    ensures Canonical(text)
    decreases |text|
  {
    if text != [] {
      DigitVal(0, text[2]);
      AllDigitsCanonical(text[4..]);
    }
  }
}
