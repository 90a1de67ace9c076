/** The identification exchange (section 4.2 of RFC 4253): a line reader with a fixed buffer, and the search for the "SSH-" line. */
module Identification {
  import opened Octets
  import opened Wrappers
  import opened Transport

  const LF: byte := 10
  const CR: byte := 13
  const MAX_IDENT_LEN := 255
  const MAX_BANNER_LINES := 8

  datatype Line = Line(text: Bytes, rest: Bytes)

  /** Discards up to and including the next LF. */
  function SkipLine(input: Bytes): Option<Line> {
    if input == [] then None
    else if input[0] == LF then Some(Line([], input[1..]))
    else SkipLine(input[1..])
  }

  /** recv_line with `used` already in the buffer: CR is dropped, LF ends the line, a full buffer makes the line empty. */
  function ReadLine(used: Bytes, input: Bytes): Option<Line>
    decreases |input|
  {
    if |used| == MAX_IDENT_LEN then SkipLine(input)
    else if input == [] then None
    else if input[0] == LF then Some(Line(used, input[1..]))
    else if input[0] == CR then ReadLine(used, input[1..])
    else ReadLine(used + [input[0]], input[1..])
  }

  /** The C string in a buffer: up to the first NUL. */
  function CString(s: Bytes): Bytes {
    if s == [] || s[0] == 0 then [] else [s[0]] + CString(s[1..])
  }

  predicate IsIdent(text: Bytes) {
    Ascii("SSH-") <= text
  }

  /** Up to n lines are read until one is an identification. */
  function FindIdent(input: Bytes, n: nat): Option<Line>
    decreases n
  {
    if n == 0 then None
    else
      match ReadLine([], input)
      case None => None
      case Some(line) =>
        var text := CString(line.text);
        if IsIdent(text) then Some(Line(text, line.rest)) else FindIdent(line.rest, n - 1)
  }

  function Announced(ident: Bytes): Bytes {
    ident + [CR, LF]
  }

  predicate OneLine(ident: Bytes) {
    CR !in ident && LF !in ident
  }

  lemma {:induction false} SkipLineOf(text: Bytes, rest: Bytes)
    requires LF !in text
    ensures SkipLine(text + [LF] + rest) == Some(Line([], rest))
  {
    var input := text + [LF] + rest;
    if text == [] {
      assert input[1..] == rest;
    } else {
      SkipLineOf(text[1..], rest);
      assert input[1..] == text[1..] + [LF] + rest;
    }
  }

  lemma {:induction false} ReadLineOf(used: Bytes, text: Bytes, rest: Bytes)
    requires OneLine(text) && |used| <= MAX_IDENT_LEN
    ensures ReadLine(used, Announced(text) + rest)
         == Some(Line(if |used| + |text| < MAX_IDENT_LEN then used + text else [], rest))
    decreases |text|
  {
    var input := Announced(text) + rest;
    if |used| == MAX_IDENT_LEN {
      SkipLineOf(text + [CR], rest);
      assert input == text + [CR] + [LF] + rest;
    } else if text == [] {
      assert input[1..][0] == LF && input[1..][1..] == rest;
      assert used + text == used;
    } else {
      ReadLineOf(used + [text[0]], text[1..], rest);
      assert input[1..] == Announced(text[1..]) + rest;
      assert used + text == used + [text[0]] + text[1..];
    }
  }

  /** An identification line comes through exactly when it has at most 254 characters, although 255 may be configured. */
  lemma LineRoundTrip(ident: Bytes, rest: Bytes)
    requires OneLine(ident)
    ensures ReadLine([], Announced(ident) + rest) == Some(Line(ident, rest)) <==> |ident| <= 254
  {
    ReadLineOf([], ident, rest);
    assert [] + ident == ident;
  }

  /** At the configured maximum of 255 the peer sees an empty line. */
  lemma LongestIdentLost(ident: Bytes, rest: Bytes)
    requires OneLine(ident) && |ident| == MAX_IDENT_LEN
    ensures ReadLine([], Announced(ident) + rest) == Some(Line([], rest))
  {
    ReadLineOf([], ident, rest);
    assert [] + ident == ident;
  }

  lemma {:induction false} CStringOf(s: Bytes)
    requires 0 !in s
    ensures CString(s) == s
  {
    if s != [] {
      CStringOf(s[1..]);
    }
  }

  lemma {:induction false} FindIdentOf(ident: Bytes, rest: Bytes)
    requires OneLine(ident) && 0 !in ident && |ident| <= 254 && IsIdent(ident)
    ensures FindIdent(Announced(ident) + rest, MAX_BANNER_LINES) == Some(Line(ident, rest))
  {
    ReadLineOf([], ident, rest);
    assert [] + ident == ident;
    CStringOf(ident);
  }

  /** Lines in front of an identification: one line each, without NUL, short enough, and not beginning like one. */
  predicate AreBanner(lines: seq<Bytes>) {
    forall l | l in lines :: OneLine(l) && 0 !in l && |l| <= 254 && !([83, 83, 72, 45] <= l)
  }

  function Lines(lines: seq<Bytes>): Bytes {
    if lines == [] then [] else lines[0] + [13, 10] + Lines(lines[1..])
  }

  /** An identification is found behind fewer than n other lines, and not behind n. */
  lemma {:induction false} IdentBehindBanner(lines: seq<Bytes>, ident: Bytes, rest: Bytes, n: nat)
    requires AreBanner(lines) && OneLine(ident) && 0 !in ident && |ident| <= 254 && [83, 83, 72, 45] <= ident
    ensures FindIdent(Lines(lines) + (ident + [13, 10] + rest), n) == if |lines| < n then Some(Line(ident, rest)) else None
    decreases n
  {
    hide FindIdent;
    var last := ident + [13, 10] + rest;
    NoneLeft(Lines(lines) + last);
    if n > 0 {
      if lines == [] {
        assert [] + last == Announced(ident) + rest;
        FirstLine(ident, rest, n);
      } else {
        var text, tail := lines[0], Lines(lines[1..]) + last;
        assert text in lines;
        Regroup(text + [13, 10], Lines(lines[1..]), last);
        FirstLine(text, tail, n);
        IdentBehindBanner(lines[1..], ident, rest, n - 1);
      }
    }
  }

  lemma NoneLeft(input: Bytes)
    ensures FindIdent(input, 0) == None
  {
  }

  lemma {:induction false} FirstLine(text: Bytes, tail: Bytes, n: nat)
    requires OneLine(text) && 0 !in text && |text| <= 254 && n > 0
    ensures FindIdent(Announced(text) + tail, n) == if [83, 83, 72, 45] <= text then Some(Line(text, tail)) else FindIdent(tail, n - 1)
  {
    hide ReadLine, Announced, CString;
    ReadLineOf([], text, tail);
    assert [] + text == text;
    CStringOf(text);
    LettersOfIdent();
  }

  lemma LettersOfIdent()
    ensures Ascii("SSH-") == [83, 83, 72, 45]
  {
  }

  /** recv_line: one callback per character, and a second loop that throws away the rest of an overlong line. */
  method RecvLine(pipe: Pipe) returns (line: Option<Bytes>)
    modifies pipe
    ensures line.Some? ==> ReadLine([], old(pipe.bytes)) == Some(Line(line.value, pipe.bytes))
    ensures line.None? && Generous(old(pipe.recvPlan), old(pipe.bytes)) ==> ReadLine([], old(pipe.bytes)) == None
  {
    ghost var wanted, willing := ReadLine([], pipe.bytes), Generous(pipe.recvPlan, pipe.bytes);
    var used: Bytes, ended := [], false;
    while |used| < MAX_IDENT_LEN && !ended
      invariant |used| <= MAX_IDENT_LEN
      invariant willing ==> Generous(pipe.recvPlan, pipe.bytes)
      invariant wanted == if ended then Some(Line(used, pipe.bytes)) else ReadLine(used, pipe.bytes)
      decreases |pipe.bytes|, !ended
    {
      var n, data := pipe.RecvSome(1);
      if n <= 0 {
        return None;
      }
      if data[0] == LF {
        ended := true;
      } else if data[0] != CR {
        used := used + [data[0]];
      }
    }
    if ended {
      return Some(used);
    }
    line := DropLine(pipe);
  }

  method DropLine(pipe: Pipe) returns (line: Option<Bytes>)
    modifies pipe
    ensures line.Some? ==> SkipLine(old(pipe.bytes)) == Some(Line(line.value, pipe.bytes))
    ensures line.None? && Generous(old(pipe.recvPlan), old(pipe.bytes)) ==> SkipLine(old(pipe.bytes)) == None
  {
    ghost var wanted, willing := SkipLine(pipe.bytes), Generous(pipe.recvPlan, pipe.bytes);
    while true
      invariant willing ==> Generous(pipe.recvPlan, pipe.bytes)
      invariant wanted == SkipLine(pipe.bytes)
      decreases |pipe.bytes|
    {
      var n, data := pipe.RecvSome(1);
      if n <= 0 {
        return None;
      }
      if data[0] == LF {
        return Some([]);
      }
    }
  }
}
