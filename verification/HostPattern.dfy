/** Host patterns of the client's configuration: the backtracking matcher and the scan of a pattern list. */
module HostPattern {
  import opened Octets

  const STAR: byte := 42
  const QUESTION: byte := 63
  const BANG: byte := 33
  const SPACE: byte := 32
  const TAB: byte := 9
  const MAX_LINE_LEN := 1024

  /** tolower in the C locale. */
  function Fold(c: byte): byte {
    if 65 <= c <= 90 then c + 32 else c
  }

  // ----- what a pattern means -----

  /** Whether a piece of the host fits one character of the pattern. */
  predicate Fits(c: byte, piece: Bytes) {
    if c == STAR then true
    else if c == QUESTION then |piece| == 1
    else |piece| == 1 && Fold(piece[0]) == Fold(c)
  }

  /** A star fits anything, a question mark any one byte, and any other byte itself, or the other case of its letter. */
  lemma FitsWritten(c: byte, piece: Bytes)
    ensures Fits(c, piece) <==> c == 42 || (|piece| == 1 && (c == 63 || SameLetter(c, piece[0])))
  {
  }

  predicate SameLetter(a: byte, b: byte) {
    a == b || (65 <= a <= 90 && b == a + 32) || (65 <= b <= 90 && a == b + 32)
  }

  function Concat(pieces: seq<Bytes>): Bytes {
    if pieces == [] then [] else pieces[0] + Concat(pieces[1..])
  }

  /** The host in pieces, one for each character of the pattern, each of which fits. */
  ghost predicate IsCut(pattern: Bytes, host: Bytes, pieces: seq<Bytes>) {
    && |pieces| == |pattern| && Concat(pieces) == host
    && forall i :: 0 <= i < |pattern| ==> Fits(pattern[i], pieces[i])
  }

  /** The declarative meaning of a pattern: the host can be cut so that every piece fits. */
  ghost predicate Matches(pattern: Bytes, host: Bytes) {
    exists pieces :: IsCut(pattern, host, pieces)
  }

  lemma {:induction false} EmptyPattern(host: Bytes)
    ensures Matches([], host) <==> host == []
  {
    if host == [] {
      assert IsCut([], host, []);
    }
  }

  /** A first piece that fits and a match of the rest make a match. */
  lemma {:induction false} MatchCons(pattern: Bytes, host: Bytes, k: nat)
    requires pattern != [] && k <= |host| && Fits(pattern[0], host[..k]) && Matches(pattern[1..], host[k..])
    ensures Matches(pattern, host)
  {
    var rest :| IsCut(pattern[1..], host[k..], rest);
    var pieces := [host[..k]] + rest;
    assert pieces[1..] == rest && host == host[..k] + host[k..];
    assert IsCut(pattern, host, pieces);
  }

  /** A match has a first piece that fits, and a match of the rest. */
  lemma {:induction false} MatchUncons(pattern: Bytes, host: Bytes) returns (k: nat)
    requires pattern != [] && Matches(pattern, host)
    ensures k <= |host| && Fits(pattern[0], host[..k]) && Matches(pattern[1..], host[k..])
  {
    var pieces :| IsCut(pattern, host, pieces);
    k := |pieces[0]|;
    assert host[..k] == pieces[0] && host[k..] == Concat(pieces[1..]);
    assert IsCut(pattern[1..], host[k..], pieces[1..]);
  }

  lemma {:induction false} FirstIsOne(pattern: Bytes, host: Bytes)
    requires pattern != [] && pattern[0] != STAR
    ensures Matches(pattern, host) <==> host != [] && Fits(pattern[0], host[..1]) && Matches(pattern[1..], host[1..])
  {
    if Matches(pattern, host) {
      var k := MatchUncons(pattern, host);
      assert k == 1;
    }
    if host != [] && Fits(pattern[0], host[..1]) && Matches(pattern[1..], host[1..]) {
      MatchCons(pattern, host, 1);
    }
  }

  // ----- the matcher -----

  /** noxssh_host_pattern_match: recursion over the pattern, with a loop over the suffixes of the host at a star. */
  method MatchHost(pattern: Bytes, host: Bytes) returns (yes: bool)
    ensures yes <==> Matches(pattern, host)
    decreases |pattern|
  {
    if pattern == [] {
      EmptyPattern(host);
      return host == [];
    }
    if pattern[0] == STAR {
      yes := MatchStar(pattern, host);
      return;
    }
    FirstIsOne(pattern, host);
    if host == [] || (pattern[0] != QUESTION && Fold(pattern[0]) != Fold(host[0])) {
      return false;
    }
    yes := MatchHost(pattern[1..], host[1..]);
  }

  method MatchStar(pattern: Bytes, host: Bytes) returns (yes: bool)
    requires pattern != [] && pattern[0] == STAR
    ensures yes <==> Matches(pattern, host)
    decreases |pattern|, 0
  {
    var k := 0;
    while k <= |host|
      invariant 0 <= k <= |host| + 1
      invariant forall j :: 0 <= j < k && j <= |host| ==> !Matches(pattern[1..], host[j..])
    {
      yes := MatchHost(pattern[1..], host[k..]);
      if yes {
        MatchCons(pattern, host, k);
        return true;
      }
      k := k + 1;
    }
    if Matches(pattern, host) {
      var j := MatchUncons(pattern, host);
    }
    yes := false;
  }

  /** The same text, but for the case of its letters. */
  predicate SameFold(a: Bytes, b: Bytes) {
    |a| == |b| && forall i :: 0 <= i < |a| ==> SameLetter(a[i], b[i])
  }

  /** Case never matters, neither in the pattern nor in the host. */
  lemma {:induction false} CaseFolds(pattern: Bytes, host: Bytes, otherPattern: Bytes, otherHost: Bytes)
    requires SameFold(pattern, otherPattern) && SameFold(host, otherHost)
    ensures Matches(pattern, host) <==> Matches(otherPattern, otherHost)
  {
    if Matches(pattern, host) {
      FoldedMatch(pattern, host, otherPattern, otherHost);
    }
    if Matches(otherPattern, otherHost) {
      FoldedMatch(otherPattern, otherHost, pattern, host);
    }
  }

  lemma {:induction false} FoldedMatch(pattern: Bytes, host: Bytes, otherPattern: Bytes, otherHost: Bytes)
    requires SameFold(pattern, otherPattern) && SameFold(host, otherHost) && Matches(pattern, host)
    ensures Matches(otherPattern, otherHost)
    decreases |pattern|
  {
    if pattern == [] {
      EmptyPattern(host);
      EmptyPattern(otherHost);
    } else {
      var k := MatchUncons(pattern, host);
      FoldedMatch(pattern[1..], host[k..], otherPattern[1..], otherHost[k..]);
      assert Fold(otherPattern[0]) == Fold(pattern[0]);
      assert Fits(otherPattern[0], otherHost[..k]);
      MatchCons(otherPattern, otherHost, k);
    }
  }

  // ----- pattern lists -----

  predicate Blank(c: byte) {
    c == SPACE || c == TAB
  }

  /** The index of the first byte for which Blank is, or is not, what is wanted. */
  function Span(s: Bytes, blank: bool): (n: nat)
    ensures n <= |s| && (n < |s| ==> Blank(s[n]) != blank)
    ensures forall i :: 0 <= i < n ==> Blank(s[i]) == blank
  {
    if s == [] || Blank(s[0]) != blank then 0 else 1 + Span(s[1..], blank)
  }

  /** The tokens strtok finds: maximal runs without blanks. */
  function Tokens(s: Bytes): seq<Bytes>
    decreases |s|, 1
  {
    TokensFrom(s[Span(s, true)..])
  }

  /** The same from the beginning of a token on, or from the end. */
  function TokensFrom(s: Bytes): seq<Bytes>
    requires s != [] ==> !Blank(s[0])
    decreases |s|, 0
  {
    if s == [] then []
    else
      var n := Span(s, false);
      [s[..n]] + Tokens(s[n..])
  }

  /** What the line buffer keeps of the patterns. */
  function Buffered(patterns: Bytes): Bytes {
    if |patterns| > MAX_LINE_LEN - 1 then patterns[..MAX_LINE_LEN - 1] else patterns
  }

  predicate Negated(token: Bytes) {
    token != [] && token[0] == BANG
  }

  function Pattern(token: Bytes): Bytes {
    if Negated(token) then token[1..] else token
  }

  /** A token that counts, and matches. A lone exclamation mark counts as nothing. */
  ghost predicate Hits(token: Bytes, host: Bytes) {
    Pattern(token) != [] && Matches(Pattern(token), host)
  }

  ghost predicate PositiveHit(tokens: seq<Bytes>, host: Bytes) {
    exists t :: t in tokens && !Negated(t) && Hits(t, host)
  }

  ghost predicate NegatedHit(tokens: seq<Bytes>, host: Bytes) {
    exists t :: t in tokens && Negated(t) && Hits(t, host)
  }

  lemma HitSnoc(tokens: seq<Bytes>, token: Bytes, host: Bytes)
    ensures PositiveHit(tokens + [token], host) <==> PositiveHit(tokens, host) || (!Negated(token) && Hits(token, host))
    ensures NegatedHit(tokens + [token], host) <==> NegatedHit(tokens, host) || (Negated(token) && Hits(token, host))
  {
    assert forall t :: t in tokens + [token] <==> t in tokens || t == token;
  }

  /** The tokens seen so far and what the scan has made of them. */
  ghost predicate Scanned(all: seq<Bytes>, seen: seq<Bytes>, rest: Bytes, host: Bytes, matched: bool, hasPositive: bool) {
    && all == seen + Tokens(rest) && matched == PositiveHit(seen, host) && !NegatedHit(seen, host)
    && (matched ==> hasPositive)
  }

  lemma {:induction false} ScanStep(
    all: seq<Bytes>, seen: seq<Bytes>, rest: Bytes, host: Bytes, matched: bool, hasPositive: bool, token: Bytes, hit: bool)
    requires Scanned(all, seen, rest, host, matched, hasPositive) && hit == Hits(token, host)
    requires |token| <= |rest| && Tokens(rest) == [token] + Tokens(rest[|token|..])
    ensures if hit && Negated(token) then NegatedHit(all, host)
      else Scanned(all, seen + [token], rest[|token|..], host, matched || hit,
                   hasPositive || (Pattern(token) != [] && !Negated(token)))
  {
    HitSnoc(seen, token, host);
    Regroup(seen, [token], Tokens(rest[|token|..]));
    if hit && Negated(token) {
      HitStays(seen + [token], Tokens(rest[|token|..]), host);
    }
  }

  /** Blanks in front of a token do not matter. */
  lemma {:induction false} SkipBlanks(s: Bytes)
    ensures Tokens(s[Span(s, true)..]) == Tokens(s)
  {
    var u := s[Span(s, true)..];
    assert u[Span(u, true)..] == u;
  }

  /** What a pattern list means: some positive pattern matches and no negated one does. */
  ghost predicate ListMatches(patterns: Bytes, host: Bytes) {
    var tokens := Tokens(Buffered(patterns));
    PositiveHit(tokens, host) && !NegatedHit(tokens, host)
  }

  /**
   * noxssh_host_list_matches: some positive pattern matches and no negated one does. The code stops at the first negated
   * match, and otherwise looks at every token.
   */
  method HostListMatches(patterns: Bytes, host: Bytes) returns (matched: bool)
    ensures matched <==> ListMatches(patterns, host)
  {
    var rest := Buffered(patterns);
    ghost var all, seen := Tokens(rest), [];
    matched := false;
    var hasPositive := false;
    SkipBlanks(rest);
    rest := rest[Span(rest, true)..];
    while rest != []
      invariant rest != [] ==> !Blank(rest[0])
      invariant Scanned(all, seen, rest, host, matched, hasPositive)
      decreases |rest|
    {
      var token := rest[..Span(rest, false)];
      FirstToken(rest);
      var hit := TokenHits(token, host);
      ScanStep(all, seen, rest, host, matched, hasPositive, token, hit);
      if hit && Negated(token) {
        return false;
      }
      hasPositive := hasPositive || (Pattern(token) != [] && !Negated(token));
      matched := matched || hit;
      seen := seen + [token];
      rest := rest[|token|..];
      SkipBlanks(rest);
      rest := rest[Span(rest, true)..];
    }
    assert all == seen;
    matched := hasPositive && matched;
  }

  lemma {:induction false} FirstToken(s: Bytes)
    requires s != [] && !Blank(s[0])
    ensures var n := Span(s, false); n > 0 && Tokens(s) == [s[..n]] + Tokens(s[n..])
  {
    assert s[Span(s, true)..] == s;
  }

  method TokenHits(token: Bytes, host: Bytes) returns (hit: bool)
    ensures hit <==> Hits(token, host)
  {
    hit := false;
    if Pattern(token) != [] {
      hit := MatchHost(Pattern(token), host);
    }
  }

  lemma HitStays(seen: seq<Bytes>, rest: seq<Bytes>, host: Bytes)
    requires NegatedHit(seen, host)
    ensures NegatedHit(seen + rest, host)
  {
    var t :| t in seen && Negated(t) && Hits(t, host);
    assert t in seen + rest;
  }

  // ----- lists that are written out -----

  /** Tokens with a blank between them. */
  function Join(tokens: seq<Bytes>): Bytes {
    if tokens == [] then []
    else if |tokens| == 1 then tokens[0]
    else tokens[0] + [32] + Join(tokens[1..])
  }

  predicate AreTokens(tokens: seq<Bytes>) {
    forall t | t in tokens :: t != [] && forall i | 0 <= i < |t| :: !Blank(t[i])
  }

  lemma {:induction false} SpanOfToken(token: Bytes, tail: Bytes)
    requires token != [] && (forall i | 0 <= i < |token| :: !Blank(token[i])) && (tail != [] ==> Blank(tail[0]))
    ensures Span(token + tail, true) == 0 && Span(token + tail, false) == |token|
  {
    var s := token + tail;
    assert forall i | 0 <= i < |token| :: s[i] == token[i];
    assert tail != [] ==> s[|token|] == tail[0];
  }

  lemma {:induction false} TokensOfFirst(token: Bytes, tail: Bytes)
    requires token != [] && (forall i | 0 <= i < |token| :: !Blank(token[i])) && (tail != [] ==> Blank(tail[0]))
    ensures Tokens(token + tail) == [token] + Tokens(tail)
  {
    var s := token + tail;
    SpanOfToken(token, tail);
    FirstToken(s);
    assert s[..|token|] == token && s[|token|..] == tail;
  }

  lemma {:induction false} TokensBehindBlank(b: byte, s: Bytes)
    requires b == 32 || b == 9
    ensures Tokens([b] + s) == Tokens(s)
  {
    var t := [b] + s;
    assert t[1..] == s;
    SkipBlanks(t);
    SkipBlanks(s);
    assert t[Span(t, true)..] == s[Span(s, true)..];
  }

  /** A text splits at any space or tab; together with the next lemma this determines the tokens of every text. */
  lemma {:induction false} TokensSplit(a: Bytes, b: byte, c: Bytes)
    requires b == 32 || b == 9
    ensures Tokens(a + [b] + c) == Tokens(a) + Tokens(c)
    decreases |a|
  {
    var s := a + [b] + c;
    if a == [] {
      assert s == [b] + c && Tokens([]) + Tokens(c) == Tokens(c);
      TokensBehindBlank(b, c);
    } else if a[0] == 32 || a[0] == 9 {
      TokensSplit(a[1..], b, c);
      assert a == [a[0]] + a[1..] && s == [a[0]] + (a[1..] + [b] + c);
      TokensBehindBlank(a[0], a[1..]);
      TokensBehindBlank(a[0], a[1..] + [b] + c);
    } else {
      FirstOfSplit(a, b, c);
    }
  }

  lemma {:induction false} FirstOfSplit(a: Bytes, b: byte, c: Bytes)
    requires (b == 32 || b == 9) && a != [] && !Blank(a[0])
    ensures Tokens(a + [b] + c) == Tokens(a) + Tokens(c)
    decreases |a|, 0
  {
    var n := Span(a, false);
    FirstToken(a);
    var token, rest := a[..n], a[n..];
    assert a == token + rest && a + [b] + c == token + (rest + [b] + c);
    TokensOfFirst(token, rest + [b] + c);
    TokensSplit(rest, b, c);
    Regroup([token], Tokens(rest), Tokens(c));
  }

  lemma {:induction false} TokensWithoutBlanks(s: Bytes)
    requires 32 !in s && 9 !in s
    ensures Tokens(s) == if s == [] then [] else [s]
  {
    if s != [] {
      TokensOfFirst(s, []);
      assert s + [] == s;
    }
  }

  lemma {:induction false} JoinOfFirst(tokens: seq<Bytes>, rest: Bytes)
    requires tokens != [] && AreTokens(tokens) && rest == if |tokens| == 1 then [] else [32] + Join(tokens[1..])
    ensures Join(tokens) == tokens[0] + rest && tokens[0] in tokens
  {
    if |tokens| > 1 {
      Regroup(tokens[0], [32], Join(tokens[1..]));
    }
  }

  /** The scan of a list finds the tokens it was written from. */
  lemma {:induction false} TokensOfJoin(tokens: seq<Bytes>)
    requires AreTokens(tokens)
    ensures Tokens(Join(tokens)) == tokens
  {
    if tokens != [] {
      TokensOfJoin(tokens[1..]);
      var rest := if |tokens| == 1 then [] else [32] + Join(tokens[1..]);
      JoinOfFirst(tokens, rest);
      TokensOfFirst(tokens[0], rest);
      TokensBehindBlank(32, Join(tokens[1..]));
      assert tokens == [tokens[0]] + tokens[1..];
    }
  }

  /** Lists of the same tokens, in any order and however often each is repeated, give the same answer for every host. */
  lemma {:induction false} OrderDoesNotMatter(a: seq<Bytes>, b: seq<Bytes>, host: Bytes)
    requires AreTokens(a) && AreTokens(b) && (forall t :: t in a <==> t in b)
    requires |Join(a)| <= 1023 && |Join(b)| <= 1023
    ensures ListMatches(Join(a), host) <==> ListMatches(Join(b), host)
  {
    TokensOfJoin(a);
    TokensOfJoin(b);
  }

  /** A list that is written out, token by token: an exclamation mark in front negates, and stands for nothing alone. */
  lemma {:induction false} ListWritten(tokens: seq<Bytes>, host: Bytes)
    requires AreTokens(tokens) && |Join(tokens)| <= 1023
    ensures ListMatches(Join(tokens), host) <==>
      && (exists t :: t in tokens && t[0] != 33 && Matches(t, host))
      && !(exists t :: t in tokens && t[0] == 33 && |t| > 1 && Matches(t[1..], host))
  {
    hide Matches, Tokens;
    TokensOfJoin(tokens);
    if t :| t in tokens && t[0] != 33 && Matches(t, host) {
      assert !Negated(t) && Hits(t, host);
    }
    if t :| t in tokens && t[0] == 33 && |t| > 1 && Matches(t[1..], host) {
      assert Negated(t) && Hits(t, host);
    }
  }

  /** Of a longer list only the first 1023 bytes count. */
  lemma LongListCut(patterns: Bytes, host: Bytes)
    requires |patterns| > 1023
    ensures ListMatches(patterns, host) <==> ListMatches(patterns[..1023], host)
  {
  }
}
