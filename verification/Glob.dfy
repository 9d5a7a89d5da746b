/** The two glob matchers: MatchPattern (engine/glob.go) for keys and channels, and
    globMatch (config/spec.go) for CONFIG GET. */
module Glob {
  import opened Bytes

  const Asterisk: byte := 42
  const Question: byte := 63
  const OpenBracket: byte := 91
  const CloseBracket: byte := 93
  const Caret: byte := 94
  const Backslash: byte := 92
  const Dash: byte := 45

  datatype Range = Range(lo: byte, hi: byte)

  datatype Token = Star | Any | Class(negate: bool, ranges: seq<Range>) | Literal(b: byte)

  predicate InRanges(ranges: seq<Range>, c: byte) {
    exists i :: 0 <= i < |ranges| && ranges[i].lo <= c <= ranges[i].hi
  }

  /** Whether a token other than Star takes a byte. */
  predicate Accepts(tok: Token, c: byte) {
    match tok
    case Star => false
    case Any => true
    case Class(negate, ranges) => InRanges(ranges, c) != negate
    case Literal(b) => c == b
  }

  /** What a pattern means: a star takes any run of bytes, every other token one. */
  ghost predicate Matches(toks: seq<Token>, s: bytes)
    decreases |toks|
  {
    if toks == [] then s == []
    else if toks[0] == Star then exists k :: 0 <= k <= |s| && Matches(toks[1..], s[k..])
    else s != [] && Accepts(toks[0], s[0]) && Matches(toks[1..], s[1..])
  }

  // ------------------------------------------------------------------ reading tokens

  function Between(a: byte, b: byte): Range {
    if a > b then Range(b, a) else Range(a, b)
  }

  /** The ranges of a bracket expression after '[' and '^', and how many bytes it
      takes with its ']'.  One that is never closed takes the rest of the pattern. */
  function ClassBody(p: bytes): (r: (seq<Range>, nat))
    ensures r.1 <= |p|
  {
    if p == [] then ([], 0)
    else if p[0] == Backslash && |p| > 1 then
      var (rest, n) := ClassBody(p[2..]);
      ([Range(p[1], p[1])] + rest, n + 2)
    else if p[0] == CloseBracket then ([], 1)
    else if |p| > 2 && p[1] == Dash && p[2] != CloseBracket then
      var (rest, n) := ClassBody(p[3..]);
      ([Between(p[0], p[2])] + rest, n + 3)
    else
      var (rest, n) := ClassBody(p[1..]);
      ([Range(p[0], p[0])] + rest, n + 1)
  }

  /** The first token of a pattern and its length. */
  function First(p: bytes): (r: (Token, nat))
    requires p != []
    ensures 0 < r.1 <= |p|
  {
    if p[0] == Asterisk then (Star, 1)
    else if p[0] == Question then (Any, 1)
    else if p[0] == OpenBracket then
      var negate := |p| > 1 && p[1] == Caret;
      var start := if negate then 2 else 1;
      var (ranges, n) := ClassBody(p[start..]);
      (Class(negate, ranges), start + n)
    else if p[0] == Backslash && |p| > 1 then (Literal(p[1]), 2)
    else (Literal(p[0]), 1)
  }

  function Tokens(p: bytes): seq<Token>
    decreases |p|
  {
    if p == [] then [] else [First(p).0] + Tokens(p[First(p).1..])
  }

  lemma TokensCons(p: bytes)
    requires p != []
    ensures Tokens(p)[0] == First(p).0 && Tokens(p)[1..] == Tokens(p[First(p).1..])
  {
  }

  // ------------------------------------------------------------------- MatchPattern

  lemma InRangesCons(r: Range, ranges: seq<Range>, c: byte)
    ensures InRanges([r] + ranges, c) <==> r.lo <= c <= r.hi || InRanges(ranges, c)
  {
    var all := [r] + ranges;
    if InRanges(ranges, c) {
      var i :| 0 <= i < |ranges| && ranges[i].lo <= c <= ranges[i].hi;
      assert all[i + 1] == ranges[i];
    }
    if r.lo <= c <= r.hi {
      assert all[0] == r;
    }
    if InRanges(all, c) && !(r.lo <= c <= r.hi) {
      var i :| 0 <= i < |all| && all[i].lo <= c <= all[i].hi;
      assert ranges[i - 1] == all[i];
    }
  }

  /** One item of a class: its range, and how many bytes it takes. */
  function Item(p: bytes): (Range, nat)
    requires p != []
  {
    if p[0] == Backslash && |p| > 1 then (Range(p[1], p[1]), 2)
    else if |p| > 2 && p[1] == Dash && p[2] != CloseBracket then (Between(p[0], p[2]), 3)
    else (Range(p[0], p[0]), 1)
  }

  predicate Closes(p: bytes) {
    p != [] && p[0] == CloseBracket
  }

  lemma BodyCons(pattern: bytes, p: nat, c: byte)
    requires p < |pattern| && !Closes(pattern[p..])
    ensures var (r, n) := Item(pattern[p..]);
            && p + n <= |pattern|
            && (InRanges(ClassBody(pattern[p..]).0, c) <==> r.lo <= c <= r.hi || InRanges(ClassBody(pattern[p + n..]).0, c))
            && ClassBody(pattern[p..]).1 == n + ClassBody(pattern[p + n..]).1
  {
    var (r, n) := Item(pattern[p..]);
    assert pattern[p..][n..] == pattern[p + n..];
    InRangesCons(r, ClassBody(pattern[p + n..]).0, c);
  }

  /** What matchClass's loop has found when it stands at p. */
  ghost predicate InClass(pattern: bytes, start: nat, p: nat, c: byte, matched: bool)
    requires start <= |pattern|
  {
    && start <= p <= |pattern|
    && InRanges(ClassBody(pattern[start..]).0, c) == (matched || InRanges(ClassBody(pattern[p..]).0, c))
    && start + ClassBody(pattern[start..]).1 == p + ClassBody(pattern[p..]).1
  }

  lemma InClassNext(pattern: bytes, start: nat, p: nat, c: byte, matched: bool)
    requires start <= p < |pattern| && InClass(pattern, start, p, c, matched) && !Closes(pattern[p..])
    ensures var (r, n) := Item(pattern[p..]);
            InClass(pattern, start, p + n, c, matched || r.lo <= c <= r.hi)
  {
    BodyCons(pattern, p, c);
  }

  /** matchClass's loop. */
  method ClassLoop(pattern: bytes, start: nat, c: byte) returns (end: nat, matched: bool)
    requires 0 < start <= |pattern|
    ensures matched == InRanges(ClassBody(pattern[start..]).0, c)
    ensures end + 1 == start + ClassBody(pattern[start..]).1
  {
    var p := start;
    matched := false;
    while true
      invariant start <= p && InClass(pattern, start, p, c, matched)
      decreases |pattern| - p
    {
      if p >= |pattern| {
        return p - 1, matched;
      }
      if pattern[p] == Backslash && p + 1 < |pattern| {
        InClassNext(pattern, start, p, c, matched);
        p := p + 1;
        if pattern[p] == c {
          matched := true;
        }
      } else if pattern[p] == CloseBracket {
        return p, matched;
      } else if p + 2 < |pattern| && pattern[p + 1] == Dash && pattern[p + 2] != CloseBracket {
        InClassNext(pattern, start, p, c, matched);
        var lo, hi := pattern[p], pattern[p + 2];
        if lo > hi {
          lo, hi := hi, lo;
        }
        if c >= lo && c <= hi {
          matched := true;
        }
        p := p + 2;
      } else {
        InClassNext(pattern, start, p, c, matched);
        if pattern[p] == c {
          matched := true;
        }
      }
      p := p + 1;
    }
  }

  /** matchClass: the index of the last byte of the class, and whether c is in it. */
  method MatchClass(pattern: bytes, at: nat, c: byte) returns (end: nat, ok: bool)
    requires at < |pattern| && pattern[at] == OpenBracket
    ensures end + 1 == at + First(pattern[at..]).1
    ensures ok == Accepts(First(pattern[at..]).0, c)
  {
    var p := at + 1;
    var negate := p < |pattern| && pattern[p] == Caret;
    if negate {
      p := p + 1;
    }
    ghost var rest := pattern[at..];
    assert rest[if negate then 2 else 1..] == pattern[p..];
    var matched;
    end, matched := ClassLoop(pattern, p, c);
    ok := matched != negate;
  }

  // --------------------------------------------------------------------- the matcher

  /** Whether the rest of the pattern matches the rest of the string. */
  ghost predicate Rest(pattern: bytes, p: nat, s: bytes, t: nat)
    requires p <= |pattern| && t <= |s|
  {
    Matches(Tokens(pattern[p..]), s[t..])
  }

  lemma RestStep(pattern: bytes, p: nat, s: bytes, t: nat)
    requires p < |pattern| && t < |s| && First(pattern[p..]).0 != Star
    ensures var (tok, n) := First(pattern[p..]);
            Rest(pattern, p, s, t) <==> Accepts(tok, s[t]) && Rest(pattern, p + n, s, t + 1)
  {
    var (tok, n) := First(pattern[p..]);
    TokensCons(pattern[p..]);
    assert pattern[p..][n..] == pattern[p + n..] && s[t..][1..] == s[t + 1..];
  }

  /** The pattern from q on matches some later part of the string. */
  ghost predicate RestSome(pattern: bytes, q: nat, s: bytes, t: nat)
    requires q <= |pattern| && t <= |s|
  {
    exists i :: t <= i <= |s| && Rest(pattern, q, s, i)
  }

  lemma RestStar(pattern: bytes, p: nat, s: bytes, t: nat)
    requires p < |pattern| && t <= |s| && pattern[p] == Asterisk
    ensures Rest(pattern, p, s, t) <==> RestSome(pattern, p + 1, s, t)
  {
    var u, q := s[t..], p + 1;
    TokensCons(pattern[p..]);
    assert pattern[p..][1..] == pattern[q..];
    if Rest(pattern, p, s, t) {
      var k :| 0 <= k <= |u| && Matches(Tokens(pattern[q..]), u[k..]);
      assert s[t + k..] == u[k..];
      assert Rest(pattern, q, s, t + k);
    }
    if RestSome(pattern, q, s, t) {
      var i :| t <= i <= |s| && Rest(pattern, q, s, i);
      assert s[i..] == u[i - t..];
      assert Matches(Tokens(pattern[q..]), u[i - t..]);
    }
  }

  /** A star after a star adds nothing. */
  lemma StarStar(pattern: bytes, p: nat, s: bytes, t: nat)
    requires p + 1 < |pattern| && t <= |s| && pattern[p] == Asterisk && pattern[p + 1] == Asterisk
    ensures Rest(pattern, p, s, t) <==> Rest(pattern, p + 1, s, t)
  {
    var q := p + 1;
    RestStar(pattern, p, s, t);
    RestStar(pattern, q, s, t);
    if Rest(pattern, p, s, t) {
      var i :| t <= i <= |s| && Rest(pattern, q, s, i);
      RestStar(pattern, q, s, i);
    }
  }

  /** What is left of a string that has run out: stars only. */
  lemma {:induction false} RestEmpty(pattern: bytes, p: nat, s: bytes)
    requires p <= |pattern|
    ensures p == |pattern| ==> Rest(pattern, p, s, |s|)
    ensures p < |pattern| && pattern[p] == Asterisk ==> (Rest(pattern, p, s, |s|) <==> Rest(pattern, p + 1, s, |s|))
    ensures p < |pattern| && pattern[p] != Asterisk ==> !Rest(pattern, p, s, |s|)
  {
    assert s[|s|..] == [];
    if p < |pattern| {
      TokensCons(pattern[p..]);
      if pattern[p] == Asterisk {
        RestStar(pattern, p, s, |s|);
      }
    } else {
      assert pattern[p..] == [];
    }
  }

  /** A pattern that has run out matches nothing more. */
  lemma RestDone(pattern: bytes, s: bytes, t: nat)
    requires t <= |s|
    ensures Rest(pattern, |pattern|, s, t) <==> t == |s|
  {
    assert pattern[|pattern|..] == [];
  }

  lemma TrailingStar(pattern: bytes, s: bytes, t: nat)
    requires pattern != [] && pattern[|pattern| - 1] == Asterisk && t <= |s|
    ensures Rest(pattern, |pattern| - 1, s, t)
  {
    RestStar(pattern, |pattern| - 1, s, t);
    RestDone(pattern, s, |s|);
  }

  /** The run of stars at p is passed over. */
  method SkipStars(pattern: bytes, at: nat, ghost s: bytes) returns (p: nat)
    requires at <= |pattern|
    ensures at <= p <= |pattern| && (p < |pattern| ==> pattern[p] != Asterisk)
    ensures Rest(pattern, at, s, |s|) <==> p == |pattern|
  {
    p := at;
    while p < |pattern| && pattern[p] == Asterisk
      invariant at <= p <= |pattern|
      invariant Rest(pattern, at, s, |s|) <==> Rest(pattern, p, s, |s|)
    {
      RestEmpty(pattern, p, s);
      p := p + 1;
    }
    RestEmpty(pattern, p, s);
  }

  /** MatchPattern's case '*': stars collapsed, then every split tried. */
  method MatchStar(pattern: bytes, at: nat, s: bytes, t: nat) returns (r: bool)
    requires at < |pattern| && pattern[at] == Asterisk && t < |s|
    ensures r == Rest(pattern, at, s, t)
    decreases |pattern|, 0
  {
    var p := at;
    while p + 1 < |pattern| && pattern[p + 1] == Asterisk
      invariant at <= p < |pattern| && pattern[p] == Asterisk
      invariant Rest(pattern, at, s, t) <==> Rest(pattern, p, s, t)
    {
      StarStar(pattern, p, s, t);
      p := p + 1;
    }
    if p + 1 == |pattern| {
      TrailingStar(pattern, s, t);
      return true;
    }
    RestStar(pattern, p, s, t);
    var q, i := p + 1, t;
    while i <= |s|
      invariant t <= i <= |s| + 1
      invariant forall j | t <= j < i :: !Rest(pattern, q, s, j)
    {
      r := MatchPattern(pattern[q..], s[i..]);
      assert r == Rest(pattern, q, s, i);
      if r {
        return true;
      }
      i := i + 1;
    }
    return false;
  }

  /** MatchPattern's other cases: one token against one byte. */
  method MatchToken(pattern: bytes, at: nat, c: byte) returns (p: nat, ok: bool)
    requires at < |pattern| && pattern[at] != Asterisk
    ensures ok == Accepts(First(pattern[at..]).0, c)
    ensures ok ==> p + 1 == at + First(pattern[at..]).1
  {
    p := at;
    if pattern[p] == Question {
      return p, true;
    } else if pattern[p] == OpenBracket {
      p, ok := MatchClass(pattern, p, c);
    } else if pattern[p] == Backslash {
      if p + 1 < |pattern| {
        p := p + 1;
      }
      ok := pattern[p] == c;
    } else {
      ok := pattern[p] == c;
    }
  }

  /** MatchPattern's loop. */
  method MatchRest(pattern: bytes, s: bytes) returns (r: bool)
    ensures r == Rest(pattern, 0, s, 0)
    decreases |pattern|, 1
  {
    var p, t := 0, 0;
    while p < |pattern| && t < |s|
      invariant 0 <= p <= |pattern| && 0 <= t <= |s|
      invariant Rest(pattern, 0, s, 0) <==> Rest(pattern, p, s, t)
      decreases |pattern| - p
    {
      if pattern[p] == Asterisk {
        r := MatchStar(pattern, p, s, t);
        return;
      }
      RestStep(pattern, p, s, t);
      var end, ok := MatchToken(pattern, p, s[t]);
      if !ok {
        return false;
      }
      p, t := end + 1, t + 1;
    }
    if t < |s| {
      RestDone(pattern, s, t);
      return false;
    }
    p := SkipStars(pattern, p, s);
    return p == |pattern|;
  }

  /** MatchPattern decides exactly what the pattern's tokens mean. */
  method MatchPattern(pattern: bytes, s: bytes) returns (r: bool)
    ensures r == Matches(Tokens(pattern), s)
    decreases |pattern|, 2
  {
    assert pattern[0..] == pattern && s[0..] == s;
    r := MatchRest(pattern, s);
  }

  // ---------------------------------------------------------------------- globMatch

  /** globMatch's patterns: stars, question marks and literals, nothing else. */
  function Simple(pattern: bytes): (toks: seq<Token>)
    ensures |toks| == |pattern|
  {
    seq(|pattern|, i requires 0 <= i < |pattern| =>
      if pattern[i] == Asterisk then Star else if pattern[i] == Question then Any else Literal(pattern[i]))
  }

  /** Full backtracking semantics from position p of the pattern and t of the name. */
  ghost predicate Full(pattern: bytes, p: nat, s: bytes, t: nat)
    requires p <= |pattern| && t <= |s|
  {
    Matches(Simple(pattern)[p..], s[t..])
  }

  ghost predicate FullSome(pattern: bytes, q: nat, s: bytes, t: nat)
    requires q <= |pattern| && t <= |s|
  {
    exists i :: t <= i <= |s| && Full(pattern, q, s, i)
  }

  lemma FullStep(pattern: bytes, p: nat, s: bytes, t: nat)
    requires p < |pattern| && t <= |s| && pattern[p] != Asterisk
    ensures Full(pattern, p, s, t) <==>
            t < |s| && (pattern[p] == Question || pattern[p] == s[t]) && Full(pattern, p + 1, s, t + 1)
  {
    var toks := Simple(pattern);
    assert toks[p..][1..] == toks[p + 1..];
    if t < |s| {
      assert s[t..][1..] == s[t + 1..];
    }
  }

  lemma FullStar(pattern: bytes, p: nat, s: bytes, t: nat)
    requires p < |pattern| && t <= |s| && pattern[p] == Asterisk
    ensures Full(pattern, p, s, t) <==> FullSome(pattern, p + 1, s, t)
  {
    var toks, u, q := Simple(pattern), s[t..], p + 1;
    assert toks[p..][1..] == toks[q..];
    if Full(pattern, p, s, t) {
      var k :| 0 <= k <= |u| && Matches(toks[q..], u[k..]);
      assert s[t + k..] == u[k..];
      assert Full(pattern, q, s, t + k);
    }
    if FullSome(pattern, q, s, t) {
      var i :| t <= i <= |s| && Full(pattern, q, s, i);
      assert s[i..] == u[i - t..];
      assert Matches(toks[q..], u[i - t..]);
    }
  }

  lemma FullDone(pattern: bytes, s: bytes, t: nat)
    requires t <= |s|
    ensures Full(pattern, |pattern|, s, t) <==> t == |s|
  {
    assert Simple(pattern)[|pattern|..] == [];
  }

  /** pattern[q..p] holds no star. */
  ghost predicate StarFree(pattern: bytes, q: nat, p: nat) {
    forall i | q <= i < p && i < |pattern| :: pattern[i] != Asterisk
  }

  /** A stretch without stars takes exactly as many bytes as it is long. */
  lemma {:induction false} StretchTakes(pattern: bytes, q: nat, p: nat, s: bytes, k: nat)
    requires q <= p <= |pattern| && StarFree(pattern, q, p) && k <= |s| && Full(pattern, q, s, k)
    ensures k + (p - q) <= |s| && Full(pattern, p, s, k + (p - q))
    decreases p - q
  {
    if q < p {
      FullStep(pattern, q, s, k);
      StretchTakes(pattern, q + 1, p, s, k + 1);
    }
  }

  predicate AllStars(pattern: bytes, p: nat)
    decreases |pattern| - p
  {
    p >= |pattern| || (pattern[p] == Asterisk && AllStars(pattern, p + 1))
  }

  /** globMatch's loop, from one of its states: it returns only to its last star. */
  function GlobLoop(pattern: bytes, s: bytes, p: nat, t: nat, star: int, m: nat): bool
    requires p <= |pattern| && t <= |s| && -1 <= star < p && (star < 0 ==> m == 0) && m <= t
    decreases |pattern| - star, |s| - m, |s| - t
  {
    if t == |s| then AllStars(pattern, p)
    else if p < |pattern| && (pattern[p] == s[t] || pattern[p] == Question) then GlobLoop(pattern, s, p + 1, t + 1, star, m)
    else if p < |pattern| && pattern[p] == Asterisk then GlobLoop(pattern, s, p + 1, t, p, t)
    else if star >= 0 then GlobLoop(pattern, s, star + 1, m + 1, star, m + 1)
    else false
  }

  function GlobMatch(pattern: bytes, s: bytes): bool {
    pattern == [Asterisk] || GlobLoop(pattern, s, 0, 0, -1, 0)
  }

  /** globMatch. */
  method GlobMatchLoop(pattern: bytes, s: bytes) returns (r: bool)
    ensures r == GlobMatch(pattern, s)
  {
    if pattern == [Asterisk] {
      return true;
    }
    var p, t, star, m := 0, 0, -1, 0;
    while t < |s|
      invariant 0 <= p <= |pattern| && 0 <= m <= t <= |s| && -1 <= star < p && (star < 0 ==> m == 0)
      invariant GlobMatch(pattern, s) == GlobLoop(pattern, s, p, t, star, m)
      decreases |pattern| - star, |s| - m, |s| - t
    {
      if p < |pattern| && (pattern[p] == s[t] || pattern[p] == Question) {
        p, t := p + 1, t + 1;
      } else if p < |pattern| && pattern[p] == Asterisk {
        star, m := p, t;
        p := p + 1;
      } else if star >= 0 {
        p := star + 1;
        m := m + 1;
        t := m;
      } else {
        return false;
      }
    }
    while p < |pattern| && pattern[p] == Asterisk
      invariant 0 <= p <= |pattern|
      invariant GlobMatch(pattern, s) == AllStars(pattern, p)
    {
      p := p + 1;
    }
    return p == |pattern|;
  }

  lemma {:induction false} AllStarsIs(pattern: bytes, p: nat, s: bytes)
    requires p <= |pattern|
    ensures AllStars(pattern, p) <==> Full(pattern, p, s, |s|)
    decreases |pattern| - p
  {
    if p == |pattern| {
      FullDone(pattern, s, |s|);
    } else if pattern[p] == Asterisk {
      FullStar(pattern, p, s, |s|);
      AllStarsIs(pattern, p + 1, s);
    } else {
      FullStep(pattern, p, s, |s|);
    }
  }

  /** What holds of the loop's state once it has met a star: the stretch since then
      has no other star and has matched byte for byte. */
  ghost predicate Trying(pattern: bytes, s: bytes, p: nat, t: nat, star: int, m: nat)
    requires p <= |pattern| && t <= |s| && star < p && m <= t
  {
    star >= 0 ==>
      && StarFree(pattern, star + 1, p) && p - (star + 1) == t - m
      && (Full(pattern, star + 1, s, m) <==> Full(pattern, p, s, t))
  }

  /** What the loop will answer. */
  ghost predicate Answer(pattern: bytes, s: bytes, p: nat, t: nat, star: int, m: nat)
    requires p <= |pattern| && t <= |s| && -1 <= star < p && m <= t
  {
    if star >= 0 then FullSome(pattern, star + 1, s, m) else Full(pattern, p, s, t)
  }

  /** If the pattern matches from the last star at all, it does so from a place where
      the stretch since that star has been passed. */
  lemma Onward(pattern: bytes, s: bytes, p: nat, t: nat, star: int, m: nat) returns (j: nat)
    requires p <= |pattern| && t <= |s| && 0 <= star < p && m <= t && Trying(pattern, s, p, t, star, m)
    requires FullSome(pattern, star + 1, s, m)
    ensures t <= j <= |s| && Full(pattern, p, s, j)
  {
    var q := star + 1;
    var i :| m <= i <= |s| && Full(pattern, q, s, i);
    StretchTakes(pattern, q, p, s, i);
    j := i + (p - q);
  }

  lemma AtEnd(pattern: bytes, s: bytes, p: nat, star: int, m: nat)
    requires p <= |pattern| && -1 <= star < p && m <= |s| && Trying(pattern, s, p, |s|, star, m)
    ensures AllStars(pattern, p) <==> Answer(pattern, s, p, |s|, star, m)
  {
    AllStarsIs(pattern, p, s);
    if star >= 0 && FullSome(pattern, star + 1, s, m) {
      var j := Onward(pattern, s, p, |s|, star, m);
    }
  }

  lemma AtStar(pattern: bytes, s: bytes, p: nat, t: nat, star: int, m: nat)
    requires p < |pattern| && t <= |s| && -1 <= star < p && m <= t && Trying(pattern, s, p, t, star, m) && pattern[p] == Asterisk
    ensures Answer(pattern, s, p, t, star, m) <==> FullSome(pattern, p + 1, s, t)
  {
    var q := p + 1;
    FullStar(pattern, p, s, t);
    if star >= 0 && FullSome(pattern, star + 1, s, m) {
      var j := Onward(pattern, s, p, t, star, m);
      FullStar(pattern, p, s, j);
      var i :| j <= i <= |s| && Full(pattern, q, s, i);
    }
  }

  lemma AtMismatch(pattern: bytes, s: bytes, p: nat, t: nat, star: int, m: nat)
    requires p <= |pattern| && t < |s| && 0 <= star < p && m <= t && Trying(pattern, s, p, t, star, m)
    requires !Full(pattern, p, s, t)
    ensures FullSome(pattern, star + 1, s, m) <==> FullSome(pattern, star + 1, s, m + 1)
  {
  }

  /** One star remembered is enough, as long as the name has none itself. */
  lemma {:induction false} GlobLoopIs(pattern: bytes, s: bytes, p: nat, t: nat, star: int, m: nat)
    requires Asterisk !in s
    requires p <= |pattern| && t <= |s| && -1 <= star < p && (star < 0 ==> m == 0) && m <= t
    requires Trying(pattern, s, p, t, star, m)
    ensures GlobLoop(pattern, s, p, t, star, m) <==> Answer(pattern, s, p, t, star, m)
    decreases |pattern| - star, |s| - m, |s| - t
  {
    if t == |s| {
      AtEnd(pattern, s, p, star, m);
    } else if p < |pattern| && (pattern[p] == s[t] || pattern[p] == Question) {
      assert s[t] in s;
      FullStep(pattern, p, s, t);
      GlobLoopIs(pattern, s, p + 1, t + 1, star, m);
    } else if p < |pattern| && pattern[p] == Asterisk {
      AtStar(pattern, s, p, t, star, m);
      GlobLoopIs(pattern, s, p + 1, t, p, t);
    } else {
      if p == |pattern| {
        FullDone(pattern, s, t);
      } else {
        FullStep(pattern, p, s, t);
      }
      if star >= 0 {
        AtMismatch(pattern, s, p, t, star, m);
        GlobLoopIs(pattern, s, star + 1, m + 1, star, m + 1);
      }
    }
  }

  lemma GlobAgrees(pattern: bytes, s: bytes)
    requires Asterisk !in s
    ensures GlobMatch(pattern, s) <==> Full(pattern, 0, s, 0)
  {
    GlobLoopIs(pattern, s, 0, 0, -1, 0);
    if pattern == [Asterisk] {
      FullStar(pattern, 0, s, 0);
      FullDone(pattern, s, |s|);
    }
  }

  // ------------------------------------------------------------ where globMatch fails

  /** A name's bytes up to its first star, that star, and a question mark for each
      byte from the star on. */
  function Trap(s: bytes, i: nat): bytes
    requires i < |s|
  {
    s[..i] + [Asterisk] + seq(|s| - i, _ => Question)
  }

  lemma {:induction false} TrapFails(s: bytes, i: nat, j: nat)
    requires i < |s| && s[i] == Asterisk && j <= |s|
    ensures |Trap(s, i)| == |s| + 1 && !GlobLoop(Trap(s, i), s, j, j, -1, 0)
    decreases |s| - j
  {
    if j < |s| {
      TrapFails(s, i, j + 1);
    }
  }

  lemma {:induction false} QuestionsTake(s: bytes, i: nat, j: nat)
    requires i < |s| && i <= j <= |s|
    ensures Full(Trap(s, i), j + 1, s, j)
    decreases |s| - j
  {
    if j == |s| {
      FullDone(Trap(s, i), s, j);
    } else {
      QuestionsTake(s, i, j + 1);
      FullStep(Trap(s, i), j + 1, s, j);
    }
  }

  lemma {:induction false} TrapMatches(s: bytes, i: nat, j: nat)
    requires i < |s| && s[i] == Asterisk && Asterisk !in s[..i] && j <= i
    ensures Full(Trap(s, i), j, s, j)
    decreases i - j
  {
    var pattern := Trap(s, i);
    if j == i {
      QuestionsTake(s, i, i);
      assert Full(pattern, i + 1, s, i);
      FullStar(pattern, i, s, i);
    } else {
      assert s[..i][j] == s[j];
      TrapMatches(s, i, j + 1);
      FullStep(pattern, j, s, j);
    }
  }

  lemma {:induction false} FirstStar(s: bytes) returns (i: nat)
    requires Asterisk in s
    ensures i < |s| && s[i] == Asterisk && Asterisk !in s[..i]
  {
    if s[0] == Asterisk {
      i := 0;
    } else {
      var j := FirstStar(s[1..]);
      i := j + 1;
      assert s[..i] == [s[0]] + s[1..][..j];
    }
  }

  /** globMatch means what full backtracking means for every pattern exactly when the
      name contains no star: a name with one is missed by the pattern that spells it
      up to there, then a star, then a question mark per byte. */
  lemma GlobExact(s: bytes)
    ensures (forall pattern :: GlobMatch(pattern, s) <==> Full(pattern, 0, s, 0)) <==> Asterisk !in s
  {
    if Asterisk in s {
      var i := FirstStar(s);
      TrapFails(s, i, 0);
      TrapMatches(s, i, 0);
      assert !GlobMatch(Trap(s, i), s);
    } else {
      forall pattern ensures GlobMatch(pattern, s) <==> Full(pattern, 0, s, 0) {
        GlobAgrees(pattern, s);
      }
    }
  }
}
