/** What each piece of a glob pattern stands for, written as a user writes it
    (engine/glob.go): the laws by which a pattern is taken apart from the left. */
module GlobMeaning {
  import opened Bytes
  import opened Glob

  /** The pattern matches the name. */
  ghost predicate Fits(pattern: bytes, s: bytes) {
    Matches(Tokens(pattern), s)
  }

  lemma FitsFirst(pattern: bytes, s: bytes)
    requires pattern != [] && First(pattern).0 != Star
    ensures Fits(pattern, s) <==> s != [] && Accepts(First(pattern).0, s[0]) && Fits(pattern[First(pattern).1..], s[1..])
  {
    TokensCons(pattern);
  }

  lemma NothingMeans(s: bytes)
    ensures Fits([], s) <==> s == []
  {
  }

  /** `*` takes any run of bytes. */
  lemma StarMeans(p: bytes, s: bytes)
    ensures Fits([42] + p, s) <==> exists k :: 0 <= k <= |s| && Fits(p, s[k..])
  {
    var all := [42] + p;
    TokensCons(all);
    assert all[1..] == p;
    if Fits(all, s) {
      var k :| 0 <= k <= |s| && Matches(Tokens(all)[1..], s[k..]);
      assert Fits(p, s[k..]);
    }
    if k :| 0 <= k <= |s| && Fits(p, s[k..]) {
      assert Matches(Tokens(all)[1..], s[k..]);
    }
  }

  /** `?` takes one byte, whatever it is. */
  lemma QuestionMeans(p: bytes, s: bytes)
    ensures Fits([63] + p, s) <==> s != [] && Fits(p, s[1..])
  {
    assert ([63] + p)[1..] == p;
    FitsFirst([63] + p, s);
  }

  /** A byte other than `*`, `?`, `[` and `\` takes itself. */
  lemma OrdinaryMeans(b: byte, p: bytes, s: bytes)
    requires b != 42 && b != 63 && b != 91 && b != 92
    ensures Fits([b] + p, s) <==> s != [] && s[0] == b && Fits(p, s[1..])
  {
    assert ([b] + p)[1..] == p;
    FitsFirst([b] + p, s);
  }

  /** `\` makes the next byte take itself, and with nothing after it takes a backslash. */
  lemma EscapeMeans(b: byte, p: bytes, s: bytes)
    ensures Fits([92, b] + p, s) <==> s != [] && s[0] == b && Fits(p, s[1..])
    ensures Fits([92], s) <==> s == [92]
  {
    assert ([92, b] + p)[2..] == p;
    FitsFirst([92, b] + p, s);
    FitsFirst([92], s);
  }

  // -------------------------------------------------------------------------- classes

  /** An item of a class: an escaped byte, a byte, or the bytes between two. */
  datatype Member = Escaped(b: byte) | Bare(b: byte) | Span(a: byte, b: byte)

  /** Not one of `\ ] ^ -`. */
  predicate Plain(b: byte) {
    b != 92 && b != 93 && b != 94 && b != 45
  }

  predicate Readable(m: Member) {
    match m
    case Escaped(_) => true
    case Bare(b) => Plain(b)
    case Span(a, b) => Plain(a) && b != 93
  }

  predicate AllReadable(ms: seq<Member>) {
    ms == [] || (Readable(ms[0]) && AllReadable(ms[1..]))
  }

  function Text(m: Member): bytes {
    match m
    case Escaped(b) => [92, b]
    case Bare(b) => [b]
    case Span(a, b) => [a, 45, b]
  }

  function Texts(ms: seq<Member>): bytes {
    if ms == [] then [] else Text(ms[0]) + Texts(ms[1..])
  }

  /** A span may be written either way round. */
  predicate Takes(m: Member, c: byte) {
    match m
    case Escaped(b) => c == b
    case Bare(b) => c == b
    case Span(a, b) => a <= c <= b || b <= c <= a
  }

  predicate SomeTakes(ms: seq<Member>, c: byte) {
    exists i :: 0 <= i < |ms| && Takes(ms[i], c)
  }

  lemma SomeCons(m: Member, ms: seq<Member>, c: byte)
    ensures SomeTakes([m] + ms, c) <==> Takes(m, c) || SomeTakes(ms, c)
  {
    var all := [m] + ms;
    if Takes(m, c) {
      assert Takes(all[0], c);
    }
    if i :| 0 <= i < |ms| && Takes(ms[i], c) {
      assert Takes(all[i + 1], c);
    }
    if i :| 0 <= i < |all| && Takes(all[i], c) {
      assert i > 0 ==> all[i] == ms[i - 1];
    }
  }

  /** What may follow the members: the closing bracket, or the pattern's end. */
  predicate Closing(tail: bytes) {
    tail == [] || tail[0] == 93
  }

  /** The bytes after a member do not make a span of it. */
  lemma {:induction false} NoDash(ms: seq<Member>, tail: bytes)
    requires AllReadable(ms) && Closing(tail)
    ensures Texts(ms) + tail == [] || (Texts(ms) + tail)[0] != 45
    ensures Texts(ms) + tail == [] || (Texts(ms) + tail)[0] != 94
  {
    if ms != [] {
      assert (Texts(ms) + tail)[0] == Text(ms[0])[0];
    } else {
      assert Texts(ms) + tail == tail;
    }
  }

  /** One member at the front of a class. */
  lemma MemberFirst(m: Member, p: bytes, c: byte)
    requires Readable(m) && (p == [] || p[0] != 45)
    ensures ClassBody(Text(m) + p).1 == |Text(m)| + ClassBody(p).1
    ensures InRanges(ClassBody(Text(m) + p).0, c) <==> Takes(m, c) || InRanges(ClassBody(p).0, c)
  {
    var all, rest := Text(m) + p, ClassBody(p).0;
    match m
    case Escaped(b) =>
      assert all[2..] == p;
      InRangesCons(Range(b, b), rest, c);
    case Bare(b) =>
      assert all[1..] == p;
      assert |all| > 1 ==> all[1] == p[0];
      InRangesCons(Range(b, b), rest, c);
    case Span(a, b) =>
      assert all[3..] == p && all[0] == a && all[1] == 45 && all[2] == b;
      InRangesCons(Between(a, b), rest, c);
  }

  /** The members of a class are read as they are written. */
  lemma {:induction false} BodyIs(ms: seq<Member>, tail: bytes, c: byte)
    requires AllReadable(ms) && Closing(tail)
    ensures ClassBody(Texts(ms) + tail).1 == |Texts(ms)| + (if tail == [] then 0 else 1)
    ensures InRanges(ClassBody(Texts(ms) + tail).0, c) <==> SomeTakes(ms, c)
  {
    if ms == [] {
      assert Texts(ms) + tail == tail;
    } else {
      var more := ms[1..];
      assert ms == [ms[0]] + more;
      BodyIs(more, tail, c);
      NoDash(more, tail);
      SomeCons(ms[0], more, c);
      MemberFirst(ms[0], Texts(more) + tail, c);
      assert Texts(ms) + tail == Text(ms[0]) + (Texts(more) + tail);
    }
  }

  /** `[`, perhaps `^`, and the members. */
  function ClassText(negate: bool, ms: seq<Member>): bytes {
    [91] + (if negate then [94] else []) + Texts(ms)
  }

  lemma FirstClass(body: bytes, p: bytes)
    requires p == [91] + body && (body == [] || body[0] != 94)
    ensures First(p) == (Class(false, ClassBody(body).0), 1 + ClassBody(body).1)
  {
    assert p[1..] == body && (|p| > 1 ==> p[1] == body[0]);
  }

  lemma FirstNegated(body: bytes, p: bytes)
    requires p == [91, 94] + body
    ensures First(p) == (Class(true, ClassBody(body).0), 2 + ClassBody(body).1)
  {
    assert p[2..] == body && p[1] == 94;
  }

  lemma ClassFirst(negate: bool, ms: seq<Member>, tail: bytes, c: byte)
    requires AllReadable(ms) && Closing(tail)
    ensures var p := ClassText(negate, ms) + tail;
            && First(p).0.Class? && First(p).1 == |ClassText(negate, ms)| + (if tail == [] then 0 else 1)
            && (Accepts(First(p).0, c) <==> SomeTakes(ms, c) != negate)
  {
    var p, body := ClassText(negate, ms) + tail, Texts(ms) + tail;
    NoDash(ms, tail);
    BodyIs(ms, tail, c);
    if negate {
      assert p == [91, 94] + body;
      FirstNegated(body, p);
    } else {
      assert p == [91] + body;
      FirstClass(body, p);
    }
  }

  /** A class takes one byte: one that some member takes, or after `^` one that none
      does. */
  lemma ClassMeans(negate: bool, ms: seq<Member>, p: bytes, s: bytes)
    requires AllReadable(ms)
    ensures Fits(ClassText(negate, ms) + [93] + p, s)
       <==> s != [] && (SomeTakes(ms, s[0]) != negate) && Fits(p, s[1..])
  {
    var tail := [93] + p;
    var all := ClassText(negate, ms) + tail;
    assert ClassText(negate, ms) + [93] + p == all;
    ClassFirst(negate, ms, tail, if s == [] then 0 else s[0]);
    assert all[First(all).1..] == p;
    FitsFirst(all, s);
  }

  /** One that is never closed is the rest of the pattern. */
  lemma OpenClassMeans(negate: bool, ms: seq<Member>, s: bytes)
    requires AllReadable(ms)
    ensures Fits(ClassText(negate, ms), s) <==> |s| == 1 && (SomeTakes(ms, s[0]) != negate)
  {
    var all := ClassText(negate, ms);
    assert all + [] == all;
    ClassFirst(negate, ms, [], if s == [] then 0 else s[0]);
    assert all[First(all).1..] == [];
    FitsFirst(all, s);
  }

  // ------------------------------------------------------------------------ CONFIG GET

  /** In CONFIG GET there are only stars and question marks (config/spec.go). */
  lemma SimpleMeans(b: byte, p: bytes, s: bytes)
    ensures b == 42 ==> (Matches(Simple([b] + p), s) <==> exists k :: 0 <= k <= |s| && Matches(Simple(p), s[k..]))
    ensures b != 42 ==> (Matches(Simple([b] + p), s) <==> s != [] && (b == 63 || s[0] == b) && Matches(Simple(p), s[1..]))
  {
    var toks := Simple([b] + p);
    assert toks[1..] == Simple(p);
    if b == 42 {
      assert toks[0] == Star;
      assert forall k | 0 <= k <= |s| :: Matches(toks[1..], s[k..]) <==> Matches(Simple(p), s[k..]);
    }
  }
}
