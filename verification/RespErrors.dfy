/** What the command decoder turns away, and what it accepts (resp/reader.go): the
    limits, the marks and the line endings. */
module RespErrors {
  import opened Options
  import opened Seqs
  import opened Bytes
  import opened RespParse
  import F = Framing

  lemma DecimalLine(mark: byte, n: nat, rest: bytes, max: int)
    requires mark != LF && mark != CR
    ensures OneLine(Header(mark, n)) && Header(mark, n)[1..] == Decimal(n)
    ensures ReadLn(Header(mark, n) + CRLF + rest, max) == LineIs(Header(mark, n), |Header(mark, n)| + 2)
    ensures Int64(Decimal(n)).Some? ==> Int64(Decimal(n)) == Some(n)
    ensures n > MaxInt ==> Int64(Decimal(n)) == None
  {
    DecimalValue(n);
    var text := Header(mark, n);
    forall k | 0 <= k < |text| ensures text[k] != LF && text[k] != CR {
      assert k > 0 ==> IsDigit(Decimal(n)[k - 1]);
    }
    LineWhole(text, rest, max);
    assert IsDigit(Decimal(n)[0]);
  }

  // ---------------------------------------------------------------------- one element

  /** A bulk string that does not begin with `$`, or whose length is over the limit. */
  lemma BulkRefused(lim: Limits, n: nat, rest: bytes, mark: byte, other: bytes)
    requires n > lim.maxBulk || n > MaxInt
    requires mark != 36
    ensures One(lim, Header(36, n) + CRLF + rest) == Malformed
    ensures One(lim, [mark] + other) == Malformed
  {
    DecimalLine(36, n, rest, BulkHeader);
  }

  /** A bulk string not followed by CRLF. */
  lemma EndingRefused(lim: Limits, a: bytes, x: byte, y: byte, rest: bytes)
    requires |a| <= lim.maxBulk && |a| <= MaxInt && [x, y] != CRLF
    ensures One(lim, Header(36, |a|) + CRLF + a + [x, y] + rest) == Malformed
  {
    var text := Header(36, |a|);
    var p := text + CRLF + a + [x, y] + rest;
    assert p == text + CRLF + (a + [x, y] + rest);
    DecimalLine(36, |a|, a + [x, y] + rest, BulkHeader);
    DecimalFits(|a|);
    var end := |text| + 2 + |a|;
    assert p[end] == x && p[end + 1] == y;
  }

  /** A header that goes on without an end. */
  lemma HeaderRefused(lim: Limits, p: bytes)
    requires LF !in p && |p| > 64
    ensures One(lim, p) == Malformed
  {
    FindLFIs(p, 0, |p|);
  }

  // ------------------------------------------------------------------------- commands

  /** More elements than the limit allows. */
  lemma CountRefused(lim: Limits, n: nat, rest: bytes)
    requires n > 0 && (n > lim.maxMultiBulk || n > MaxInt)
    ensures MultiBulk(lim, Header(42, n) + CRLF + rest) == Bad
  {
    DecimalLine(42, n, rest, lim.maxInline);
  }

  lemma {:induction false} SeveralThen(one: bytes -> Element, args: seq<bytes>, tail: bytes, count: nat)
    requires AllRead(one, args) && one(tail) == Malformed && count > |args|
    ensures Several(one, F.Bulks(args) + tail, count) == Bad
  {
    if args == [] {
      assert F.Bulks(args) + tail == tail;
    } else {
      var f, more := F.Bulk(args[0]), F.Bulks(args[1..]);
      SeveralThen(one, args[1..], tail, count - 1);
      SeveralCons(one, args[0], f, more + tail, count - 1);
      ConcatAssoc(f, more, tail);
    }
  }

  /** A command with an element that is turned away is an error as soon as that element
      is, whatever came before and whatever follows. */
  lemma CommandRefused(lim: Limits, args: seq<bytes>, n: nat, tail: bytes)
    requires |args| < n <= lim.maxMultiBulk && n <= MaxInt && One(lim, tail) == Malformed
    requires forall i | 0 <= i < |args| :: |args[i]| <= lim.maxBulk && |args[i]| <= MaxInt
    ensures MultiBulk(lim, Header(42, n) + CRLF + F.Bulks(args) + tail) == Bad
  {
    var text, more := Header(42, n), F.Bulks(args) + tail;
    var b := text + CRLF + more;
    assert text + CRLF + F.Bulks(args) + tail == b;
    DecimalLine(42, n, more, lim.maxInline);
    DecimalFits(n);
    assert b[|text| + 2..] == more;
    forall i | 0 <= i < |args| ensures Reads(OneOf(lim), args[i], F.Bulk(args[i])) {
      BulkReads(lim, args[i]);
    }
    SeveralThen(OneOf(lim), args, tail, n);
  }

  // ------------------------------------------------------------------------- integers

  /** What parseInt takes: a decimal, with or without a sign, of at most twenty characters
      and nineteen digits' value. */
  lemma SignedIs(n: nat)
    requires n <= MaxInt
    ensures var v: int := n; Int64(Decimal(n)) == Some(v) && Int64([43] + Decimal(n)) == Some(v) && Int64([45] + Decimal(n)) == Some(-v)
    ensures Int64([]) == None && Int64([43]) == None && Int64([45]) == None
  {
    DecimalFits(n);
    DecimalValue(n);
    assert ([43] + Decimal(n))[1..] == Decimal(n) && ([45] + Decimal(n))[1..] == Decimal(n);
  }

  /** And what it turns away. */
  lemma NotInteger(s: bytes, i: nat)
    requires |s| > 20 || (i < |s| && !(48 <= s[i] <= 57) && (i > 0 || (s[0] != 43 && s[0] != 45)))
    ensures Int64(s) == None
  {
    if |s| <= 20 && (s[0] == 43 || s[0] == 45) {
      assert s[1..][i - 1] == s[i];
    }
  }

  // ------------------------------------------------------------------ what is accepted

  /** An argument within the limit stands in the first `n` bytes, at their end, followed by
      CRLF. */
  ghost predicate EndsWith(lim: Limits, b: bytes, arg: bytes, n: nat) {
    && |arg| + 2 < n <= |b| && |arg| <= lim.maxBulk
    && b[n - 2 - |arg|..n] == arg + [13, 10]
  }

  /** The arguments stand in the first `n` bytes one behind the other, each in its part, and
      the last one at the end. */
  ghost predicate Stand(lim: Limits, b: bytes, args: seq<bytes>, parts: seq<nat>, n: nat) {
    |parts| == |args| &&
    if args == [] then n == 0
    else EndsWith(lim, b, args[0], parts[0]) && n >= parts[0] && Stand(lim, b[parts[0]..], args[1..], parts[1..], n - parts[0])
  }

  lemma HeadSound(lim: Limits, p: bytes)
    requires p != [] && HeadOf(lim, p).Head?
    ensures 0 < HeadOf(lim, p).next <= |p| && HeadOf(lim, p).n <= lim.maxBulk
  {
  }

  lemma SliceEnds(lim: Limits, p: bytes, from: nat, len: nat)
    requires 0 < from && from + len + 2 <= |p| && len <= lim.maxBulk && p[from + len] == CR && p[from + len + 1] == LF
    ensures EndsWith(lim, p, p[from..from + len], from + len + 2)
  {
    assert p[from..from + len + 2] == p[from..from + len] + [13, 10];
  }

  lemma OneIsSlice(lim: Limits, p: bytes, next: nat, n: nat)
    requires p != [] && HeadOf(lim, p) == Head(next, n) && One(lim, p).Element?
    ensures next + n + 2 <= |p| && One(lim, p) == Element(p[next..next + n], next + n + 2)
    ensures p[next + n] == CR && p[next + n + 1] == LF
  {
  }

  lemma OneSound(lim: Limits, p: bytes)
    requires One(lim, p).Element?
    ensures EndsWith(lim, p, One(lim, p).value, One(lim, p).n)
  {
    HeadSound(lim, p);
    var head := HeadOf(lim, p);
    OneIsSlice(lim, p, head.next, head.n);
    SliceEnds(lim, p, head.next, head.n);
  }

  ghost predicate SoundAt(one: bytes -> Element, lim: Limits, p: bytes) {
    one(p).Element? ==> EndsWith(lim, p, one(p).value, one(p).n)
  }

  lemma StandCons(lim: Limits, b: bytes, arg: bytes, n: nat, args: seq<bytes>, parts: seq<nat>, m: nat)
    requires EndsWith(lim, b, arg, n) && Stand(lim, b[n..], args, parts, m)
    ensures Stand(lim, b, [arg] + args, [n] + parts, n + m)
  {
    assert ([arg] + args)[1..] == args && ([n] + parts)[1..] == parts;
  }

  lemma {:induction false} SeveralSound(one: bytes -> Element, lim: Limits, p: bytes, count: nat) returns (parts: seq<nat>)
    requires Several(one, p, count).Done? && forall q :: SoundAt(one, lim, q)
    ensures var r := Several(one, p, count); |r.args| == count && Stand(lim, p, r.args, parts, r.n)
    decreases count
  {
    parts := [];
    if count > 0 {
      assert SoundAt(one, lim, p);
      var e := one(p);
      var later := SeveralSound(one, lim, p[e.n..], count - 1);
      var more := Several(one, p[e.n..], count - 1);
      StandCons(lim, p, e.value, e.n, more.args, later, more.n);
      parts := [e.n] + later;
    }
  }

  lemma {:induction false} FoundLF(p: bytes, i: nat)
    requires i <= |p|
    ensures FindLF(p, i) < |p| ==> p[FindLF(p, i)] == 10
    decreases |p| - i
  {
    if i < |p| && p[i] != LF {
      FoundLF(p, i + 1);
    }
  }

  /** What follows the first line of a command that is not empty. */
  lemma BehindLine(lim: Limits, b: bytes) returns (line: nat, count: nat)
    requires MultiBulk(lim, b).Done?
    ensures 0 < line <= |b| && b[line - 1] == 10 && ReadLn(b, lim.maxInline).LineIs?
    ensures var r := MultiBulk(lim, b);
            if count == 0 then r == Done([], line)
            else count <= lim.maxMultiBulk
                 && Several(OneOf(lim), b[line..], count).Done?
                 && r == Done(Several(OneOf(lim), b[line..], count).args, line + Several(OneOf(lim), b[line..], count).n)
  {
    var first := ReadLn(b, lim.maxInline);
    FoundLF(b, 0);
    line := first.next;
    var n := Int64(first.line[1..]).value;
    count := if n <= 0 then 0 else n;
  }

  /** Whatever the bytes, a command that is decoded has no more arguments than the limit,
      and they stand in what was consumed behind its first line, in order, each within the
      limit and followed by CRLF. */
  lemma CommandSound(lim: Limits, b: bytes) returns (line: nat, parts: seq<nat>)
    requires MultiBulk(lim, b).Done?
    ensures var r := MultiBulk(lim, b);
            && 0 < line <= r.n <= |b| && b[line - 1] == 10
            && (r.args != [] ==> |r.args| <= lim.maxMultiBulk) && Stand(lim, b[line..], r.args, parts, r.n - line)
  {
    var count;
    line, count := BehindLine(lim, b);
    parts := [];
    if count > 0 {
      forall q ensures SoundAt(OneOf(lim), lim, q) {
        if One(lim, q).Element? {
          OneSound(lim, q);
        }
      }
      parts := SeveralSound(OneOf(lim), lim, b[line..], count);
    }
  }
}
