/** Decoding commands from a connection (resp/reader.go parse, readLine, parseInt) and
    encoding them (resp/math.go EncodeCommand). */
module RespParse {
  import opened Seqs
  import opened Options
  import opened Bytes
  import F = Framing

  datatype Limits = Limits(maxBulk: int, maxMultiBulk: int, maxInline: int, maxQueryBuffer: int)

  /** One attempt to decode a command: its arguments and length, or that more bytes
      are needed, or a protocol error. */
  datatype Parsed = Done(args: seq<bytes>, n: nat) | Incomplete | Bad

  // -------------------------------------------------------------------------- lines

  function FindLF(p: bytes, i: nat): (j: nat)
    requires i <= |p|
    ensures i <= j <= |p|
    decreases |p| - i
  {
    if i == |p| || p[i] == LF then i else FindLF(p, i + 1)
  }

  lemma {:induction false} FindLFIs(p: bytes, i: nat, j: nat)
    requires i <= j <= |p| && (j < |p| ==> p[j] == LF) && forall k | i <= k < j :: p[k] != LF
    ensures FindLF(p, i) == j
    decreases j - i
  {
    if i < j {
      FindLFIs(p, i + 1, j);
    }
  }

  datatype Line = LineIs(line: bytes, next: nat) | TooLong | More

  /** readLine on the bytes from its start. */
  function ReadLn(p: bytes, max: int): Line {
    var i := FindLF(p, 0);
    if i < |p| then LineIs(p[..if i > 0 && p[i - 1] == CR then i - 1 else i], i + 1)
    else if |p| > max then TooLong
    else More
  }

  ghost predicate OneLine(text: bytes) {
    forall k | 0 <= k < |text| :: text[k] != LF && text[k] != CR
  }

  /** A line ended by CRLF whose text has neither byte. */
  lemma LineWhole(text: bytes, rest: bytes, max: int)
    requires OneLine(text)
    ensures ReadLn(text + CRLF + rest, max) == LineIs(text, |text| + 2)
  {
    var p := text + CRLF + rest;
    assert p[|text|] == CR && p[|text| + 1] == LF;
    assert forall k | 0 <= k < |text| :: p[k] == text[k];
    FindLFIs(p, 0, |text| + 1);
    assert p[..|text|] == text;
  }

  lemma LinePrefix(text: bytes, rest: bytes, cut: nat, max: int)
    requires OneLine(text) && cut < |text| + 2 <= max
    ensures ReadLn((text + CRLF + rest)[..cut], max) == More
  {
    var p := (text + CRLF + rest)[..cut];
    forall k | 0 <= k < |p| ensures p[k] != LF {
      assert k < |text| ==> p[k] == text[k];
    }
    FindLFIs(p, 0, |p|);
  }

  // ----------------------------------------------------------------------- integers

  /** parseInt: at most twenty characters, an optional sign, a 64-bit value. */
  function Int64(s: bytes): Option<int> {
    var signed := s != [] && (s[0] == 43 || s[0] == 45);
    var digits := if signed then s[1..] else s;
    if |s| > 20 || digits == [] || !AllDigits(digits) || Value(digits) > MaxInt then None
    else if signed && s[0] == 45 then Some(-Value(digits))
    else Some(Value(digits))
  }

  lemma {:induction false} ValueMonotone(s: bytes, k: nat)
    requires AllDigits(s) && k <= |s|
    ensures 0 <= Value(s[..k]) <= Value(s)
  {
    if k == |s| {
      assert s[..k] == s;
      if s != [] {
        ValueMonotone(s[..|s| - 1], |s| - 1);
      }
    } else {
      var t := s[..|s| - 1];
      ValueMonotone(t, k);
      assert t[..k] == s[..k];
      assert IsDigit(s[|s| - 1]);
    }
  }

  /** parseInt. */
  method ParseInt(b: bytes) returns (r: Option<int>)
    ensures r == Int64(b)
  {
    if |b| == 0 || |b| > 20 {
      return None;
    }
    var neg, i := false, 0;
    if b[0] == 45 || b[0] == 43 {
      neg, i := b[0] == 45, 1;
      if i == |b| {
        return None;
      }
    }
    ghost var start := i;
    ghost var digits := b[start..];
    var n := 0;
    while i < |b|
      invariant start <= i <= |b|
      invariant AllDigits(b[start..i]) && n == Value(b[start..i]) && 0 <= n <= MaxInt
    {
      var c := b[i];
      assert digits[..i - start] == b[start..i] && digits[i - start] == c;
      if c < 48 || c > 57 {
        return None;
      }
      var d: int := c as int - 48;
      assert b[start..i + 1] == b[start..i] + [c];
      assert Value(b[start..i + 1]) == 10 * n + d;
      if n > (MaxInt - d) / 10 {
        if AllDigits(digits) {
          ValueMonotone(digits, i + 1 - start);
          assert digits[..i + 1 - start] == b[start..i + 1];
        }
        return None;
      }
      n := n * 10 + d;
      i := i + 1;
    }
    assert b[start..i] == digits;
    return Some(if neg then -n else n);
  }

  /** The lengths a limit allows are short to write. */
  lemma {:induction false} DecimalShort(n: nat, k: nat, p: nat)
    requires n < p && p == Ten(k) && k > 0
    ensures |Decimal(n)| <= k
  {
    if n >= 10 {
      assert k > 1;
      DecimalShort(n / 10, k - 1, Ten(k - 1));
    }
  }

  function Ten(k: nat): nat {
    if k == 0 then 1 else 10 * Ten(k - 1)
  }

  lemma DecimalLength(n: nat)
    requires n <= MaxInt + 1
    ensures |Decimal(n)| <= 19
  {
    assert Ten(19) == 10_000_000_000_000_000_000 by {
      assert Ten(4) == 10_000;
      assert Ten(8) == 10_000 * Ten(4);
      assert Ten(12) == 10_000 * Ten(8);
      assert Ten(16) == 10_000 * Ten(12);
    }
    DecimalShort(n, 19, Ten(19));
  }

  lemma DecimalFits(n: nat)
    requires n <= MaxInt
    ensures |Decimal(n)| <= 19 && Int64(Decimal(n)) == Some(n)
  {
    DecimalLength(n);
    DecimalValue(n);
    assert IsDigit(Decimal(n)[0]);
  }

  // ----------------------------------------------------------------------- commands

  const BulkHeader: int := 64

  /** One element, or why there is none. */
  datatype Element = Element(value: bytes, n: nat) | Short | Malformed

  datatype Head = Head(next: nat, n: nat) | ShortHead | BadHead

  /** The header of a bulk string: where its bytes start and how many they are. */
  function HeadOf(lim: Limits, p: bytes): Head
    requires p != []
  {
    if p[0] != 36 then BadHead
    else match ReadLn(p, BulkHeader)
      case TooLong => BadHead
      case More => ShortHead
      case LineIs(line, next) =>
        var n := if line == [] then None else Int64(line[1..]);
        if n.None? || n.value < 0 || n.value > lim.maxBulk then BadHead else Head(next, n.value)
  }

  /** One bulk string, from the bytes where it starts. */
  function One(lim: Limits, p: bytes): Element {
    if p == [] then Short
    else match HeadOf(lim, p)
      case BadHead => Malformed
      case ShortHead => Short
      case Head(next, n) =>
        var end := next + n;
        if end + 2 > |p| then Short
        else if p[end] != CR || p[end + 1] != LF then Malformed
        else Element(p[next..end], end + 2)
  }

  function OneOf(lim: Limits): bytes -> Element {
    p => One(lim, p)
  }

  /** The decoder with an element before it put back. */
  function Before(a: bytes, n: nat, rest: Parsed): Parsed {
    match rest
    case Done(args, m) => Done([a] + args, n + m)
    case other => other
  }

  /** A count of elements, given how one is read.  (An element has no more bytes than
      there are.) */
  function Several(one: bytes -> Element, p: bytes, count: nat): (r: Parsed)
    ensures r.Done? ==> r.n <= |p|
    decreases count
  {
    if count == 0 then Done([], 0)
    else match one(p)
      case Short => Incomplete
      case Malformed => Bad
      case Element(a, n) => if n > |p| then Bad else Before(a, n, Several(one, p[n..], count - 1))
  }

  /** parseMultiBulk. */
  function MultiBulk(lim: Limits, b: bytes): (r: Parsed)
    ensures r.Done? ==> r.n <= |b|
  {
    match ReadLn(b, lim.maxInline)
    case TooLong => Bad
    case More => Incomplete
    case LineIs(line, pos) =>
      var count := if line == [] then None else Int64(line[1..]);
      if count.None? || count.value < -1 then Bad
      else if count.value <= 0 then Done([], pos)
      else if count.value > lim.maxMultiBulk then Bad
      else match Several(OneOf(lim), b[pos..], count.value)
        case Done(args, m) => Done(args, pos + m)
        case other => other
  }

  /** A command a client may send; an empty one is skipped. */
  predicate Fits(lim: Limits, args: seq<bytes>) {
    && (args == [] || |args| <= lim.maxMultiBulk) && |args| <= MaxInt
    && |Decimal(|args|)| + 3 <= lim.maxInline
    && forall i | 0 <= i < |args| :: |args[i]| <= lim.maxBulk && |args[i]| <= MaxInt
  }

  /** A marked length, as it starts a command or a bulk string. */
  function Header(mark: byte, n: nat): bytes {
    [mark] + Decimal(n)
  }

  lemma HeaderIs(mark: byte, n: nat)
    requires mark != LF && mark != CR && n <= MaxInt
    ensures OneLine(Header(mark, n)) && |Header(mark, n)| <= 20 && Header(mark, n) != []
    ensures Int64(Header(mark, n)[1..]) == Some(n)
  {
    DecimalValue(n);
    DecimalFits(n);
    var text := Header(mark, n);
    assert text[1..] == Decimal(n);
    forall k | 0 <= k < |text| ensures text[k] != LF && text[k] != CR {
      assert k > 0 ==> IsDigit(Decimal(n)[k - 1]);
    }
  }

  lemma Pieces(text: bytes, a: bytes, rest: bytes)
    ensures var p, h := text + CRLF + a + CRLF + rest, |text| + 2;
            && p == text + CRLF + (a + CRLF + rest)
            && p[h..h + |a|] == a && p[h + |a|] == CR && p[h + |a| + 1] == LF
  {
  }

  /** What is found at the front of a bulk string. */
  lemma BulkFront(a: bytes, rest: bytes)
    requires |a| <= MaxInt
    ensures var p, h := F.Bulk(a) + rest, |Header(36, |a|)| + 2;
            && ReadLn(p, BulkHeader) == LineIs(Header(36, |a|), h)
            && |F.Bulk(a)| == h + |a| + 2 && p[0] == 36
            && p[h..h + |a|] == a && p[h + |a|] == CR && p[h + |a| + 1] == LF
  {
    var text := Header(36, |a|);
    Pieces(text, a, rest);
    HeaderIs(36, |a|);
    LineWhole(text, a + CRLF + rest, BulkHeader);
  }

  lemma OneIs(lim: Limits, p: bytes, line: bytes, next: nat, n: nat)
    requires p != [] && p[0] == 36 && ReadLn(p, BulkHeader) == LineIs(line, next)
    requires line != [] && Int64(line[1..]) == Some(n) && n <= lim.maxBulk
    requires next + n + 2 <= |p| && p[next + n] == CR && p[next + n + 1] == LF
    ensures One(lim, p) == Element(p[next..next + n], next + n + 2)
  {
  }

  /** A whole bulk string at the front is read exactly, whatever follows. */
  lemma OneWhole(lim: Limits, a: bytes, rest: bytes)
    requires |a| <= lim.maxBulk && |a| <= MaxInt
    ensures One(lim, F.Bulk(a) + rest) == Element(a, |F.Bulk(a)|)
  {
    BulkFront(a, rest);
    HeaderIs(36, |a|);
    OneIs(lim, F.Bulk(a) + rest, Header(36, |a|), |Header(36, |a|)| + 2, |a|);
  }

  /** One cut short is never an error. */
  lemma OneCut(lim: Limits, a: bytes, cut: nat)
    requires |a| <= lim.maxBulk && |a| <= MaxInt && cut < |F.Bulk(a)|
    ensures One(lim, F.Bulk(a)[..cut]) == Short
  {
    var text := Header(36, |a|);
    var p := F.Bulk(a)[..cut];
    assert F.Bulk(a) == text + CRLF + (a + CRLF);
    HeaderIs(36, |a|);
    if cut < |text| + 2 {
      LinePrefix(text, a + CRLF, cut, BulkHeader);
    } else {
      var more := (a + CRLF)[..cut - |text| - 2];
      assert p == text + CRLF + more;
      LineWhole(text, more, BulkHeader);
    }
  }

  /** How one element reads what another writes. */
  ghost predicate Reads(one: bytes -> Element, a: bytes, frame: bytes) {
    && (forall rest: bytes :: ReadsWith(one, a, frame, rest))
    && (forall cut: nat :: CutShort(one, frame, cut))
  }

  ghost predicate ReadsWith(one: bytes -> Element, a: bytes, frame: bytes, rest: bytes) {
    one(frame + rest) == Element(a, |frame|)
  }

  ghost predicate CutShort(one: bytes -> Element, frame: bytes, cut: nat) {
    cut < |frame| ==> one(frame[..cut]) == Short
  }

  lemma BulkReads(lim: Limits, a: bytes)
    requires |a| <= lim.maxBulk && |a| <= MaxInt
    ensures Reads(OneOf(lim), a, F.Bulk(a))
  {
    forall rest: bytes ensures ReadsWith(OneOf(lim), a, F.Bulk(a), rest) {
      OneWhole(lim, a, rest);
    }
    forall cut: nat ensures CutShort(OneOf(lim), F.Bulk(a), cut) {
      if cut < |F.Bulk(a)| {
        OneCut(lim, a, cut);
      }
    }
  }

  ghost predicate AllRead(one: bytes -> Element, args: seq<bytes>) {
    forall i | 0 <= i < |args| :: Reads(one, args[i], F.Bulk(args[i]))
  }

  lemma SeveralCons(one: bytes -> Element, a: bytes, frame: bytes, rest: bytes, count: nat)
    requires Reads(one, a, frame)
    ensures Several(one, frame + rest, count + 1) == Before(a, |frame|, Several(one, rest, count))
  {
    assert ReadsWith(one, a, frame, rest);
    assert (frame + rest)[|frame|..] == rest;
  }

  lemma {:induction false} SeveralWhole(one: bytes -> Element, args: seq<bytes>, rest: bytes)
    requires AllRead(one, args)
    ensures Several(one, F.Bulks(args) + rest, |args|) == Done(args, |F.Bulks(args)|)
  {
    if args != [] {
      var f, more := F.Bulk(args[0]), F.Bulks(args[1..]);
      SeveralWhole(one, args[1..], rest);
      SeveralCons(one, args[0], f, more + rest, |args| - 1);
      assert F.Bulks(args) + rest == f + (more + rest);
      assert args == [args[0]] + args[1..];
    }
  }

  lemma {:induction false} SeveralPrefix(one: bytes -> Element, args: seq<bytes>, cut: nat)
    requires AllRead(one, args) && cut < |F.Bulks(args)|
    ensures Several(one, F.Bulks(args)[..cut], |args|) == Incomplete
  {
    var f, rest := F.Bulk(args[0]), F.Bulks(args[1..]);
    CutAt(f, rest, cut);
    if cut < |f| {
      assert CutShort(one, f, cut);
    } else {
      SeveralPrefix(one, args[1..], cut - |f|);
      SeveralCons(one, args[0], f, rest[..cut - |f|], |args| - 1);
    }
  }

  lemma ArgsRead(lim: Limits, args: seq<bytes>)
    requires Fits(lim, args)
    ensures AllRead(OneOf(lim), args)
  {
    forall i | 0 <= i < |args| ensures Reads(OneOf(lim), args[i], F.Bulk(args[i])) {
      BulkReads(lim, args[i]);
    }
  }

  /** Past its header a command is its elements. */
  lemma AfterHeader(lim: Limits, args: seq<bytes>, more: bytes)
    requires Fits(lim, args)
    ensures var text := Header(42, |args|);
            MultiBulk(lim, text + CRLF + more) ==
            if args == [] then Done([], |text| + 2)
            else match Several(OneOf(lim), more, |args|)
              case Done(got, m) => Done(got, |text| + 2 + m)
              case other => other
  {
    var text := Header(42, |args|);
    var b := text + CRLF + more;
    HeaderIs(42, |args|);
    LineWhole(text, more, lim.maxInline);
    assert b[|text| + 2..] == more;
  }

  /** A whole command at the front is decoded exactly, whatever follows. */
  lemma CommandWhole(lim: Limits, args: seq<bytes>, rest: bytes)
    requires Fits(lim, args)
    ensures MultiBulk(lim, F.Payload(args) + rest) == Done(args, |F.Payload(args)|)
  {
    var text, more := Header(42, |args|), F.Bulks(args) + rest;
    assert F.Payload(args) + rest == text + CRLF + more;
    AfterHeader(lim, args, more);
    ArgsRead(lim, args);
    SeveralWhole(OneOf(lim), args, rest);
  }

  /** A strict prefix of one is always incomplete and never an error. */
  lemma CommandPrefix(lim: Limits, args: seq<bytes>, cut: nat)
    requires Fits(lim, args) && cut < |F.Payload(args)|
    ensures MultiBulk(lim, F.Payload(args)[..cut]) == Incomplete
  {
    var text, more := Header(42, |args|), F.Bulks(args);
    var h := text + CRLF;
    assert F.Payload(args) == h + more;
    CutAt(h, more, cut);
    HeaderIs(42, |args|);
    if cut < |h| {
      LinePrefix(text, [], cut, lim.maxInline);
      assert (h + [])[..cut] == h[..cut];
    } else {
      AfterHeader(lim, args, more[..cut - |h|]);
      ArgsRead(lim, args);
      SeveralPrefix(OneOf(lim), args, cut - |h|);
    }
  }
}
