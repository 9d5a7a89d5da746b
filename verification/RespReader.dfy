/** The connection reader (resp/reader.go): a buffer that is filled, compacted and grown
    while commands are decoded from it. */
module RespReader {
  import opened Seqs
  import opened Options
  import opened Bytes
  import opened RespParse
  import F = Framing

  // ------------------------------------------------------------- the decoding loops

  /** readLine. */
  method ReadLine(b: bytes, pos: nat, max: int) returns (l: Line)
    requires pos <= |b|
    ensures l == match ReadLn(b[pos..], max)
                 case LineIs(line, next) => LineIs(line, pos + next)
                 case other => other
  {
    ghost var p := b[pos..];
    var i := pos;
    while i < |b|
      invariant pos <= i <= |b|
      invariant FindLF(p, 0) == FindLF(p, i - pos)
    {
      if b[i] == LF {
        var end := i;
        if end > pos && b[end - 1] == CR {
          end := end - 1;
        }
        assert b[pos..end] == p[..end - pos];
        return LineIs(b[pos..end], i + 1);
      }
      i := i + 1;
    }
    return if |b| - pos > max then TooLong else More;
  }

  /** `one` is how a bulk string is read under the limits. */
  ghost predicate ReadsBulk(one: bytes -> Element, lim: Limits) {
    forall p: bytes {:trigger One(lim, p)} :: one(p) == One(lim, p)
  }

  /** The header of a bulk string: where its bytes start and how many they are. */
  method ParseHead(lim: Limits, b: bytes, pos: nat) returns (h: Head)
    requires pos < |b|
    ensures h == match HeadOf(lim, b[pos..])
                 case Head(next, n) => Head(pos + next, n)
                 case other => other
  {
    if b[pos] != 36 {
      return BadHead;
    }
    var l := ReadLine(b, pos, BulkHeader);
    if l.TooLong? {
      return BadHead;
    }
    if l.More? {
      return ShortHead;
    }
    if l.line == [] {
      return BadHead;
    }
    var n := ParseInt(l.line[1..]);
    if n.None? || n.value < 0 || n.value > lim.maxBulk {
      return BadHead;
    }
    return Head(l.next, n.value);
  }

  /** One pass of parseMultiBulk's loop. */
  method ParseElement(lim: Limits, b: bytes, pos: nat, ghost one: bytes -> Element) returns (e: Element)
    requires pos <= |b| && ReadsBulk(one, lim)
    ensures e == one(b[pos..]) && (e.Element? ==> pos + e.n <= |b|)
  {
    ghost var p := b[pos..];
    assert one(p) == One(lim, p);
    if pos >= |b| {
      return Short;
    }
    var h := ParseHead(lim, b, pos);
    if h.BadHead? {
      return Malformed;
    }
    if h.ShortHead? {
      return Short;
    }
    var end := h.next + h.n;
    if end + 2 > |b| {
      return Short;
    }
    assert p[end - pos] == b[end] && p[end + 1 - pos] == b[end + 1];
    if b[end] != CR || b[end + 1] != LF {
      return Malformed;
    }
    assert p[h.next - pos..end - pos] == b[h.next..end];
    return Element(b[h.next..end], end + 2 - pos);
  }

  /** What has been decoded, put before what follows. */
  function After(args: seq<bytes>, n: nat, rest: Parsed): Parsed {
    match rest
    case Done(more, m) => Done(args + more, n + m)
    case other => other
  }

  lemma AfterOne(args: seq<bytes>, n: nat, one: bytes -> Element, b: bytes, pos: nat, count: nat)
    requires pos <= |b|
    ensures var e := one(b[pos..]);
            e.Element? && pos + e.n <= |b| ==>
              After(args, n, Several(one, b[pos..], count + 1)) ==
              After(args + [e.value], n + e.n, Several(one, b[pos + e.n..], count))
  {
    var e := one(b[pos..]);
    if e.Element? && pos + e.n <= |b| {
      assert b[pos..][e.n..] == b[pos + e.n..];
      var rest := Several(one, b[pos + e.n..], count);
      if rest.Done? {
        assert args + ([e.value] + rest.args) == args + [e.value] + rest.args;
      }
    }
  }

  /** The elements of a command. */
  method ParseElements(lim: Limits, b: bytes, start: nat, count: nat, ghost one: bytes -> Element) returns (r: Parsed)
    requires start <= |b| && ReadsBulk(one, lim)
    ensures r == After([], start, Several(one, b[start..], count))
  {
    var pos: nat, args: seq<bytes>, i := start, [], 0;
    while i < count
      invariant 0 <= i <= count && pos <= |b|
      invariant After([], start, Several(one, b[start..], count)) == After(args, pos, Several(one, b[pos..], count - i))
    {
      var e := ParseElement(lim, b, pos, one);
      if e.Short? {
        return Incomplete;
      }
      if e.Malformed? {
        return Bad;
      }
      AfterOne(args, pos, one, b, pos, count - i - 1);
      args, pos := args + [e.value], pos + e.n;
      i := i + 1;
    }
    assert args + [] == args;
    return Done(args, pos);
  }

  /** parseMultiBulk. */
  method ParseMultiBulk(lim: Limits, b: bytes) returns (r: Parsed)
    ensures r == MultiBulk(lim, b)
  {
    assert b[0..] == b;
    var l := ReadLine(b, 0, lim.maxInline);
    if l.TooLong? {
      return Bad;
    }
    if l.More? {
      return Incomplete;
    }
    if l.line == [] {
      return Bad;
    }
    var count := ParseInt(l.line[1..]);
    if count.None? {
      return Bad;
    }
    if count.value <= 0 {
      return if count.value < -1 then Bad else Done([], l.next);
    }
    if count.value > lim.maxMultiBulk {
      return Bad;
    }
    r := ParseElements(lim, b, l.next, count.value, OneOf(lim));
    ghost var rest := Several(OneOf(lim), b[l.next..], count.value);
    if rest.Done? {
      assert [] + rest.args == rest.args;
    }
  }

  // ---------------------------------------------------------------------- the stream

  /** Commands as a client sends them, one after the other. */
  function Sent(cmds: seq<seq<bytes>>): bytes {
    if cmds == [] then [] else F.Payload(cmds[0]) + Sent(cmds[1..])
  }

  function Signed(n: int): bytes {
    if n < 0 then [45] + Decimal(-n) else Decimal(n)
  }

  /** One byte in front of those already written. */
  method PutBefore(tmp: array<byte>, at: nat, b: byte) returns (i: nat)
    requires 0 < at <= tmp.Length
    modifies tmp
    ensures i + 1 == at && tmp[i..] == [b] + old(tmp[at..])
  {
    i := at - 1;
    tmp[i] := b;
    assert tmp[i + 1..] == old(tmp[at..]);
  }

  /** appendInt's digit loop, from the last digit back to the first. */
  method PutDigits(tmp: array<byte>, n: nat) returns (i: nat)
    requires tmp.Length == 20 && n <= MaxInt + 1
    modifies tmp
    ensures 0 < i <= 20 && tmp[i..] == Decimal(n)
  {
    i := tmp.Length;
    var u := n;
    DecimalLength(n);
    while u >= 10
      invariant 0 < i <= 20 && Decimal(u) + tmp[i..] == Decimal(n)
    {
      assert |tmp[i..]| == 20 - i;
      ghost var tail := tmp[i..];
      i := PutBefore(tmp, i, 48 + u % 10);
      assert Decimal(u) + tail == Decimal(u / 10) + ([48 + u % 10] + tail);
      u := u / 10;
    }
    i := PutBefore(tmp, i, 48 + u);
  }

  /** appendInt: a 64-bit number in decimal, by way of a fixed array. */
  method AppendInt(dst: bytes, n: int) returns (out: bytes)
    requires -MaxInt - 1 <= n <= MaxInt
    ensures out == dst + Signed(n)
  {
    if n >= 0 && n < 10 {
      return dst + [48 + n];
    }
    var tmp := new byte[20](_ => 0);
    var i := PutDigits(tmp, if n < 0 then -n else n);
    if n < 0 {
      i := PutBefore(tmp, i, 45);
    }
    return dst + tmp[i..];
  }

  method EncodeBulk(dst: bytes, a: bytes) returns (out: bytes)
    requires |a| <= MaxInt
    ensures out == dst + F.Bulk(a)
  {
    out := AppendInt(dst + [36], |a|);
    out := out + CRLF;
    out := out + a;
    out := out + CRLF;
    assert out == dst + ([36] + Decimal(|a|) + CRLF + a + CRLF);
  }

  lemma BulksCons(args: seq<bytes>, i: nat)
    requires i < |args|
    ensures F.Bulks(args[i..]) == F.Bulk(args[i]) + F.Bulks(args[i + 1..])
  {
    assert args[i..][1..] == args[i + 1..];
  }

  /** EncodeCommand. */
  method EncodeCommand(dst: bytes, args: seq<bytes>) returns (out: bytes)
    requires |args| <= MaxInt && forall i | 0 <= i < |args| :: |args[i]| <= MaxInt
    ensures out == dst + F.Payload(args)
  {
    out := AppendInt(dst + [42], |args|);
    out := out + CRLF;
    assert out == dst + ([42] + Decimal(|args|) + CRLF);
    ghost var all := out + F.Bulks(args);
    assert all == dst + F.Payload(args);
    var i := 0;
    assert args[0..] == args;
    while i < |args|
      invariant 0 <= i <= |args|
      invariant out + F.Bulks(args[i..]) == all
    {
      BulksCons(args, i);
      ConcatAssoc(out, F.Bulk(args[i]), F.Bulks(args[i + 1..]));
      out := EncodeBulk(out, args[i]);
      i := i + 1;
    }
    assert args[i..] == [] && out + [] == out;
  }

  datatype Filled = Refilled | Eof | Limit

  datatype Result = Command(args: seq<bytes>) | Protocol | Closed | TooBig

  function Min(a: int, b: int): int {
    if a < b then a else b
  }

  /** The connection's reader.  `src` is what the peer will still send; the k-th read
      from it returns some `pace(k)` bytes, at least one and no more than there is room
      for, so every way of chopping the stream is some `pace`.  `inline` decodes commands
      that do not start with an asterisk. */
  class Reader {
    const lim: Limits
    const inline: bytes -> Parsed
    const pace: nat -> nat
    ghost const parse: bytes -> Parsed
    var buf: array<byte>
    var r: nat
    var w: nat
    var src: bytes
    var calls: nat

    ghost predicate Valid()
      reads this
    {
      r <= w <= buf.Length && buf.Length > 0
    }

    /** What has been sent and not yet decoded. */
    ghost function Stream(): bytes
      requires Valid()
      reads this, buf
    {
      buf[r..w] + src
    }

    constructor (lim: Limits, inline: bytes -> Parsed, pace: nat -> nat, src: bytes, size: nat, ghost parse: bytes -> Parsed)
      requires size > 0
      ensures Valid() && Stream() == src && this.lim == lim && this.inline == inline && this.parse == parse
      ensures buf.Length == size && fresh(buf)
    {
      this.lim, this.inline, this.pace, this.src, this.parse := lim, inline, pace, src, parse;
      buf := new byte[size](_ => 0);
      r, w, calls := 0, 0, 0;
    }

    /** Move the unread bytes to the front. */
    method Compact()
      requires Valid()
      modifies this`r, this`w, buf
      ensures Valid() && Stream() == old(Stream()) && r == 0 && w == old(w - r)
    {
      ghost var was := buf[r..w];
      forall i | 0 <= i < w - r {
        buf[i] := buf[i + r];
      }
      w := w - r;
      r := 0;
      forall i | 0 <= i < w ensures buf[i] == was[i] {}
      assert buf[r..w] == was;
    }

    /** Twice the room, up to the limit. */
    method Grow()
      requires Valid() && r == 0 && w == buf.Length < lim.maxQueryBuffer
      modifies this`buf
      ensures Valid() && fresh(buf) && Stream() == old(Stream()) && buf.Length > old(buf.Length)
    {
      var size := buf.Length * 2;
      if size > lim.maxQueryBuffer {
        size := lim.maxQueryBuffer;
      }
      var grown := new byte[size](i requires 0 <= i < size reads this, buf => if i < w && i < buf.Length then buf[i] else 0);
      assert grown[r..w] == buf[r..w];
      buf := grown;
    }

    /** Make room, and read at least one byte more. */
    method Fill() returns (f: Filled)
      requires Valid()
      modifies this`r, this`w, this`buf, this`src, this`calls, buf
      ensures Valid() && Stream() == old(Stream()) && (buf == old(buf) || fresh(buf)) && buf.Length >= old(buf.Length)
      ensures f == Refilled ==> |src| < |old(src)|
      ensures f == Eof ==> src == [] == old(src)
      ensures f == Limit ==> r == old(r) == 0 && w == old(w) == buf.Length >= lim.maxQueryBuffer && buf == old(buf)
    {
      if r == w {
        r, w := 0, 0;
      } else if w == buf.Length {
        if r > 0 {
          Compact();
        } else if buf.Length >= lim.maxQueryBuffer {
          return Limit;
        } else {
          Grow();
        }
      }
      f := Read();
    }

    /** One read from the connection into the free space. */
    method Read() returns (f: Filled)
      requires Valid() && w < buf.Length
      modifies this`w, this`src, this`calls, buf
      ensures Valid() && Stream() == old(Stream()) && buf.Length == old(buf.Length)
      ensures f == Refilled ==> |src| < |old(src)|
      ensures f == Eof ==> src == [] == old(src)
      ensures f != Limit
    {
      if src == [] {
        return Eof;
      }
      var most := Min(buf.Length - w, |src|);
      var n := if pace(calls) == 0 then 1 else Min(pace(calls), most);
      ghost var was := buf[r..w];
      forall i | 0 <= i < n {
        buf[w + i] := src[i];
      }
      assert buf[r..w] == was && buf[w..w + n] == src[..n];
      assert buf[r..w + n] == was + src[..n];
      assert was + src == (was + src[..n]) + src[n..];
      w, src, calls := w + n, src[n..], calls + 1;
      return Refilled;
    }

    /** parse. */
    method Parse(b: bytes) returns (p: Parsed)
      requires b != [] && Implements(parse, lim, inline) && Inlines(inline)
      ensures p == parse(b) && (p.Done? ==> 0 < p.n <= |b|)
    {
      assert parse(b) == ParseOf(lim, inline, b);
      ParseBound(lim, inline, b);
      if b[0] != 42 {
        return inline(b);
      }
      p := ParseMultiBulk(lim, b);
    }

    /** The stream is these commands. */
    ghost predicate Carries(cmds: seq<seq<bytes>>)
      requires Valid()
      reads this, buf
    {
      Stream() == Sent(cmds) && Room(lim, buf.Length, cmds)
    }

    /** The stream is these commands, and each is decoded as it should be. */
    ghost predicate Good(cmds: seq<seq<bytes>>)
      requires Valid()
      reads this, buf
    {
      Carries(cmds) && AllDecode(parse, cmds)
    }

    /** Decode what is buffered, if it is a whole command. */
    method Take(ghost cmds: seq<seq<bytes>>) returns (p: Parsed)
      requires Valid() && r < w && Implements(parse, lim, inline) && Inlines(inline)
      modifies this`r
      ensures Valid() && old(r) <= r && (p.Done? ==> old(r) < r) && (!p.Done? ==> r == old(r))
      ensures old(Good(cmds)) ==>
                && cmds != []
                && (if p.Done? then p.args == cmds[0] && Stream() == Sent(cmds[1..])
                    else p == Incomplete && w - r < |F.Payload(cmds[0])|)
    {
      var b := buf[r..w];
      if Good(cmds) {
        FrontIs(parse, cmds, b, src);
      }
      p := Parse(b);
      if p.Done? {
        Consume(p.n);
      }
    }

    /** The first n buffered bytes are done with. */
    method Consume(n: nat)
      requires Valid() && n <= w - r
      modifies this`r
      ensures Valid() && r == old(r) + n && Stream() == old(buf[r..w])[n..] + src
    {
      ghost var b := buf[r..w];
      r := r + n;
      assert buf[r..w] == b[n..];
    }

    /** Decode a command, or read more; None when neither came to an end. */
    method Once(ghost cmds: seq<seq<bytes>>) returns (res: Option<Result>, ghost left: seq<seq<bytes>>)
      requires Valid() && Implements(parse, lim, inline) && Inlines(inline)
      modifies this`r, this`w, this`buf, this`src, this`calls, buf
      ensures Valid() && (buf == old(buf) || fresh(buf))
      ensures res.None? ==> |src| < |old(src)| || (src == old(src) && w - r < old(w - r))
      ensures old(Good(cmds)) ==>
                && Good(left)
                && (match res
                    case None => Real(left) == Real(cmds)
                    case Some(Command(args)) => cmds != [] && args == cmds[0] != [] && left == cmds[1..]
                    case Some(Closed) => left == cmds == []
                    case Some(_) => false)
    {
      left := cmds;
      if r < w {
        ghost var good := Good(cmds);
        var p := Take(cmds);
        if p.Done? {
          if good {
            RestGood(parse, lim, buf.Length, cmds);
            left := cmds[1..];
          }
          return if p.args != [] then Some(Command(p.args)) else None, left;
        }
        if p.Bad? {
          return Some(Protocol), left;
        }
      }
      res := More(cmds);
    }

    /** Read more, knowing that what is buffered is not a whole command. */
    method More(ghost cmds: seq<seq<bytes>>) returns (res: Option<Result>)
      requires Valid()
      modifies this`r, this`w, this`buf, this`src, this`calls, buf
      ensures Valid() && (buf == old(buf) || fresh(buf))
      ensures res.None? ==> |src| < |old(src)|
      ensures old(Good(cmds) && (r < w ==> cmds != [] && w - r < |F.Payload(cmds[0])|)) ==>
                Good(cmds) && (res == None || (res == Some(Closed) && cmds == []))
    {
      ghost var good := Good(cmds) && (r < w ==> cmds != [] && w - r < |F.Payload(cmds[0])|);
      ghost var held := w - r;
      var f := Fill();
      if f == Eof {
        if good {
          SentShort(cmds, Stream());
        }
        return Some(Closed);
      }
      if f == Limit {
        return Some(TooBig);
      }
      return None;
    }

    /** ReadCommand: the next command that is not empty.  If the stream carries commands
        within the limits, that is the first of them, whatever the chopping, and what
        is left is the rest. */
    method ReadCommand(ghost cmds: seq<seq<bytes>>) returns (res: Result, ghost left: seq<seq<bytes>>)
      requires Valid() && Implements(parse, lim, inline) && Inlines(inline)
      modifies this`r, this`w, this`buf, this`src, this`calls, buf
      ensures Valid() && (buf == old(buf) || fresh(buf))
      ensures old(Good(cmds)) ==>
                && Good(left)
                && (if Real(cmds) == [] then res == Closed && left == []
                    else res == Command(Real(cmds)[0]) && Real(left) == Real(cmds)[1..])
    {
      ghost var good := Good(cmds);
      left := cmds;
      while true
        invariant Valid() && (buf == old(buf) || fresh(buf))
        invariant good ==> Good(left) && Real(left) == Real(cmds)
        decreases |src|, w - r
      {
        ghost var before := left;
        var one;
        one, left := Once(left);
        if one.Some? {
          return one.value, left;
        }
      }
    }
  }

  lemma RestGood(parse: bytes -> Parsed, lim: Limits, size: nat, cmds: seq<seq<bytes>>)
    requires AllDecode(parse, cmds) && Room(lim, size, cmds) && cmds != []
    ensures AllDecode(parse, cmds[1..]) && Room(lim, size, cmds[1..])
    ensures cmds[0] == [] ==> Real(cmds) == Real(cmds[1..])
  {
  }

  /** Commands take at least the bytes of the first. */
  lemma SentShort(cmds: seq<seq<bytes>>, stream: bytes)
    requires stream == Sent(cmds)
    ensures cmds != [] ==> |stream| >= |F.Payload(cmds[0])| > 0
  {
  }

  function ParseOf(lim: Limits, inline: bytes -> Parsed, b: bytes): Parsed {
    if b == [] then Incomplete else if b[0] != 42 then inline(b) else MultiBulk(lim, b)
  }

  /** `parse` is how a command is decoded under the limits. */
  ghost predicate Implements(parse: bytes -> Parsed, lim: Limits, inline: bytes -> Parsed) {
    forall b: bytes {:trigger ParseOf(lim, inline, b)} :: parse(b) == ParseOf(lim, inline, b)
  }

  /** Inline commands take some of the bytes they are given. */
  ghost predicate Inlines(inline: bytes -> Parsed) {
    forall b :: inline(b).Done? ==> 0 < inline(b).n <= |b|
  }

  /** The commands that are not empty. */
  function Real(cmds: seq<seq<bytes>>): seq<seq<bytes>> {
    if cmds == [] then [] else (if cmds[0] == [] then [] else [cmds[0]]) + Real(cmds[1..])
  }

  /** None of them is empty, and where none is all of them are there. */
  lemma {:induction false} RealIs(cmds: seq<seq<bytes>>)
    ensures [] !in Real(cmds) && Real([[]]) == [] && ([] !in cmds ==> Real(cmds) == cmds)
  {
    if cmds != [] {
      RealIs(cmds[1..]);
      assert cmds == [cmds[0]] + cmds[1..];
    }
  }

  /** In order. */
  lemma {:induction false} RealConcat(a: seq<seq<bytes>>, b: seq<seq<bytes>>)
    ensures Real(a + b) == Real(a) + Real(b)
  {
    if a == [] {
      assert a + b == b;
    } else {
      RealConcat(a[1..], b);
      assert (a + b)[1..] == a[1..] + b;
      ConcatAssoc(if a[0] == [] then [] else [a[0]], Real(a[1..]), Real(b));
    }
  }

  /** Each command is within what the buffer may grow to. */
  ghost predicate Room(lim: Limits, size: nat, cmds: seq<seq<bytes>>) {
    forall i | 0 <= i < |cmds| :: |F.Payload(cmds[i])| <= size || |F.Payload(cmds[i])| <= lim.maxQueryBuffer
  }

  lemma ParseBound(lim: Limits, inline: bytes -> Parsed, b: bytes)
    requires Inlines(inline)
    ensures ParseOf(lim, inline, b).Done? ==> 0 < ParseOf(lim, inline, b).n <= |b|
  {
  }

  // ---------------------------------------------------------------- whole and partial

  ghost predicate WholeIs(parse: bytes -> Parsed, c: seq<bytes>, frame: bytes, rest: bytes) {
    parse(frame + rest) == Done(c, |frame|)
  }

  ghost predicate PartIs(parse: bytes -> Parsed, frame: bytes, cut: nat) {
    cut < |frame| ==> parse(frame[..cut]) == Incomplete
  }

  /** A command is decoded exactly, whatever follows, and a part of it never is. */
  ghost predicate Decodes(parse: bytes -> Parsed, c: seq<bytes>) {
    && F.Payload(c) != []
    && (forall rest: bytes :: WholeIs(parse, c, F.Payload(c), rest))
    && (forall cut: nat :: PartIs(parse, F.Payload(c), cut))
  }

  ghost predicate AllDecode(parse: bytes -> Parsed, cmds: seq<seq<bytes>>) {
    forall i | 0 <= i < |cmds| :: Decodes(parse, cmds[i])
  }

  /** Every command within the limits is one. */
  lemma FitsDecodes(lim: Limits, inline: bytes -> Parsed, parse: bytes -> Parsed, c: seq<bytes>)
    requires Implements(parse, lim, inline) && Fits(lim, c)
    ensures Decodes(parse, c)
  {
    var frame := F.Payload(c);
    forall rest: bytes ensures WholeIs(parse, c, frame, rest) {
      assert parse(frame + rest) == ParseOf(lim, inline, frame + rest);
      CommandWhole(lim, c, rest);
    }
    forall cut: nat ensures PartIs(parse, frame, cut) {
      if cut < |frame| {
        assert parse(frame[..cut]) == ParseOf(lim, inline, frame[..cut]);
        CommandPrefix(lim, c, cut);
      }
    }
  }

  /** What decoding finds in a buffer that holds the front of the commands. */
  lemma FrontIs(parse: bytes -> Parsed, cmds: seq<seq<bytes>>, b: bytes, src: bytes)
    requires b != [] && b + src == Sent(cmds) && AllDecode(parse, cmds)
    ensures cmds != []
    ensures var c := F.Payload(cmds[0]);
            if |b| < |c| then parse(b) == Incomplete
            else parse(b) == Done(cmds[0], |c|) && b[|c|..] + src == Sent(cmds[1..])
  {
    var c, rest := F.Payload(cmds[0]), Sent(cmds[1..]);
    Front(c, rest, b, src);
    if |b| < |c| {
      assert PartIs(parse, c, |b|);
    } else {
      assert WholeIs(parse, cmds[0], c, rest[..|b| - |c|]);
    }
  }

  lemma Front(c: bytes, rest: bytes, b: bytes, src: bytes)
    requires b + src == c + rest
    ensures if |b| < |c| then b == c[..|b|] else b == c + rest[..|b| - |c|] && b[|c|..] + src == rest
  {
    assert b == (c + rest)[..|b|];
    if |b| >= |c| {
      assert b[|c|..] + src == (b + src)[|c|..];
    }
  }

  // -------------------------------------------------------------------- a connection

  function Parser(lim: Limits, inline: bytes -> Parsed): bytes -> Parsed {
    b => ParseOf(lim, inline, b)
  }

  lemma AllFitDecode(lim: Limits, inline: bytes -> Parsed, parse: bytes -> Parsed, cmds: seq<seq<bytes>>)
    requires Implements(parse, lim, inline) && forall i | 0 <= i < |cmds| :: Fits(lim, cmds[i])
    ensures AllDecode(parse, cmds)
  {
    forall i | 0 <= i < |cmds| ensures Decodes(parse, cmds[i]) {
      FitsDecodes(lim, inline, parse, cmds[i]);
    }
  }

  /** A reader of the given connection. */
  method Open(lim: Limits, inline: bytes -> Parsed, pace: nat -> nat, src: bytes, size: nat, ghost cmds: seq<seq<bytes>>)
    returns (rd: Reader)
    requires size > 0 && Inlines(inline) && src == Sent(cmds)
    requires Room(lim, size, cmds) && forall i | 0 <= i < |cmds| :: Fits(lim, cmds[i])
    ensures fresh(rd) && fresh(rd.buf) && rd.Valid() && rd.Good(cmds)
    ensures rd.lim == lim && rd.inline == inline && Implements(rd.parse, lim, inline)
  {
    ghost var parse := Parser(lim, inline);
    AllFitDecode(lim, inline, parse, cmds);
    rd := new Reader(lim, inline, pace, src, size, parse);
  }

  /** Commands until the connection ends. */
  method Drain(rd: Reader, ghost cmds: seq<seq<bytes>>) returns (got: seq<seq<bytes>>)
    requires rd.Valid() && rd.Good(cmds) && Implements(rd.parse, rd.lim, rd.inline) && Inlines(rd.inline)
    modifies rd, rd.buf
    ensures got == Real(cmds)
  {
    got := [];
    ghost var left, rest := cmds, Real(cmds);
    var more := true;
    while more
      invariant rd.Valid() && (rd.buf == old(rd.buf) || fresh(rd.buf)) && rd.Good(left)
      invariant rest == Real(left) && got + rest == Real(cmds) && (!more ==> rest == [])
      decreases |rest|, more
    {
      var res;
      res, left := rd.ReadCommand(left);
      more := res.Command?;
      if more {
        Onward(got, rest, Real(cmds));
        got, rest := got + [res.args], rest[1..];
      }
    }
  }

  lemma Onward<T>(got: seq<T>, rest: seq<T>, all: seq<T>)
    requires got + rest == all && rest != []
    ensures got + [rest[0]] + rest[1..] == all
  {
  }

  /** Reading a connection to its end: whatever commands within the limits the client
      sent, and however the network chopped them, exactly those that are not empty
      come out, in order. */
  method ReadToEnd(lim: Limits, inline: bytes -> Parsed, pace: nat -> nat, src: bytes, size: nat, ghost cmds: seq<seq<bytes>>)
    returns (got: seq<seq<bytes>>)
    requires size > 0 && Inlines(inline) && src == Sent(cmds)
    requires Room(lim, size, cmds) && forall i | 0 <= i < |cmds| :: Fits(lim, cmds[i])
    ensures got == Real(cmds)
  {
    var rd := Open(lim, inline, pace, src, size, cmds);
    got := Drain(rd, cmds);
  }
}
