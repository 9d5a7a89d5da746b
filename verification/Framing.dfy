/** The framing of the append log (persist/record.go): a record is a 12-byte header
    and a RESP2 array of bulk strings.  The checksum is a parameter: nothing here
    depends on which function it is. */
module Framing {
  import opened Options
  import opened Bytes
  import opened LogFile

  type u32 = x: int | 0 <= x < 0x1_0000_0000

  type Crc = bytes -> u32

  const RecordHeaderSize: nat := 12
  const MaxRecordSize: nat := 0x2000_0000

  // ------------------------------------------------------------------------ payload

  function Bulk(a: bytes): bytes {
    [36] + Decimal(|a|) + CRLF + a + CRLF
  }

  function Bulks(args: seq<bytes>): bytes {
    if args == [] then [] else Bulk(args[0]) + Bulks(args[1..])
  }

  /** appendRESPArray. */
  function Payload(args: seq<bytes>): bytes {
    [42] + Decimal(|args|) + CRLF + Bulks(args)
  }

  /** readLine: a CRLF-terminated decimal and what follows it. */
  function ReadLine(p: bytes): (r: Option<(int, bytes)>)
    ensures r.Some? ==> |r.value.1| + 2 <= |p|
  {
    LineFrom(p, 0)
  }

  function LineFrom(p: bytes, i: nat): (r: Option<(int, bytes)>)
    ensures r.Some? ==> |r.value.1| + 2 <= |p|
    decreases |p| - i
  {
    if i + 1 >= |p| then None
    else if p[i] != CR then LineFrom(p, i + 1)
    else if p[i + 1] != LF then None
    else match Atoi(p[..i])
      case None => None
      case Some(v) => Some((v, p[i + 2..]))
  }

  /** decodeRESPArray's loop: n bulk strings and nothing behind them. */
  function Elements(n: nat, p: bytes): (r: Option<seq<bytes>>)
    decreases n
  {
    if n == 0 then
      if p == [] then Some([]) else None
    else if p == [] || p[0] != 36 then None
    else match ReadLine(p[1..])
      case None => None
      case Some((size, rest)) =>
        if size < 0 || size + 2 > |rest| then None
        else if rest[size] != CR || rest[size + 1] != LF then None
        else match Elements(n - 1, rest[size + 2..])
          case None => None
          case Some(args) => Some([rest[..size]] + args)
  }

  /** decodeRESPArray. */
  function Decode(p: bytes): Option<seq<bytes>> {
    if p == [] || p[0] != 42 then None
    else match ReadLine(p[1..])
      case None => None
      case Some((n, rest)) => if n < 0 || n > |p| then None else Elements(n, rest)
  }

  lemma {:induction false} LineSkips(p: bytes, i: nat, n: nat)
    requires i <= n && n + 1 < |p| && p[n] == CR && p[n + 1] == LF
    requires forall j | i <= j < n :: p[j] != CR
    ensures LineFrom(p, i) == LineFrom(p, n)
    decreases n - i
  {
    if i < n {
      LineSkips(p, i + 1, n);
    }
  }

  /** A written length is read back, with exactly what follows it. */
  lemma LineRoundTrip(n: nat, rest: bytes)
    ensures ReadLine(Decimal(n) + CRLF + rest) == if n <= MaxInt then Some((n, rest)) else None
  {
    var d := Decimal(n);
    var p := d + CRLF + rest;
    DecimalRoundTrip(n);
    DecimalValue(n);
    forall j | 0 <= j < |d| ensures p[j] != CR {
      assert IsDigit(d[j]);
    }
    LineSkips(p, 0, |d|);
    assert p[..|d|] == d && p[|d| + 2..] == rest;
  }

  lemma {:induction false} ElementsRoundTrip(args: seq<bytes>)
    requires forall i | 0 <= i < |args| :: |args[i]| <= MaxInt
    ensures Elements(|args|, Bulks(args)) == Some(args)
  {
    if args != [] {
      var a, more := args[0], Bulks(args[1..]);
      var p := Bulks(args);
      assert p[1..] == Decimal(|a|) + CRLF + (a + CRLF + more);
      LineRoundTrip(|a|, a + CRLF + more);
      var rest := a + CRLF + more;
      assert rest[..|a|] == a && rest[|a| + 2..] == more;
      ElementsRoundTrip(args[1..]);
      assert args == [a] + args[1..];
    }
  }

  lemma {:induction false} BulksSize(args: seq<bytes>)
    ensures |args| <= |Bulks(args)| && forall i | 0 <= i < |args| :: |args[i]| <= |Bulks(args)|
  {
    if args != [] {
      BulksSize(args[1..]);
      assert forall i | 0 < i < |args| :: args[i] == args[1..][i - 1];
    }
  }

  /** Every argument list that fits comes back from its encoding. */
  lemma PayloadRoundTrip(args: seq<bytes>)
    requires |Payload(args)| <= MaxInt
    ensures Decode(Payload(args)) == Some(args)
  {
    BulksSize(args);
    ElementsRoundTrip(args);
    assert Payload(args)[1..] == Decimal(|args|) + CRLF + Bulks(args);
    LineRoundTrip(|args|, Bulks(args));
  }

  // ------------------------------------------------------------------------- record

  datatype Record = Record(db: nat, kind: nat, args: seq<bytes>)

  /** The header bytes the checksum covers. */
  function Prologue(r: Record): bytes {
    LE(|Payload(r.args)|, 4) + LE(r.db, 2) + LE(r.kind, 2)
  }

  /** encodeRecord: length, database, kind, checksum, payload. */
  function Frame(crc: Crc, r: Record): bytes {
    Prologue(r) + LE(crc(Prologue(r) + Payload(r.args)), 4) + Payload(r.args)
  }

  /** Reader.Next on the bytes that are left. */
  function ReadOne(crc: Crc, b: bytes): (r: Reading<Record>)
    ensures r.Got? ==> 0 < r.size <= |b|
  {
    if b == [] then End
    else if |b| < RecordHeaderSize then Torn
    else
      var size := UnLE(b[..4]);
      if size > MaxRecordSize then Corrupt
      else if |b| < RecordHeaderSize + size then Torn
      else
        var p := b[12..12 + size];
        if crc(b[..8] + p) != UnLE(b[8..12]) then Corrupt
        else match Decode(p)
          case None => Undecodable
          case Some(args) =>
            if args == [] then Corrupt
            else Got(Record(UnLE(b[4..6]), UnLE(b[6..8]), args), RecordHeaderSize + size)
  }

  /** What the log can hold: the reader takes neither an empty command nor an
      oversized one, and the header has two bytes each for database and kind. */
  predicate Writable(r: Record) {
    r.db < 0x1_0000 && r.kind < 0x1_0000 && r.args != [] && |Payload(r.args)| <= MaxRecordSize
  }

  lemma FrameParts(crc: Crc, r: Record, rest: bytes)
    ensures var b, n := Frame(crc, r) + rest, |Payload(r.args)|;
            && |Frame(crc, r)| == RecordHeaderSize + n && |Prologue(r)| == 8
            && b[..4] == LE(n, 4) && b[4..6] == LE(r.db, 2) && b[6..8] == LE(r.kind, 2)
            && b[..8] == Prologue(r) && b[8..12] == LE(crc(Prologue(r) + Payload(r.args)), 4)
            && b[12..12 + n] == Payload(r.args) && b[12 + n..] == rest
  {
  }

  lemma Widths()
    ensures Pow256(2) == 0x1_0000 && Pow256(4) == 0x1_0000_0000
  {
    assert Pow256(1) == 256 * Pow256(0);
    assert Pow256(2) == 256 * Pow256(1);
    assert Pow256(3) == 256 * Pow256(2);
  }

  /** A record is read back from its frame, whatever follows, exactly when it is one
      the log can hold. */
  lemma FrameRoundTrip(crc: Crc, r: Record, rest: bytes)
    ensures ReadOne(crc, Frame(crc, r) + rest) == Got(r, |Frame(crc, r)|) <==> Writable(r)
  {
    var n := |Payload(r.args)|;
    FrameParts(crc, r, rest);
    Widths();
    LERoundTrip(n, 4);
    LERoundTrip(r.db, 2);
    LERoundTrip(r.kind, 2);
    LERoundTrip(crc(Prologue(r) + Payload(r.args)), 4);
    if n <= MaxRecordSize {
      PayloadRoundTrip(r.args);
    }
  }

  /** A frame cut short is torn, wherever it is cut. */
  lemma FrameTorn(crc: Crc, r: Record, cut: nat)
    requires Writable(r) && 0 < cut < |Frame(crc, r)|
    ensures ReadOne(crc, Frame(crc, r)[..cut]) == Torn
  {
    FrameParts(crc, r, []);
    assert Frame(crc, r) + [] == Frame(crc, r);
    Widths();
    LERoundTrip(|Payload(r.args)|, 4);
    if cut >= RecordHeaderSize {
      assert Frame(crc, r)[..cut][..4] == LE(|Payload(r.args)|, 4);
    }
  }

  /** A record is decided by its own bytes. */
  lemma SameStart(crc: Crc, b: bytes, n: nat)
    requires ReadOne(crc, b).Got? && ReadOne(crc, b).size <= n <= |b|
    ensures ReadOne(crc, b[..n]) == ReadOne(crc, b)
  {
    var c, size := b[..n], UnLE(b[..4]);
    assert c[..4] == b[..4] && c[..8] == b[..8] && c[4..6] == b[4..6] && c[6..8] == b[6..8] && c[8..12] == b[8..12];
    assert c[12..12 + size] == b[12..12 + size];
  }
}
