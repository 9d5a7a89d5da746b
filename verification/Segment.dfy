/** A log segment on disk: its header, the reader (persist/reader.go) and what
    recovery does with the segment (persist/recover.go). */
module Segment {
  import opened Options
  import opened Seqs
  import opened Bytes
  import opened LogFile
  import opened Framing

  const FileHeaderSize: nat := 32

  /** Next, as a function of what is left of the source. */
  function Reader(crc: Crc): bytes -> Reading<Record> {
    b => ReadOne(crc, b)
  }

  function Writer(crc: Crc): Record -> bytes {
    r => Frame(crc, r)
  }

  lemma ReaderLocal(crc: Crc)
    ensures Local(Reader(crc))
  {
    forall b: bytes, n: nat ensures LocalFor(Reader(crc), b, n) {
      if ReadOne(crc, b).Got? && ReadOne(crc, b).size <= n <= |b| {
        SameStart(crc, b, n);
      }
    }
  }

  lemma WriterReads(crc: Crc, r: Record)
    requires Writable(r)
    ensures Reads(Reader(crc), Writer(crc), r)
  {
    FrameParts(crc, r, []);
    assert Writer(crc)(r) == Frame(crc, r);
    forall rest ensures ReadsWith(Reader(crc), Frame(crc, r), r, rest) {
      FrameRoundTrip(crc, r, rest);
    }
    forall cut: nat ensures TornAt(Reader(crc), Frame(crc, r), cut) {
      if 0 < cut < |Frame(crc, r)| {
        FrameTorn(crc, r, cut);
      }
    }
  }

  lemma WriterFits(crc: Crc, rs: seq<Record>)
    requires forall r | r in rs :: Writable(r)
    ensures Fit(Reader(crc), Writer(crc), rs)
  {
    ReaderLocal(crc);
    forall r | r in rs ensures Reads(Reader(crc), Writer(crc), r) {
      WriterReads(crc, r);
    }
  }

  /** Torn-tail recovery of the program's own segments: for every list of records the
      log can hold and every cut after the file header, the reader yields exactly the
      whole records before the cut at their offsets, reports a torn tail exactly when
      the cut is not on a boundary, and truncating to where it stopped gives a clean
      file that reads the same. */
  lemma TornTailRecovers(crc: Crc, rs: seq<Record>, cut: nat, base: nat)
    requires forall r | r in rs :: Writable(r)
    requires cut <= |Encode(Writer(crc), rs)|
    ensures TornTail(Reader(crc), Writer(crc), rs, cut, base)
  {
    WriterFits(crc, rs);
    TornTailHolds(Reader(crc), Writer(crc), rs, cut, base);
  }

  // --------------------------------------------------------------------- the encoder

  /** appendRESPArray. */
  method AppendArray(dst: bytes, args: seq<bytes>) returns (out: bytes)
    ensures out == dst + Payload(args)
  {
    out := dst + [42] + Decimal(|args|) + CRLF;
    ghost var head := out;
    var i := 0;
    while i < |args|
      invariant 0 <= i <= |args|
      invariant out + Bulks(args[i..]) == head + Bulks(args)
    {
      assert args[i..][1..] == args[i + 1..];
      ConcatAssoc(out, Bulk(args[i]), Bulks(args[i + 1..]));
      assert out + Bulk(args[i]) == out + [36] + Decimal(|args[i]|) + CRLF + args[i] + CRLF;
      out := out + [36] + Decimal(|args[i]|) + CRLF + args[i] + CRLF;
      i := i + 1;
    }
    assert args[i..] == [] && out + [] == out;
    assert dst + Payload(args) == head + Bulks(args);
  }

  /** encodeRecord: room for the header, the payload, then the header patched in. */
  method EncodeRecord(crc: Crc, dst: bytes, r: Record) returns (out: bytes)
    ensures out == dst + Frame(crc, r)
  {
    out := dst + seq(RecordHeaderSize, _ => 0);
    var payloadStart := |out|;
    out := AppendArray(out, r.args);
    var p := out[payloadStart..];
    assert p == Payload(r.args);
    var h := LE(|p|, 4) + LE(r.db, 2) + LE(r.kind, 2);
    out := out[..|dst|] + h + LE(crc(h + p), 4) + out[payloadStart..];
  }

  /** recordSize is exact. */
  method RecordSize(args: seq<bytes>) returns (n: nat)
    ensures forall crc: Crc, db: nat, kind: nat :: n == |Frame(crc, Record(db, kind, args))|
  {
    var d := Digits(|args|);
    n := RecordHeaderSize + 1 + d + 2;
    ghost var head := n;
    var i := 0;
    while i < |args|
      invariant 0 <= i <= |args|
      invariant n + |Bulks(args[i..])| == head + |Bulks(args)|
    {
      assert args[i..][1..] == args[i + 1..];
      d := Digits(|args[i]|);
      n := n + 1 + d + 2 + |args[i]| + 2;
      i := i + 1;
    }
    assert args[i..] == [];
  }

  // --------------------------------------------------------------------- the decoder

  /** readLine's scan. */
  method ScanLine(p: bytes) returns (r: Option<(int, bytes)>)
    ensures r == ReadLine(p)
  {
    var i := 0;
    while i + 1 < |p|
      invariant 0 <= i <= |p|
      invariant ReadLine(p) == LineFrom(p, i)
    {
      if p[i] == CR {
        if p[i + 1] != LF {
          return None;
        }
        var v := Atoi(p[..i]);
        if v.None? {
          return None;
        }
        return Some((v.value, p[i + 2..]));
      }
      i := i + 1;
    }
    return None;
  }

  /** decodeRESPArray. */
  method DecodeArray(p: bytes) returns (r: Option<seq<bytes>>)
    ensures r == Decode(p)
  {
    if p == [] || p[0] != 42 {
      return None;
    }
    var line := ScanLine(p[1..]);
    if line.None? || line.value.0 < 0 || line.value.0 > |p| {
      return None;
    }
    r := DecodeElements(line.value.0, line.value.1);
  }

  function Prepend(args: seq<bytes>, more: Option<seq<bytes>>): Option<seq<bytes>> {
    if more.None? then None else Some(args + more.value)
  }

  lemma PrependMore(args: seq<bytes>, a: bytes, more: Option<seq<bytes>>)
    ensures Prepend(args, Prepend([a], more)) == Prepend(args + [a], more)
  {
    if more.Some? {
      assert args + ([a] + more.value) == args + [a] + more.value;
    }
  }

  lemma PrependNone(more: Option<seq<bytes>>)
    ensures Prepend([], more) == more
  {
    if more.Some? {
      assert [] + more.value == more.value;
    }
  }

  /** One element of an array, and what follows it. */
  method DecodeElement(rest: bytes, ghost n: nat) returns (r: Option<(bytes, bytes)>)
    ensures r.None? ==> Elements(n + 1, rest).None?
    ensures r.Some? ==> Elements(n + 1, rest) == Prepend([r.value.0], Elements(n, r.value.1))
  {
    if rest == [] || rest[0] != 36 {
      return None;
    }
    var line := ScanLine(rest[1..]);
    if line.None? {
      return None;
    }
    var (size, more) := line.value;
    if size < 0 || size + 2 > |more| {
      return None;
    }
    if more[size] != CR || more[size + 1] != LF {
      return None;
    }
    return Some((more[..size], more[size + 2..]));
  }

  method DecodeElements(n: nat, p: bytes) returns (r: Option<seq<bytes>>)
    ensures r == Elements(n, p)
  {
    var args: seq<bytes> := [];
    var rest, i := p, 0;
    PrependNone(Elements(n, p));
    while i < n
      invariant 0 <= i <= n
      invariant Elements(n, p) == Prepend(args, Elements(n - i, rest))
    {
      var one := DecodeElement(rest, n - i - 1);
      if one.None? {
        return None;
      }
      PrependMore(args, one.value.0, Elements(n - i - 1, one.value.1));
      args, rest := args + [one.value.0], one.value.1;
      i := i + 1;
    }
    assert args + [] == args;
    return if rest == [] then Some(args) else None;
  }

  // ------------------------------------------------------------------ the file header

  const LogMagic: bytes := [75, 69, 83, 84, 82, 76, 79, 71]
  const SnapshotMagic: bytes := [75, 69, 83, 84, 82, 83, 78, 80]
  const FileVersion: nat := 1

  datatype Header = Header(version: nat, flags: nat, base: nat, created: nat)

  function HeaderStart(h: Header, magic: bytes): bytes {
    magic + LE(h.version, 2) + LE(h.flags, 2) + LE(h.base, 8) + LE(h.created, 8)
  }

  /** fileHeader.encode. */
  function EncodeHeader(crc: Crc, h: Header, magic: bytes): bytes {
    HeaderStart(h, magic) + LE(crc(HeaderStart(h, magic)), 4)
  }

  datatype HeaderError = BadHeader | CorruptHeader

  datatype Decoded = Decoded(header: Header) | Rejected(error: HeaderError)

  /** decodeFileHeader. */
  function DecodeHeader(crc: Crc, b: bytes, magic: bytes): Decoded {
    if |b| < FileHeaderSize || b[..8] != magic then Rejected(BadHeader)
    else if UnLE(b[28..32]) != crc(b[..28]) then Rejected(CorruptHeader)
    else
      var h := Header(UnLE(b[8..10]), UnLE(b[10..12]), UnLE(b[12..20]), UnLE(b[20..28]));
      if h.version != FileVersion then Rejected(BadHeader) else Decoded(h)
  }

  predicate Fits(h: Header) {
    h.version == FileVersion && h.flags < Pow256(2) && h.base < Pow256(8) && h.created < Pow256(8)
  }

  lemma HeaderParts(crc: Crc, h: Header, magic: bytes)
    requires |magic| == 8
    ensures var b := EncodeHeader(crc, h, magic);
            && |b| == 32 && b[..8] == magic && b[8..10] == LE(h.version, 2) && b[10..12] == LE(h.flags, 2)
            && b[12..20] == LE(h.base, 8) && b[20..28] == LE(h.created, 8)
            && b[..28] == HeaderStart(h, magic) && b[28..32] == LE(crc(HeaderStart(h, magic)), 4)
  {
  }

  /** A header is read back exactly when its fields fit, and not at all under another
      magic. */
  lemma HeaderRoundTrip(crc: Crc, h: Header, magic: bytes, other: bytes)
    requires |magic| == |other| == 8
    ensures DecodeHeader(crc, EncodeHeader(crc, h, magic), magic) == Decoded(h) <==> Fits(h)
    ensures other != magic ==> DecodeHeader(crc, EncodeHeader(crc, h, magic), other) == Rejected(BadHeader)
  {
    HeaderParts(crc, h, magic);
    Widths();
    LERoundTrip(h.version, 2);
    LERoundTrip(h.flags, 2);
    LERoundTrip(h.base, 8);
    LERoundTrip(h.created, 8);
    LERoundTrip(crc(HeaderStart(h, magic)), 4);
  }

  /** So a log is never opened as a snapshot, nor a snapshot as a log. */
  lemma KindsApart(crc: Crc, h: Header)
    ensures DecodeHeader(crc, EncodeHeader(crc, h, LogMagic), SnapshotMagic) == Rejected(BadHeader)
    ensures DecodeHeader(crc, EncodeHeader(crc, h, SnapshotMagic), LogMagic) == Rejected(BadHeader)
  {
    assert LogMagic[5] != SnapshotMagic[5];
    HeaderRoundTrip(crc, h, LogMagic, SnapshotMagic);
    HeaderRoundTrip(crc, h, SnapshotMagic, LogMagic);
  }

  // ---------------------------------------------------------------------- the reader

  /** `read` is what one Next makes of the bytes that are left. */
  ghost predicate Implements(read: bytes -> Reading<Record>, crc: Crc) {
    forall b: bytes {:trigger ReadOne(crc, b)} :: read(b) == ReadOne(crc, b)
  }

  /** Reader: what the source still holds, the stream offset of the next record, and
      why iteration stopped. */
  class LogReader {
    const crc: Crc
    const base: nat
    ghost const read: bytes -> Reading<Record>
    var left: bytes
    var off: nat
    var damage: Option<Reading<Record>>

    ghost predicate Valid() {
      Implements(read, crc)
    }

    constructor (crc: Crc, base: nat, at: nat, left: bytes, ghost read: bytes -> Reading<Record>)
      requires Implements(read, crc)
      ensures Valid() && this.crc == crc && this.base == base && this.read == read
      ensures off == at && this.left == left && damage == None
    {
      this.crc, this.base, this.read := crc, base, read;
      off, this.left, damage := at, left, None;
    }

    /** Next: header, size check, payload, checksum, decoding. */
    method Next() returns (got: Option<Entry<Record>>)
      requires Valid()
      modifies this
      ensures old(damage).Some? ==> got.None? && unchanged(this)
      ensures old(damage).None? ==>
                match read(old(left))
                case Got(r, size) =>
                  got == Some(Entry(r, old(off), size)) && 0 < size <= |old(left)| && left == old(left)[size..]
                  && off == old(off) + size && damage == None
                case End => got == None && off == old(off) && damage == None && left == []
                case why => got == None && off == old(off) && damage == Some(why)
    {
      if damage.Some? {
        return None;
      }
      ghost var b := left;
      assert read(b) == ReadOne(crc, b);
      if left == [] {
        return None;
      }
      if |left| < RecordHeaderSize {
        damage := Some(Torn);
        return None;
      }
      var hdr := left[..RecordHeaderSize];
      left := left[RecordHeaderSize..];
      assert hdr[..4] == b[..4] && hdr[..8] == b[..8] && hdr[4..6] == b[4..6] && hdr[6..8] == b[6..8] && hdr[8..12] == b[8..12];
      var size := UnLE(hdr[..4]);
      if size > MaxRecordSize {
        damage := Some(Corrupt);
        return None;
      }
      if |left| < size {
        damage := Some(Torn);
        return None;
      }
      var p := left[..size];
      left := left[size..];
      assert p == b[12..12 + size] && left == b[12 + size..];
      if crc(hdr[..8] + p) != UnLE(hdr[8..12]) {
        damage := Some(Corrupt);
        return None;
      }
      var args := DecodeArray(p);
      if args.None? {
        damage := Some(Undecodable);
        return None;
      }
      if args.value == [] {
        damage := Some(Corrupt);
        return None;
      }
      got := Some(Entry(Record(UnLE(hdr[4..6]), UnLE(hdr[6..8]), args.value), off, RecordHeaderSize + size));
      off := off + RecordHeaderSize + size;
    }
  }

  // -------------------------------------------------------------- replaying a segment

  const KindEffect: nat := 0

  /** The entries recovery applies: those that do not start before `from`. */
  function Since(es: seq<Entry<Record>>, from: nat): seq<Entry<Record>> {
    if es == [] then []
    else (if es[0].offset >= from then [es[0]] else []) + Since(es[1..], from)
  }

  /** Applying entries one after the other. */
  function Applied<S>(apply: (S, Entry<Record>) -> Option<S>, es: seq<Entry<Record>>, st: S): Option<S> {
    if es == [] then Some(st) else
      match Applied(apply, es[..|es| - 1], st)
      case None => None
      case Some(mid) => apply(mid, es[|es| - 1])
  }

  /** How far a replay went: through, or up to a record that is not an effect, or to one
      that did not replay. */
  datatype Went<S> = Through(state: S) | Stray(offset: nat) | Diverged(offset: nat)

  /** replaySegment's loop, record by record. */
  function Replaying<S>(apply: (S, Entry<Record>) -> Option<S>, from: nat, es: seq<Entry<Record>>, st: S): Went<S> {
    if es == [] then Through(st) else
      match Replaying(apply, from, es[..|es| - 1], st)
      case Through(mid) =>
        var e := es[|es| - 1];
        if e.record.kind != KindEffect then Stray(e.offset)
        else if e.offset < from then Through(mid)
        else
          (match apply(mid, e)
           case None => Diverged(e.offset)
           case Some(next) => Through(next))
      case stopped => stopped
  }

  /** What replaying a segment ends in: the state, how many records were applied and
      skipped, where the log goes on, what was found wrong, and the file afterwards. */
  datatype Outcome<S> =
    | Replayed(state: S, records: nat, skipped: nat, end: nat, damage: Option<Reading<Record>>, file: bytes)
    | Stopped(went: Went<S>)
    | Fatal(why: Reading<Record>)

  predicate Effects(es: seq<Entry<Record>>) {
    forall i | 0 <= i < |es| :: es[i].record.kind == KindEffect
  }

  lemma {:induction false} SinceSnoc(es: seq<Entry<Record>>, e: Entry<Record>, from: nat)
    ensures Since(es + [e], from) == Since(es, from) + if e.offset >= from then [e] else []
  {
    if es != [] {
      SinceSnoc(es[1..], e, from);
      assert (es + [e])[1..] == es[1..] + [e];
    } else {
      assert (es + [e])[1..] == [];
    }
  }

  /** It goes through exactly when every record is an effect and those from `from` on
      apply in order, and then that is what it gives. */
  lemma {:induction false} ReplayingIs<S>(apply: (S, Entry<Record>) -> Option<S>, from: nat, es: seq<Entry<Record>>, st: S)
    ensures Effects(es) && Applied(apply, Since(es, from), st).Some?
            ==> Replaying(apply, from, es, st) == Through(Applied(apply, Since(es, from), st).value)
    ensures Replaying(apply, from, es, st).Through? ==> Effects(es) && Applied(apply, Since(es, from), st).Some?
  {
    if es != [] {
      var init, e := es[..|es| - 1], es[|es| - 1];
      ReplayingIs(apply, from, init, st);
      assert es == init + [e];
      SinceSnoc(init, e, from);
      var some := Since(init, from);
      if e.offset >= from {
        assert (some + [e])[..|some|] == some;
      } else {
        assert some + [] == some;
      }
    }
  }

  lemma {:induction false} StoppedStays<S>(apply: (S, Entry<Record>) -> Option<S>, from: nat, es: seq<Entry<Record>>, n: nat, st: S)
    requires n <= |es| && !Replaying(apply, from, es[..n], st).Through?
    ensures Replaying(apply, from, es, st) == Replaying(apply, from, es[..n], st)
  {
    if n == |es| {
      assert es[..n] == es;
    } else {
      assert es[..|es| - 1][..n] == es[..n];
      StoppedStays(apply, from, es[..|es| - 1], n, st);
    }
  }

  /** A log read so far, put before what reading on gives. */
  ghost function Onto(es: seq<Entry<Record>>, read: bytes -> Reading<Record>, b: bytes, at: nat): Log<Record> {
    var l := ReadAll(read, b, at);
    Log(es + l.entries, l.end, l.stop)
  }

  lemma OntoMore(es: seq<Entry<Record>>, read: bytes -> Reading<Record>, b: bytes, at: nat)
    ensures var one := read(b);
            if one.Got? && 0 < one.size <= |b|
            then Onto(es, read, b, at) == Onto(es + [Entry(one.record, at, one.size)], read, b[one.size..], at + one.size)
            else Onto(es, read, b, at) == Log(es, at, one)
  {
    var one := read(b);
    if one.Got? && 0 < one.size <= |b| {
      var rest := ReadAll(read, b[one.size..], at + one.size);
      var e := Entry(one.record, at, one.size);
      assert es + ([e] + rest.entries) == es + [e] + rest.entries;
    }
  }

  /** One record more. */
  function OneMore<S>(apply: (S, Entry<Record>) -> Option<S>, from: nat, e: Entry<Record>, mid: S): Went<S> {
    if e.record.kind != KindEffect then Stray(e.offset)
    else if e.offset < from then Through(mid)
    else
      match apply(mid, e)
      case None => Diverged(e.offset)
      case Some(next) => Through(next)
  }

  lemma ReplayingSnoc<S>(apply: (S, Entry<Record>) -> Option<S>, from: nat, es: seq<Entry<Record>>, e: Entry<Record>, st: S)
    requires Replaying(apply, from, es, st).Through?
    ensures Replaying(apply, from, es + [e], st) == OneMore(apply, from, e, Replaying(apply, from, es, st).state)
  {
    assert (es + [e])[..|es|] == es;
  }

  lemma StopsHere<S>(apply: (S, Entry<Record>) -> Option<S>, from: nat, es: seq<Entry<Record>>, e: Entry<Record>,
                     rest: seq<Entry<Record>>, st: S)
    requires Replaying(apply, from, es, st).Through?
    requires !OneMore(apply, from, e, Replaying(apply, from, es, st).state).Through?
    ensures Replaying(apply, from, es + [e] + rest, st) == OneMore(apply, from, e, Replaying(apply, from, es, st).state)
  {
    ReplayingSnoc(apply, from, es, e, st);
    var all := es + [e] + rest;
    assert all[..|es| + 1] == es + [e];
    StoppedStays(apply, from, all, |es| + 1, st);
  }

  /** replaySegment's loop over the reader. */
  method ApplyAll<S>(r: LogReader, from: nat, apply: (S, Entry<Record>) -> Option<S>, st: S)
    returns (went: Went<S>, records: nat, skipped: nat)
    requires r.Valid() && r.damage == None
    modifies r
    ensures var l := ReadAll(r.read, old(r.left), old(r.off));
            && went == Replaying(apply, from, l.entries, st)
            && (went.Through? ==>
                  && records == |Since(l.entries, from)| && records + skipped == |l.entries| && r.off == l.end
                  && (r.damage == if l.stop == End then None else Some(l.stop)))
  {
    var cur := st;
    records, skipped := 0, 0;
    ghost var done: seq<Entry<Record>> := [];
    ghost var l := Onto([], r.read, r.left, r.off);
    assert l == ReadAll(r.read, r.left, r.off);
    while true
      invariant r.damage == None && Onto(done, r.read, r.left, r.off) == l
      invariant Replaying(apply, from, done, st) == Through(cur)
      invariant records == |Since(done, from)| && skipped + records == |done|
      decreases |r.left|
    {
      OntoMore(done, r.read, r.left, r.off);
      var got := r.Next();
      if got.None? {
        return Through(cur), records, skipped;
      }
      var rec := got.value;
      ReplayingSnoc(apply, from, done, rec, st);
      ghost var rest := ReadAll(r.read, r.left, r.off).entries;
      assert l.entries == done + [rec] + rest;
      if rec.record.kind != KindEffect {
        StopsHere(apply, from, done, rec, rest, st);
        return Stray(rec.offset), records, skipped;
      }
      SinceSnoc(done, rec, from);
      if rec.offset < from {
        skipped := skipped + 1;
      } else {
        var after := apply(cur, rec);
        if after.None? {
          StopsHere(apply, from, done, rec, rest, st);
          return Diverged(rec.offset), records, skipped;
        }
        cur := after.value;
        records := records + 1;
      }
      done := done + [rec];
    }
  }

  /** replaySegment: everything from `from` on is applied in order; a record that is not
      an effect or does not replay stops it; damage is fatal except in the last segment
      under the truncate policy, which cuts the file back to its last whole record. */
  method ReplaySegment<S>(crc: Crc, file: bytes, base: nat, from: nat, last: bool, refuse: bool,
                          apply: (S, Entry<Record>) -> Option<S>, st: S) returns (out: Outcome<S>)
    ensures var l := ReadAll(Reader(crc), file, base);
            var went := Replaying(apply, from, l.entries, st);
            match out
            case Replayed(state, records, skipped, end, damage, kept) =>
              && went == Through(state) && records == |Since(l.entries, from)| && skipped + records == |l.entries| && end == l.end
              && (l.stop == End ==> damage == None && kept == file)
              && (l.stop != End ==> last && !refuse && damage == Some(l.stop) && kept == file[..end - base])
            case Stopped(why) => why == went && !went.Through?
            case Fatal(why) => went.Through? && why == l.stop != End && (!last || refuse)
  {
    var r := new LogReader(crc, base, base, file, Reader(crc));
    var went, records, skipped := ApplyAll(r, from, apply, st);
    if !went.Through? {
      return Stopped(went);
    }
    if r.damage.None? {
      return Replayed(went.state, records, skipped, r.off, None, file);
    }
    if !last || refuse {
      return Fatal(r.damage.value);
    }
    return Replayed(went.state, records, skipped, r.off, r.damage, file[..r.off - base]);
  }
}
