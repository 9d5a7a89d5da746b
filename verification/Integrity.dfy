/** What the checksums are for (persist/reader.go Next, persist/record.go
    decodeFileHeader): bytes that do not match their checksum are never taken for data,
    whatever the checksum function is. */
module Integrity {
  import opened Options
  import opened Bytes
  import opened LogFile
  import opened Framing
  import opened Segment

  /** The bytes begin with a whole record that matches its checksum. */
  predicate Sealed(crc: Crc, b: bytes) {
    && |b| >= 12
    && |b| >= 12 + UnLE(b[..4])
    && UnLE(b[8..12]) == crc(b[..8] + b[12..12 + UnLE(b[..4])])
  }

  /** A whole record of admissible size that does not. */
  predicate Spoiled(crc: Crc, b: bytes) {
    |b| >= 12 && UnLE(b[..4]) <= 512 * 1024 * 1024 && |b| >= 12 + UnLE(b[..4]) && !Sealed(crc, b)
  }

  /** Whatever the bytes, a record is read only if it matches its checksum, and then it
      is what its header and payload say; one that does not match reads as corrupt. */
  lemma ReadOnlySealed(crc: Crc, b: bytes)
    ensures ReadOne(crc, b).Got? ==>
              && Sealed(crc, b) && ReadOne(crc, b).size == 12 + UnLE(b[..4])
              && ReadOne(crc, b).record.db == UnLE(b[4..6]) && ReadOne(crc, b).record.kind == UnLE(b[6..8])
              && Decode(b[12..ReadOne(crc, b).size]) == Some(ReadOne(crc, b).record.args)
    ensures Spoiled(crc, b) ==> ReadOne(crc, b) == Corrupt
    ensures |b| >= 12 && UnLE(b[..4]) > 512 * 1024 * 1024 ==> ReadOne(crc, b) == Corrupt
  {
  }

  lemma {:induction false} UnLEInjective(a: bytes, b: bytes)
    requires |a| == |b| && UnLE(a) == UnLE(b)
    ensures a == b
  {
    if a != [] {
      UnLEInjective(a[1..], b[1..]);
      assert a == [a[0]] + a[1..] && b == [b[0]] + b[1..];
    }
  }

  /** A frame with the same length field, and other bytes in it changed so that they no
      longer match: it is corrupt, whatever follows. */
  lemma AlteredFrame(crc: Crc, r: Record, altered: bytes, rest: bytes)
    requires Writable(r) && |altered| == |Frame(crc, r)| && altered[..4] == Frame(crc, r)[..4] && !Sealed(crc, altered)
    ensures Spoiled(crc, altered + rest) && ReadOne(crc, altered + rest) == Corrupt
  {
    var n, b := |Payload(r.args)|, altered + rest;
    FrameParts(crc, r, []);
    assert Frame(crc, r) + [] == Frame(crc, r);
    Widths();
    LERoundTrip(n, 4);
    assert b[..4] == altered[..4] && b[..8] == altered[..8] && b[8..12] == altered[8..12] && b[12..12 + n] == altered[12..12 + n];
    ReadOnlySealed(crc, b);
  }

  /** Changing nothing but the four checksum bytes is always noticed. */
  lemma ChecksumAltered(crc: Crc, r: Record, sum: bytes, rest: bytes)
    requires Writable(r) && |sum| == 4 && sum != Frame(crc, r)[8..12]
    ensures ReadOne(crc, Frame(crc, r)[..8] + sum + Frame(crc, r)[12..] + rest) == Corrupt
  {
    var f, n := Frame(crc, r), |Payload(r.args)|;
    var altered := f[..8] + sum + f[12..];
    FrameSealed(crc, r);
    assert altered[..4] == f[..4] && altered[..8] == f[..8] && altered[8..12] == sum && altered[12..12 + n] == f[12..12 + n];
    if UnLE(sum) == UnLE(f[8..12]) {
      UnLEInjective(sum, f[8..12]);
    }
    AlteredFrame(crc, r, altered, rest);
  }

  lemma FrameSealed(crc: Crc, r: Record)
    requires Writable(r)
    ensures Sealed(crc, Frame(crc, r)) && |Frame(crc, r)| == 12 + |Payload(r.args)| && UnLE(Frame(crc, r)[..4]) == |Payload(r.args)|
  {
    assert Frame(crc, r) + [] == Frame(crc, r);
    FrameRoundTrip(crc, r, []);
    ReadOnlySealed(crc, Frame(crc, r));
    FrameParts(crc, r, []);
    Widths();
    LERoundTrip(|Payload(r.args)|, 4);
  }

  /** Changing the database, the kind or the payload is noticed exactly when the checksum
      function tells the bytes apart. */
  lemma ContentAltered(crc: Crc, r: Record, head: bytes, payload: bytes, rest: bytes)
    requires Writable(r) && |head| == 4 && |payload| == |Payload(r.args)|
    requires crc(Frame(crc, r)[..4] + head + payload) != crc(Frame(crc, r)[..4] + Frame(crc, r)[4..8] + Payload(r.args))
    ensures ReadOne(crc, Frame(crc, r)[..4] + head + Frame(crc, r)[8..12] + payload + rest) == Corrupt
  {
    var f, n := Frame(crc, r), |payload|;
    var altered := f[..4] + head + f[8..12] + payload;
    FrameSealed(crc, r);
    FrameParts(crc, r, []);
    assert f + [] == f;
    assert f[..4] + f[4..8] == f[..8];
    assert altered[..4] == f[..4] && altered[..8] == f[..4] + head && altered[8..12] == f[8..12] && altered[12..12 + n] == payload;
    AlteredFrame(crc, r, altered, rest);
  }

  // ---------------------------------------------------------------------- whole files

  lemma {:induction false} EncodePrefix(crc: Crc, rs: seq<Record>, k: nat)
    requires k <= |rs|
    ensures Encode(Writer(crc), rs[..k]) <= Encode(Writer(crc), rs)
  {
    if k == 0 {
      assert rs[..0] == [];
    } else {
      EncodePrefix(crc, rs[1..], k - 1);
      assert rs[..k][1..] == rs[1..][..k - 1];
    }
  }

  /** Good records and then a spoiled one: the good ones are read, at their offsets, and
      then corruption is reported; nothing behind it is read. */
  lemma SpoiledAfter(crc: Crc, rs: seq<Record>, tail: bytes, base: nat)
    requires (forall r | r in rs :: Writable(r)) && Spoiled(crc, tail)
    ensures ReadAll(Reader(crc), Encode(Writer(crc), rs) + tail, base)
         == Log(Entries(Writer(crc), rs, base), base + |Encode(Writer(crc), rs)|, Corrupt)
  {
    ReadOnlySealed(crc, tail);
    WriterFits(crc, rs);
    BuriesBelow(Reader(crc), Writer(crc), rs, tail, base);
  }

  /** A log altered inside record k, its length field aside, so that the record no longer
      matches its checksum: whatever has become of the bytes behind it, the reader yields
      exactly the k records before it, at their offsets, and stops there with corruption. */
  lemma AlteredFile(crc: Crc, rs: seq<Record>, k: nat, altered: bytes, base: nat)
    requires k < |rs| && forall r | r in rs :: Writable(r)
    requires var before, n := Encode(Writer(crc), rs[..k]), |Frame(crc, rs[k])|;
             && |before| + n <= |altered| && altered[..|before|] <= Encode(Writer(crc), rs)
             && altered[|before|..][..4] == Frame(crc, rs[k])[..4] && !Sealed(crc, altered[|before|..][..n])
    ensures ReadAll(Reader(crc), altered, base)
         == Log(Entries(Writer(crc), rs[..k], base), base + |Encode(Writer(crc), rs[..k])|, Corrupt)
  {
    var before, n := Encode(Writer(crc), rs[..k]), |Frame(crc, rs[k])|;
    EncodePrefix(crc, rs, k);
    assert altered[..|before|] == before;
    var tail := altered[|before|..];
    assert tail == tail[..n] + tail[n..];
    assert tail[..n][..4] == tail[..4];
    AlteredFrame(crc, rs[k], tail[..n], tail[n..]);
    SpoiledAfter(crc, rs[..k], tail, base);
    assert altered == before + tail;
  }

  // ----------------------------------------------------------------------- the payload

  /** A decimal as the decoder takes it. */
  ghost predicate Spells(t: bytes, n: nat) {
    (forall k | 0 <= k < |t| :: t[k] != 13) && Atoi(t) == Some(n)
  }

  function LineOf(t: bytes, a: bytes): bytes {
    [36] + t + [13, 10] + a + [13, 10]
  }

  /** The elements of a payload, each behind the spelling of its length. */
  ghost function Lines(ts: seq<bytes>, args: seq<bytes>): bytes
    requires |ts| == |args|
  {
    if args == [] then [] else LineOf(ts[0], args[0]) + Lines(ts[1..], args[1..])
  }

  ghost predicate SpellsAll(ts: seq<bytes>, args: seq<bytes>) {
    |ts| == |args| && forall i | 0 <= i < |args| :: Spells(ts[i], |args[i]|)
  }

  /** The payload is an array of exactly these arguments, with nothing behind it. */
  ghost predicate Shape(p: bytes, t: bytes, ts: seq<bytes>, args: seq<bytes>) {
    SpellsAll(ts, args) && Spells(t, |args|) && p == [42] + t + [13, 10] + Lines(ts, args)
  }

  lemma {:induction false} LineShape(p: bytes, i: nat) returns (t: bytes)
    requires i <= |p| && (forall k | 0 <= k < i :: p[k] != 13) && LineFrom(p, i).Some?
    ensures var (v, rest) := LineFrom(p, i).value;
            p == t + [13, 10] + rest && (forall k | 0 <= k < |t| :: t[k] != 13) && Atoi(t) == Some(v)
    decreases |p| - i
  {
    if p[i] != CR {
      t := LineShape(p, i + 1);
    } else {
      t := p[..i];
      assert p == p[..i] + [p[i], p[i + 1]] + p[i + 2..];
    }
  }

  lemma LineRead(t: bytes, n: nat, rest: bytes)
    requires Spells(t, n)
    ensures ReadLine(t + [13, 10] + rest) == Some((n, rest))
  {
    var p := t + [13, 10] + rest;
    forall j | 0 <= j < |t| ensures p[j] != CR {
      assert p[j] == t[j];
    }
    LineSkips(p, 0, |t|);
    assert p[..|t|] == t && p[|t| + 2..] == rest;
  }

  lemma LineParts(t: bytes, a: bytes, more: bytes)
    ensures var p, rest := LineOf(t, a) + more, a + [13, 10] + more;
            && p != [] && p[0] == 36 && p[1..] == t + [13, 10] + rest
            && rest[..|a|] == a && rest[|a|] == 13 && rest[|a| + 1] == 10 && rest[|a| + 2..] == more
  {
  }

  /** An element that is read is written so. */
  lemma ElementShape(p: bytes) returns (t: bytes)
    requires p != [] && p[0] == 36 && ReadLine(p[1..]).Some?
    requires var (size, rest) := ReadLine(p[1..]).value;
             0 <= size && size + 2 <= |rest| && rest[size] == CR && rest[size + 1] == LF
    ensures var (size, rest) := ReadLine(p[1..]).value;
            Spells(t, size) && p == LineOf(t, rest[..size]) + rest[size + 2..]
  {
    var (size, rest) := ReadLine(p[1..]).value;
    t := LineShape(p[1..], 0);
    assert rest == rest[..size] + [13, 10] + rest[size + 2..];
    assert p == [36] + p[1..];
    assert [36] + (t + [13, 10] + (rest[..size] + [13, 10] + rest[size + 2..])) == LineOf(t, rest[..size]) + rest[size + 2..];
  }

  lemma SpellsCons(t: bytes, ts: seq<bytes>, a: bytes, args: seq<bytes>)
    ensures SpellsAll([t] + ts, [a] + args) <==> Spells(t, |a|) && SpellsAll(ts, args)
    ensures |ts| == |args| ==> Lines([t] + ts, [a] + args) == LineOf(t, a) + Lines(ts, args)
  {
    assert ([t] + ts)[1..] == ts && ([a] + args)[1..] == args;
    if SpellsAll([t] + ts, [a] + args) {
      forall i | 0 <= i < |args| ensures Spells(ts[i], |args[i]|) {
        assert Spells(([t] + ts)[i + 1], |([a] + args)[i + 1]|);
      }
      assert Spells(([t] + ts)[0], |([a] + args)[0]|);
    }
  }

  lemma {:induction false} ElementsShape(n: nat, p: bytes) returns (ts: seq<bytes>)
    requires Elements(n, p).Some?
    ensures var args := Elements(n, p).value; |args| == n && SpellsAll(ts, args) && p == Lines(ts, args)
    decreases n
  {
    ts := [];
    if n > 0 {
      var (size, rest) := ReadLine(p[1..]).value;
      var t := ElementShape(p);
      var later := ElementsShape(n - 1, rest[size + 2..]);
      SpellsCons(t, later, rest[..size], Elements(n - 1, rest[size + 2..]).value);
      ts := [t] + later;
    }
  }

  lemma {:induction false} ElementsRead(ts: seq<bytes>, args: seq<bytes>)
    requires SpellsAll(ts, args)
    ensures Elements(|args|, Lines(ts, args)) == Some(args) && |Lines(ts, args)| >= |args|
    decreases |args|
  {
    if args != [] {
      var t, a, more := ts[0], args[0], Lines(ts[1..], args[1..]);
      assert ts == [t] + ts[1..] && args == [a] + args[1..];
      SpellsCons(t, ts[1..], a, args[1..]);
      ElementsRead(ts[1..], args[1..]);
      LineParts(t, a, more);
      LineRead(t, |a|, a + [13, 10] + more);
    }
  }

  lemma ArrayShape(p: bytes) returns (t: bytes, ts: seq<bytes>)
    requires Decode(p).Some?
    ensures Shape(p, t, ts, Decode(p).value)
  {
    var (n, rest) := ReadLine(p[1..]).value;
    t := LineShape(p[1..], 0);
    ts := ElementsShape(n, rest);
    assert p == [42] + p[1..] && [42] + (t + [13, 10] + rest) == [42] + t + [13, 10] + rest;
  }

  lemma ArrayRead(p: bytes, t: bytes, ts: seq<bytes>, args: seq<bytes>)
    requires Shape(p, t, ts, args)
    ensures Decode(p) == Some(args)
  {
    assert p[1..] == t + [13, 10] + Lines(ts, args);
    LineRead(t, |args|, Lines(ts, args));
    ElementsRead(ts, args);
  }

  /** A payload is decoded to a list of arguments exactly when it is an array of them:
      every mark, length and line ending in place, and nothing left over. */
  lemma DecodeExact(p: bytes, args: seq<bytes>)
    ensures Decode(p) == Some(args) <==> exists t, ts :: Shape(p, t, ts, args)
  {
    if Decode(p) == Some(args) {
      var t, ts := ArrayShape(p);
    }
    if t, ts :| Shape(p, t, ts, args) {
      ArrayRead(p, t, ts, args);
    }
  }

  // ------------------------------------------------------------------ the file header

  /** A header is accepted only under its magic, in version 1, and if it matches its
      checksum; one that does not match is reported as corrupt. */
  lemma HeaderOnlySealed(crc: Crc, b: bytes, magic: bytes)
    ensures DecodeHeader(crc, b, magic).Decoded? ==>
              && |b| >= 32 && b[..8] == magic && UnLE(b[28..32]) == crc(b[..28])
              && DecodeHeader(crc, b, magic).header == Header(1, UnLE(b[10..12]), UnLE(b[12..20]), UnLE(b[20..28]))
    ensures |b| >= 32 && b[..8] == magic && UnLE(b[28..32]) != crc(b[..28]) ==>
              DecodeHeader(crc, b, magic) == Rejected(CorruptHeader)
  {
  }

  /** A header with its checksum bytes changed, or with others changed so that the
      checksum function tells them apart, does not open. */
  lemma HeaderAltered(crc: Crc, h: Header, magic: bytes, start: bytes, sum: bytes)
    requires Fits(h) && |magic| == 8 && |start| == 28 && |sum| == 4
    requires || (start == HeaderStart(h, magic) && sum != EncodeHeader(crc, h, magic)[28..32])
             || (sum == EncodeHeader(crc, h, magic)[28..32] && crc(start) != crc(HeaderStart(h, magic)))
    ensures DecodeHeader(crc, start + sum, magic).Rejected?
  {
    HeaderParts(crc, h, magic);
    Widths();
    LERoundTrip(crc(HeaderStart(h, magic)), 4);
    assert (start + sum)[..28] == start && (start + sum)[28..32] == sum;
    if UnLE(sum) == UnLE(LE(crc(HeaderStart(h, magic)), 4)) {
      UnLEInjective(sum, LE(crc(HeaderStart(h, magic)), 4));
    }
    HeaderOnlySealed(crc, start + sum, magic);
  }
}
