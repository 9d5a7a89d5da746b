/** Files of records, over any reader and framing of single records that fit each
    other. */
module LogFile {
  import opened Seqs

  /** What one attempt to read a record gives. */
  datatype Reading<R> =
    | End
    | Torn
    | Corrupt
    | Undecodable
    | Got(record: R, size: nat)

  /** A record is decided by its own bytes. */
  ghost predicate LocalFor<B, R>(read: seq<B> -> Reading<R>, b: seq<B>, n: nat) {
    read(b).Got? && read(b).size <= n <= |b| ==> read(b[..n]) == read(b)
  }

  ghost predicate Local<B(!new), R>(read: seq<B> -> Reading<R>) {
    read([]) == End && forall b: seq<B>, n: nat :: LocalFor(read, b, n)
  }

  /** A frame is read whole whatever follows it, and torn wherever it is cut. */
  ghost predicate ReadsWith<B, R>(read: seq<B> -> Reading<R>, frame: seq<B>, r: R, rest: seq<B>) {
    read(frame + rest) == Got(r, |frame|)
  }

  ghost predicate TornAt<B, R>(read: seq<B> -> Reading<R>, frame: seq<B>, cut: nat) {
    0 < cut < |frame| ==> read(frame[..cut]) == Torn
  }

  ghost predicate Reads<B(!new), R>(read: seq<B> -> Reading<R>, write: R -> seq<B>, r: R) {
    && write(r) != []
    && (forall rest :: ReadsWith(read, write(r), r, rest))
    && (forall cut: nat :: TornAt(read, write(r), cut))
  }

  datatype Entry<R> = Entry(record: R, offset: nat, size: nat)

  /** What reading a stream of records gives: the records, how far they reach, and
      why it stopped. */
  datatype Log<R> = Log(entries: seq<Entry<R>>, end: nat, stop: Reading<R>)

  function Cons<R>(r: R, at: nat, size: nat, rest: Log<R>): Log<R> {
    Log([Entry(r, at, size)] + rest.entries, rest.end, rest.stop)
  }

  /** Reading until Next returns false, from stream offset `at`.  (A record that is
      read has bytes, and no more than there are.) */
  function ReadAll<B, R>(read: seq<B> -> Reading<R>, b: seq<B>, at: nat): (l: Log<R>)
    ensures at <= l.end <= at + |b|
    decreases |b|
  {
    var one := read(b);
    if one.Got? && 0 < one.size <= |b| then Cons(one.record, at, one.size, ReadAll(read, b[one.size..], at + one.size))
    else Log([], at, one)
  }

  function Encode<B, R>(write: R -> seq<B>, rs: seq<R>): seq<B> {
    if rs == [] then [] else write(rs[0]) + Encode(write, rs[1..])
  }

  /** The entries a stream of records should give. */
  function Entries<B, R>(write: R -> seq<B>, rs: seq<R>, at: nat): seq<Entry<R>> {
    if rs == [] then []
    else [Entry(rs[0], at, |write(rs[0])|)] + Entries(write, rs[1..], at + |write(rs[0])|)
  }

  /** How many whole records a prefix of the stream holds. */
  function Whole<B, R>(write: R -> seq<B>, rs: seq<R>, cut: nat): (k: nat)
    ensures k <= |rs|
  {
    if rs == [] || cut < |write(rs[0])| then 0 else 1 + Whole(write, rs[1..], cut - |write(rs[0])|)
  }

  lemma PrefixSplits<B, R>(write: R -> seq<B>, rs: seq<R>, k: nat, at: nat)
    requires 0 < k <= |rs|
    ensures Encode(write, rs[..k]) == write(rs[0]) + Encode(write, rs[1..][..k - 1])
    ensures Entries(write, rs[..k], at) ==
            [Entry(rs[0], at, |write(rs[0])|)] + Entries(write, rs[1..][..k - 1], at + |write(rs[0])|)
  {
    assert rs[..k][1..] == rs[1..][..k - 1];
  }

  /** The whole records end at or before the cut, and one more would not. */
  lemma {:induction false} WholeFits<B, R>(write: R -> seq<B>, rs: seq<R>, cut: nat)
    requires cut <= |Encode(write, rs)|
    ensures var k := Whole(write, rs, cut);
            |Encode(write, rs[..k])| <= cut && (k < |rs| ==> cut < |Encode(write, rs[..k + 1])|)
  {
    if rs != [] {
      var k := Whole(write, rs, cut);
      if cut < |write(rs[0])| {
        PrefixSplits(write, rs, 1, 0);
      } else {
        WholeFits(write, rs[1..], cut - |write(rs[0])|);
        PrefixSplits(write, rs, k, 0);
        if k < |rs| {
          PrefixSplits(write, rs, k + 1, 0);
        }
      }
    }
  }

  /** Reading a stream cut anywhere, record by record. */
  function CutLog<B, R>(write: R -> seq<B>, rs: seq<R>, cut: nat, at: nat): Log<R> {
    if rs == [] || cut < |write(rs[0])| then Log([], at, if cut == 0 then End else Torn)
    else Cons(rs[0], at, |write(rs[0])|, CutLog(write, rs[1..], cut - |write(rs[0])|, at + |write(rs[0])|))
  }

  /** In closed form: the whole records before the cut at their offsets, and a torn
      tail exactly when the cut is not on a boundary. */
  lemma {:induction false} CutLogIs<B, R>(write: R -> seq<B>, rs: seq<R>, cut: nat, at: nat)
    requires cut <= |Encode(write, rs)|
    ensures var k := Whole(write, rs, cut);
            var end := |Encode(write, rs[..k])|;
            CutLog(write, rs, cut, at) == Log(Entries(write, rs[..k], at), at + end, if cut == end then End else Torn)
  {
    if rs != [] && cut >= |write(rs[0])| {
      CutLogIs(write, rs[1..], cut - |write(rs[0])|, at + |write(rs[0])|);
      PrefixSplits(write, rs, Whole(write, rs, cut), at);
    }
  }

  lemma CutFirst<B(!new), R>(read: seq<B> -> Reading<R>, write: R -> seq<B>, r: R, cut: nat, at: nat)
    requires read([]) == End && Reads(read, write, r) && cut < |write(r)|
    ensures ReadAll(read, write(r)[..cut], at) == Log([], at, if cut == 0 then End else Torn)
  {
    assert TornAt(read, write(r), cut);
    assert cut == 0 ==> write(r)[..cut] == [];
  }

  /** The stream begins with a whole record. */
  lemma ReadCons<B(!new), R>(read: seq<B> -> Reading<R>, write: R -> seq<B>, r: R, tail: seq<B>, at: nat)
    requires Reads(read, write, r)
    ensures ReadAll(read, write(r) + tail, at) == Cons(r, at, |write(r)|, ReadAll(read, tail, at + |write(r)|))
  {
    assert ReadsWith(read, write(r), r, tail);
    assert (write(r) + tail)[|write(r)|..] == tail;
  }

  /** Torn-tail recovery, for every list of records and every cut. */
  lemma {:induction false} CutAnywhere<B(!new), R(!new)>(read: seq<B> -> Reading<R>, write: R -> seq<B>, rs: seq<R>, cut: nat, at: nat)
    requires read([]) == End && forall r | r in rs :: Reads(read, write, r)
    requires cut <= |Encode(write, rs)|
    ensures ReadAll(read, Encode(write, rs)[..cut], at) == CutLog(write, rs, cut, at)
  {
    if rs != [] {
      var f, rest := write(rs[0]), Encode(write, rs[1..]);
      CutAt(f, rest, cut);
      assert Reads(read, write, rs[0]);
      if cut < |f| {
        CutFirst(read, write, rs[0], cut, at);
      } else {
        var more := rest[..cut - |f|];
        assert Encode(write, rs)[..cut] == f + more;
        CutAnywhere(read, write, rs[1..], cut - |f|, at + |f|);
        ReadCons(read, write, rs[0], more, at);
      }
    }
  }

  lemma LocalAt<B(!new), R>(read: seq<B> -> Reading<R>, b: seq<B>, n: nat)
    requires Local(read) && read(b).Got? && read(b).size <= n <= |b|
    ensures read(b[..n]) == read(b) && b[..n][read(b).size..] == b[read(b).size..][..n - read(b).size]
  {
    assert LocalFor(read, b, n);
    assert b[..n][read(b).size..] == b[read(b).size..][..n - read(b).size];
  }

  /** Whatever a file holds, cutting it where the reader stopped leaves a clean file
      that reads the same. */
  lemma {:induction false} TruncateClean<B(!new), R>(read: seq<B> -> Reading<R>, b: seq<B>, at: nat)
    requires Local(read)
    ensures var l := ReadAll(read, b, at);
            ReadAll(read, b[..l.end - at], at) == Log(l.entries, l.end, End)
    decreases |b|
  {
    var one := read(b);
    if one.Got? && 0 < one.size <= |b| {
      LocalAt(read, b, ReadAll(read, b, at).end - at);
      TruncateClean(read, b[one.size..], at + one.size);
    } else {
      assert b[..0] == [];
    }
  }

  // ----------------------------------------------------------------- single records

  lemma {:induction false} EncodeSnoc<B, R>(write: R -> seq<B>, rs: seq<R>, r: R)
    ensures Encode(write, rs + [r]) == Encode(write, rs) + write(r)
  {
    if rs == [] {
      assert (rs + [r])[1..] == [];
    } else {
      EncodeSnoc(write, rs[1..], r);
      assert (rs + [r])[1..] == rs[1..] + [r];
    }
  }

  lemma EncodeNext<B, R>(write: R -> seq<B>, rs: seq<R>, j: nat)
    requires j < |rs|
    ensures |Encode(write, rs[..j + 1])| == |Encode(write, rs[..j])| + |write(rs[j])|
  {
    assert rs[..j + 1] == rs[..j] + [rs[j]];
    EncodeSnoc(write, rs[..j], rs[j]);
  }

  lemma {:induction false} EncodeMono<B, R>(write: R -> seq<B>, rs: seq<R>, j: nat, k: nat)
    requires j <= k <= |rs|
    ensures |Encode(write, rs[..j])| <= |Encode(write, rs[..k])|
  {
    if j < k {
      EncodeMono(write, rs, j, k - 1);
      EncodeNext(write, rs, k - 1);
    }
  }

  lemma {:induction false} EntryAt<B, R>(write: R -> seq<B>, rs: seq<R>, base: nat, j: nat)
    requires j < |rs|
    ensures |Entries(write, rs, base)| == |rs|
    ensures Entries(write, rs, base)[j] == Entry(rs[j], base + |Encode(write, rs[..j])|, |write(rs[j])|)
  {
    var rest, at := rs[1..], base + |write(rs[0])|;
    if |rs| > 1 {
      EntryAt(write, rest, at, if j == 0 then 0 else j - 1);
    }
    if j > 0 {
      PrefixSplits(write, rs, j, 0);
    }
  }

  /** A record that lies before the cut is among those read, at its offset. */
  lemma EntryRead<B, R>(write: R -> seq<B>, rs: seq<R>, cut: nat, base: nat, j: nat)
    requires j < |rs| && |Encode(write, rs[..j])| + |write(rs[j])| <= cut <= |Encode(write, rs)|
    ensures Entry(rs[j], base + |Encode(write, rs[..j])|, |write(rs[j])|)
            in Entries(write, rs[..Whole(write, rs, cut)], base)
  {
    var k := Whole(write, rs, cut);
    WholeFits(write, rs, cut);
    EncodeNext(write, rs, j);
    if k <= j {
      EncodeMono(write, rs, k + 1, j + 1);
    }
    EntryAt(write, rs[..k], base, j);
    assert rs[..k][..j] == rs[..j];
  }

  // -------------------------------------------------------------------- all together

  /** The reader and the framing fit each other on these records. */
  ghost predicate Fit<B(!new), R(!new)>(read: seq<B> -> Reading<R>, write: R -> seq<B>, rs: seq<R>) {
    Local(read) && forall r | r in rs :: Reads(read, write, r)
  }

  /** Torn-tail recovery: what reading a file cut anywhere gives, and what reading it
      gives once it has been truncated. */
  ghost predicate TornTail<B, R>(read: seq<B> -> Reading<R>, write: R -> seq<B>, rs: seq<R>, cut: nat, base: nat)
    requires cut <= |Encode(write, rs)|
  {
    var file, k := Encode(write, rs)[..cut], Whole(write, rs, cut);
    var end := |Encode(write, rs[..k])|;
    var whole := Entries(write, rs[..k], base);
    && end <= cut && (k < |rs| ==> cut < |Encode(write, rs[..k + 1])|)
    && ReadAll(read, file, base) == Log(whole, base + end, if cut == end then End else Torn)
    && ReadAll(read, file[..end], base) == Log(whole, base + end, End)
  }

  lemma TornTailHolds<B(!new), R(!new)>(read: seq<B> -> Reading<R>, write: R -> seq<B>, rs: seq<R>, cut: nat, base: nat)
    requires Fit(read, write, rs) && cut <= |Encode(write, rs)|
    ensures TornTail(read, write, rs, cut, base)
  {
    CutAnywhere(read, write, rs, cut, base);
    CutLogIs(write, rs, cut, base);
    WholeFits(write, rs, cut);
    TruncateClean(read, Encode(write, rs)[..cut], base);
  }

  /** What reading some prefix of the stream gives. */
  ghost predicate PrefixReads<B, R>(read: seq<B> -> Reading<R>, write: R -> seq<B>, rs: seq<R>, file: seq<B>, base: nat) {
    var l := ReadAll(read, file, base);
    && base <= l.end <= base + |file| && (l.stop == End || l.stop == Torn)
    && l.entries == Entries(write, rs[..Whole(write, rs, |file|)], base)
    && ReadAll(read, file[..l.end - base], base) == Log(l.entries, l.end, End)
  }

  lemma PrefixReadsHolds<B(!new), R(!new)>(read: seq<B> -> Reading<R>, write: R -> seq<B>, rs: seq<R>, file: seq<B>, base: nat)
    requires Fit(read, write, rs) && file <= Encode(write, rs)
    ensures PrefixReads(read, write, rs, file, base)
  {
    assert file == Encode(write, rs)[..|file|];
    TornTailHolds(read, write, rs, |file|, base);
  }

  /** Records in front of what a reader gives. */
  function Prepend<B, R>(write: R -> seq<B>, rs: seq<R>, at: nat, l: Log<R>): Log<R> {
    if rs == [] then l else Cons(rs[0], at, |write(rs[0])|, Prepend(write, rs[1..], at + |write(rs[0])|, l))
  }

  lemma {:induction false} PrependIs<B, R>(write: R -> seq<B>, rs: seq<R>, at: nat, l: Log<R>)
    ensures Prepend(write, rs, at, l) == Log(Entries(write, rs, at) + l.entries, l.end, l.stop)
  {
    if rs == [] {
      assert [] + l.entries == l.entries;
    } else {
      PrependIs(write, rs[1..], at + |write(rs[0])|, l);
      ConcatAssoc([Entry(rs[0], at, |write(rs[0])|)], Entries(write, rs[1..], at + |write(rs[0])|), l.entries);
    }
  }

  /** Good records, and then whatever there is. */
  lemma {:induction false} ReadsThen<B(!new), R(!new)>(read: seq<B> -> Reading<R>, write: R -> seq<B>, rs: seq<R>, tail: seq<B>, at: nat)
    requires forall r | r in rs :: Reads(read, write, r)
    ensures ReadAll(read, Encode(write, rs) + tail, at) == Prepend(write, rs, at, ReadAll(read, tail, at + |Encode(write, rs)|))
  {
    if rs == [] {
      assert Encode(write, rs) + tail == tail;
    } else {
      var f, rest := write(rs[0]), Encode(write, rs[1..]);
      ConcatAssoc(f, rest, tail);
      assert Encode(write, rs) + tail == f + (rest + tail);
      assert Reads(read, write, rs[0]);
      ReadCons(read, write, rs[0], rest + tail, at);
      ReadsThen(read, write, rs[1..], tail, at + |f|);
    }
  }

  /** Bytes no reader gets past hide everything behind them. */
  lemma BuriesBelow<B(!new), R(!new)>(read: seq<B> -> Reading<R>, write: R -> seq<B>, rs: seq<R>, tail: seq<B>, at: nat)
    requires Fit(read, write, rs) && !read(tail).Got?
    ensures ReadAll(read, Encode(write, rs) + tail, at) == Log(Entries(write, rs, at), at + |Encode(write, rs)|, read(tail))
  {
    ReadsThen(read, write, rs, tail, at);
    PrependIs(write, rs, at, ReadAll(read, tail, at + |Encode(write, rs)|));
    assert Entries(write, rs, at) + [] == Entries(write, rs, at);
  }
}
