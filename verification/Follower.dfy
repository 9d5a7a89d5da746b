/** Following the log across rolls and prunes (persist/follow.go, persist/segments.go
    Append, wake, Appended, Roll, Prune, persist/reader.go OpenReaderAt), as one state
    machine.

    A follower knows a stream offset, and has one segment file open at a position in that
    file; what it returns comes from the file.  A file that has been unlinked stays
    readable through a handle that was opened before. */
module Follower {
  import opened Records
  import S = Stream
  import Seqs

  /** How a follower ended: `Gone` names the file that was to be opened. */
  datatype Failure = TooFarBehind | Gone(seg: nat) | LogClosed | Damage

  /** Where the follower stands in Next, read or seek. */
  datatype Phase =
    | Top
    | Reading(limit: nat)
    | Asking
    | Taking
    | Checking(channel: nat)
    | Asleep(channel: nat)
    | Seeking
    | Opening(seg: nat)
    | Ended(why: Failure)

  /** The log and one follower of it.  `log` are the records staged so far; the files
      hold the first `written` of them, followed by `torn` bytes of the next one, and the
      first `flushed` are acknowledged.  Segments before `first` are unlinked.  `channel`
      counts the wakeups sent, `owed` the appends that have been acknowledged and have
      not yet sent theirs.  The follower is at stream offset `off`, with file `seg` open
      `pos` bytes after its header; it began at record `begun`. */
  datatype State<A> = State(
    log: seq<Rec<A>>, flushed: nat, written: nat, torn: nat,
    segs: seq<S.Seg<A>>, first: nat, channel: nat, owed: nat, closed: bool,
    begun: nat, off: nat, seg: nat, pos: nat, phase: Phase, out: seq<Rec<A>>)

  datatype Event<A> =
    | Stage(r: Rec<A>)
    | Write(upto: nat, torn: nat)
    | Flush(upto: nat, appends: nat)
    | Wake
    | Roll
    | Prune(first: nat)
    | Close
    | Look
    | Ask
    | Read
    | Take
    | Check
    | Rise
    | Seek
    | Open

  // ------------------------------------------------------------------------- the files

  /** Log.Offset: the stream offset after the last acknowledged record. */
  function Offset<A>(s: State<A>): nat
    requires s.flushed <= |s.log|
  {
    S.Off(s.log, s.flushed)
  }

  /** Log.Segments: a finished segment's end is recorded, the last one ends at what is
      acknowledged. */
  function EndOf<A>(s: State<A>, i: nat): nat
    requires s.flushed <= |s.log| && i < |s.segs|
  {
    if i + 1 < |s.segs| then S.EndOf(s.segs[i]) else Offset(s)
  }

  /** seek's loop: the first segment that does not end at or before the offset, or the
      last. */
  function SegmentFor<A>(s: State<A>, at: nat, i: nat): (j: nat)
    requires s.flushed <= |s.log| && i < |s.segs|
    ensures i <= j < |s.segs|
    decreases |s.segs| - i
  {
    if i + 1 < |s.segs| && at >= EndOf(s, i) then SegmentFor(s, at, i + 1) else i
  }

  /** What a file holds at a position: a whole record, its end, or the middle of one. */
  datatype Found<A> = Whole(r: Rec<A>) | End | Middle

  function IndexAt<A>(rs: seq<Rec<A>>, i: nat, pos: nat): (n: nat)
    requires i <= |rs|
    ensures i <= n <= |rs|
    decreases |rs| - i
  {
    if i == |rs| || S.Off(rs, i) >= pos then i else IndexAt(rs, i + 1, pos)
  }

  function ReadAt<A>(rs: seq<Rec<A>>, pos: nat): Found<A> {
    var n := IndexAt(rs, 0, pos);
    if S.Off(rs, n) != pos then Middle else if n == |rs| then End else Whole(rs[n])
  }

  lemma {:induction false} IndexAtIs<A>(rs: seq<Rec<A>>, i: nat, n: nat)
    requires i <= n <= |rs| && S.Sized(rs)
    ensures IndexAt(rs, i, S.Off(rs, n)) == n
    decreases n - i
  {
    S.OffMonotone(rs, i, n);
    if i < n {
      IndexAtIs(rs, i + 1, n);
    }
  }

  /** A position that is a boundary between records finds the record there. */
  lemma ReadAtIs<A>(rs: seq<Rec<A>>, n: nat)
    requires n <= |rs| && S.Sized(rs)
    ensures ReadAt(rs, S.Off(rs, n)) == if n == |rs| then End else Whole(rs[n])
  {
    IndexAtIs(rs, 0, n);
  }

  // ------------------------------------------------------------------------- the steps

  ghost predicate Begin<A>(s: State<A>) {
    && s.log == [] && s.out == [] && s.flushed == s.written == s.torn == s.off == s.pos == s.begun == s.seg == s.first == 0
    && s.segs == [S.Seg(0, [])] && s.channel == 0 && s.owed == 0 && !s.closed && s.phase == Top
  }

  /** Follow: a follower starts at a retained record, the one numbered `from`. */
  ghost predicate Follow<A>(s: State<A>, s': State<A>, from: nat) {
    && s.first < |s.segs| && from <= s.flushed <= |s.log|
    && var at := S.Off(s.log, from);
       var seg := SegmentFor(s, at, s.first);
       && s.segs[s.first].base <= at && s.segs[seg].base <= at
       && s' == s.(begun := from, off := at, out := [], phase := Top, seg := seg, pos := at - s.segs[seg].base)
  }

  predicate Enabled<A>(s: State<A>, e: Event<A>) {
    && s.flushed <= s.written <= |s.log| && s.first < |s.segs| && s.seg < |s.segs|
    && match e
       case Stage(r) => !s.closed && r.size > 0
       case Write(upto, torn) =>
         && s.written <= upto <= |s.log|
         && (torn == 0 || (upto < |s.log| && torn < s.log[upto].size))
       // Close waits for the appends under way and turns later ones down
       case Flush(upto, appends) => !s.closed && s.flushed < upto <= s.written && appends > 0
       case Wake => s.owed > 0
       case Roll => s.flushed == s.written == |s.log| && s.torn == 0
       case Prune(first) => s.first <= first < |s.segs|
       case Close => !s.closed
       case Look => s.phase == Top
       case Ask => s.phase == Asking
       case Read => s.phase.Reading?
       case Take => s.phase == Taking
       case Check => s.phase.Checking?
       case Rise => s.phase.Asleep? && s.phase.channel < s.channel
       case Seek => s.phase == Seeking
       case Open => s.phase.Opening? && s.phase.seg < |s.segs|
  }

  /** read: one record out of the open file, damage, or the end of the file. */
  function ReadOne<A>(s: State<A>, limit: nat): State<A>
    requires s.seg < |s.segs|
  {
    match ReadAt(s.segs[s.seg].records, s.pos)
    case Whole(r) =>
      s.(out := s.out + [r], pos := s.pos + r.size, off := s.segs[s.seg].base + s.pos + r.size, phase := Top)
    case End =>
      if s.torn > 0 && s.seg + 1 == |s.segs| then s.(phase := Ended(Damage))
      else s.(phase := if s.off < limit then Seeking else Top)
    case Middle => s.(phase := Ended(Damage))
  }

  /** OpenReaderAt: a file that begins later is refused, else the position is the offset
      less the file's base. */
  function OpenAt<A>(s: State<A>, seg: nat): State<A>
    requires seg < |s.segs|
  {
    if seg < s.first then s.(phase := Ended(Gone(seg)))
    else if s.off < s.segs[seg].base then s.(phase := Ended(TooFarBehind))
    else s.(seg := seg, pos := s.off - s.segs[seg].base, phase := Top)
  }

  function Next<A>(s: State<A>, e: Event<A>): State<A>
    requires Enabled(s, e)
  {
    match e
    case Stage(r) => s.(log := s.log + [r])
    case Write(upto, torn) => s.(segs := S.Grow(s.segs, s.log[s.written..upto]), written := upto, torn := torn)
    case Flush(upto, appends) => s.(flushed := upto, owed := s.owed + appends)
    case Wake => s.(owed := s.owed - 1, channel := s.channel + 1)
    case Roll => s.(segs := s.segs + [S.Seg(Offset(s), [])], channel := s.channel + 1)
    case Prune(first) => s.(first := first)
    case Close => s.(closed := true, channel := s.channel + 1)
    case Look =>
      s.(phase := if s.off < Offset(s) then Reading(Offset(s)) else Asking)
    case Ask => s.(phase := if s.closed then Ended(LogClosed) else Taking)
    case Read => ReadOne(s, s.phase.limit)
    case Take => s.(phase := Checking(s.channel))
    case Check => s.(phase := if Offset(s) > s.off then Top else Asleep(s.phase.channel))
    case Rise => s.(phase := Top)
    case Seek =>
      if s.off < s.segs[s.first].base then s.(phase := Ended(TooFarBehind))
      else s.(phase := Opening(SegmentFor(s, s.off, s.first)))
    case Open => OpenAt(s, s.phase.seg)
  }

  // ------------------------------------------------------------------- the invariant

  /** The files cut one stream of records. */
  ghost predicate LogInv<A>(s: State<A>) {
    && s.segs != [] && s.first < |s.segs| && S.Sized(s.log)
    && s.flushed <= s.written <= |s.log|
    && S.Holding(s.log, s.segs, 0, s.written)
    && s.segs[|s.segs| - 1].base <= Offset(s)
    && (s.torn > 0 ==> s.written < |s.log|)
  }

  /** The number of the record the follower is at. */
  function Count<A>(s: State<A>): nat {
    s.begun + |s.out|
  }

  /** A segment in which the offset lies, or at whose end it is. */
  ghost predicate Within<A>(s: State<A>, seg: nat) {
    && seg < |s.segs| && s.segs[seg].base <= s.off
    && (seg + 1 < |s.segs| ==> s.off <= S.EndOf(s.segs[seg]))
  }

  /** What has been returned is exactly the records from the beginning to here, and the
      reader stands in the file where the offset is. */
  ghost predicate FollowInv<A>(s: State<A>) {
    && Count(s) <= s.flushed <= |s.log|
    && s.out == s.log[s.begun..Count(s)]
    && s.off == S.Off(s.log, Count(s))
    && Within(s, s.seg) && s.pos == s.off - s.segs[s.seg].base
  }

  ghost predicate PhaseInv<A>(s: State<A>)
    requires s.flushed <= |s.log|
  {
    match s.phase
    case Reading(limit) => s.off < limit <= Offset(s)
    case Seeking => s.off < Offset(s)
    case Opening(seg) => Within(s, seg) && s.off < EndOf(s, seg)
    case Checking(channel) => channel <= s.channel
    case Asleep(channel) => channel <= s.channel && (Offset(s) > s.off && channel == s.channel ==> s.owed > 0)
    case Ended(why) => why != Damage
    case _ => true
  }

  /** The next record lies before the oldest retained file. */
  predicate Pruned<A>(s: State<A>) {
    s.first < |s.segs| && s.off < s.segs[s.first].base
  }

  /** A follower has not ended without its reason. */
  ghost predicate EndInv<A>(s: State<A>) {
    match s.phase
    case Ended(TooFarBehind) => Pruned(s)
    case Ended(Gone(seg)) => Pruned(s) && seg < s.first && Within(s, seg)
    case Ended(LogClosed) => s.closed
    case _ => true
  }

  ghost predicate CoreInv<A>(s: State<A>) {
    LogInv(s) && FollowInv(s) && PhaseInv(s)
  }

  ghost predicate Inv<A>(s: State<A>) {
    CoreInv(s) && EndInv(s)
  }

  /** Later files begin later. */
  lemma {:induction false} Ascending<A>(s: State<A>, i: nat, j: nat)
    requires LogInv(s) && i <= j < |s.segs|
    ensures s.segs[i].base <= s.segs[j].base
    ensures i < j ==> S.EndOf(s.segs[i]) <= s.segs[j].base
  {
    S.HoldingBounds(s.log, s.segs, 0, s.written);
    if i < j {
      Ascending(s, i, j - 1);
      var before := j - 1;
      assert s.segs[before + 1].base == S.EndOf(s.segs[before]);
    }
  }

  lemma StillPruned<A>(s: State<A>, first: nat)
    requires LogInv(s) && EndInv(s) && s.first <= first < |s.segs|
    ensures EndInv(s.(first := first))
  {
    Ascending(s, s.first, first);
  }

  lemma GoneRight<A>(s: State<A>, seg: nat)
    requires LogInv(s) && Within(s, seg) && s.off < EndOf(s, seg) && s.phase == Opening(seg)
    ensures EndInv(OpenAt(s, seg))
  {
    if seg < s.first {
      Ascending(s, seg, s.first);
    }
  }

  /** A follower ends for a reason, and the reason stays true. */
  lemma EndsRight<A>(s: State<A>, e: Event<A>)
    requires Inv(s) && Enabled(s, e) && !e.Write? && !e.Roll?
    ensures EndInv(Next(s, e))
  {
    match e
    case Prune(first) => StillPruned(s, first);
    case Open => GoneRight(s, s.phase.seg);
    case Read => ReadsNext(s);
    case _ =>
  }

  /** The files only grow. */
  lemma FilesGrow<A>(s: State<A>, e: Event<A>)
    requires Inv(s) && Enabled(s, e) && (e.Write? || e.Roll?) && LogInv(Next(s, e))
    ensures EndInv(Next(s, e))
  {
    var s' := Next(s, e);
    assert forall i | 0 <= i < |s.segs| :: s'.segs[i].base == s.segs[i].base;
    if s.phase.Ended? && s.phase.why.Gone? {
      var seg := s.phase.why.seg;
      assert s'.segs[seg] == s.segs[seg];
    }
  }

  /** Where record n is in file k, given that its offset lies within it: the file is
      log[a..]. */
  lemma StandsIn<A>(log: seq<Rec<A>>, segs: seq<S.Seg<A>>, hi: nat, k: nat, n: nat) returns (a: nat)
    requires S.Holding(log, segs, 0, hi) && S.Sized(log) && k < |segs| && n <= hi <= |log|
    requires segs[k].base <= S.Off(log, n) && (k + 1 < |segs| ==> S.Off(log, n) <= S.EndOf(segs[k]))
    ensures var b := a + |segs[k].records|;
            && a <= n <= b <= hi && segs[k].records == log[a..b] && segs[k].base == S.Off(log, a)
            && S.EndOf(segs[k]) == S.Off(log, b) && (k + 1 == |segs| ==> b == hi)
  {
    a := S.HoldingAt(log, segs, 0, hi, k);
    S.OffBelow(log, a, n);
    S.OffBelow(log, n, a + |segs[k].records|);
  }

  /** The position in a file that begins with record a. */
  lemma PosIn<A>(log: seq<Rec<A>>, a: nat, b: nat, n: nat)
    requires a <= n <= b <= |log|
    ensures S.Off(log, n) - S.Off(log, a) == S.Off(log[a..b], n - a)
  {
    S.OffSlice(log, a, b, n - a);
  }

  /** Where the reader stands among the records of its file, which is log[a..]. */
  lemma Stands<A>(s: State<A>) returns (a: nat)
    requires LogInv(s) && FollowInv(s)
    ensures var n, rs := Count(s), s.segs[s.seg].records;
            var b := a + |rs|;
            && a <= n <= b <= s.written && rs == s.log[a..b]
            && s.pos == S.Off(rs, n - a) && S.EndOf(s.segs[s.seg]) == S.Off(s.log, b)
            && (s.seg + 1 == |s.segs| ==> b == s.written)
  {
    a := StandsIn(s.log, s.segs, s.written, s.seg, Count(s));
    PosIn(s.log, a, a + |s.segs[s.seg].records|, Count(s));
  }

  lemma SliceRead<A>(log: seq<Rec<A>>, a: nat, b: nat, n: nat)
    requires S.Sized(log) && a <= n <= b <= |log|
    ensures ReadAt(log[a..b], S.Off(log[a..b], n - a)) == if n < b then Whole(log[n]) else End
  {
    ReadAtIs(log[a..b], n - a);
  }

  /** Reading the file log[a..b] at the offset of record n. */
  lemma ReadsSlice<A>(log: seq<Rec<A>>, a: nat, b: nat, n: nat, pos: nat)
    requires S.Sized(log) && a <= n <= b <= |log| && pos == S.Off(log[a..b], n - a)
    ensures ReadAt(log[a..b], pos) == if n < b then Whole(log[n]) else End
    ensures S.Off(log, n) < S.Off(log, b) <==> n < b
    ensures n < b ==> S.Off(log, n) + log[n].size == S.Off(log, n + 1) <= S.Off(log, b)
  {
    SliceRead(log, a, b, n);
    S.OffBelow(log, n, b);
    if n < b {
      S.OffBelow(log, n + 1, b);
    }
  }

  /** The record a follower reads from its file is the log's next one; at the end of the
      file there is none, and in the last file the follower has then read all of it. */
  ghost predicate ReadsRight<A>(s: State<A>)
    requires s.seg < |s.segs|
  {
    var n := Count(s);
    var got := ReadAt(s.segs[s.seg].records, s.pos);
    && (s.off < S.EndOf(s.segs[s.seg]) <==> got.Whole?) && (got.Whole? || got.End?)
    && (got.Whole? ==>
          && n < |s.log| && got.r == s.log[n] && s.off + s.log[n].size == S.Off(s.log, n + 1)
          && s.off + s.log[n].size <= S.EndOf(s.segs[s.seg]))
    && (got.End? && s.seg + 1 == |s.segs| ==> n == s.written)
  }

  lemma ReadsNext<A>(s: State<A>)
    requires LogInv(s) && FollowInv(s)
    ensures ReadsRight(s)
  {
    var a := Stands(s);
    ReadsSlice(s.log, a, a + |s.segs[s.seg].records|, Count(s), s.pos);
  }

  lemma {:induction false} SegmentForIs<A>(s: State<A>, at: nat, i: nat)
    requires LogInv(s) && i < |s.segs| && s.segs[i].base <= at <= Offset(s)
    ensures var j := SegmentFor(s, at, i);
            && s.segs[j].base <= at && (j + 1 < |s.segs| ==> at <= S.EndOf(s.segs[j]))
            && (at < Offset(s) ==> at < EndOf(s, j))
    decreases |s.segs| - i
  {
    if i + 1 < |s.segs| && at >= EndOf(s, i) {
      S.HoldingBounds(s.log, s.segs, 0, s.written);
      assert s.segs[i + 1].base == S.EndOf(s.segs[i]);
      SegmentForIs(s, at, i + 1);
    }
  }

  lemma BeginInv<A>(s: State<A>)
    requires Begin(s)
    ensures Inv(s)
  {
    assert s.segs[1..] == [];
  }

  lemma StartInv<A>(s: State<A>, s': State<A>, from: nat)
    requires LogInv(s) && Follow(s, s', from)
    ensures Inv(s')
  {
    S.OffBelow(s.log, from, s.flushed);
    SegmentForIs(s, S.Off(s.log, from), s.first);
  }

  lemma StageInv<A>(s: State<A>, r: Rec<A>)
    requires CoreInv(s) && Enabled(s, Stage(r))
    ensures CoreInv(Next(s, Stage(r)))
  {
    var s' := Next(s, Stage(r));
    S.HoldingGrows(s.log, [r], s.segs, 0, s.written);
    S.OffPrefix(s.log, [r], s.flushed);
    S.OffPrefix(s.log, [r], Count(s));
    assert s'.log[s.begun..Count(s)] == s.log[s.begun..Count(s)];
    assert Offset(s') == Offset(s) && S.Sized(s'.log);
  }

  lemma WriteFollow<A>(s: State<A>, upto: nat, torn: nat)
    requires FollowInv(s) && PhaseInv(s) && Enabled(s, Write(upto, torn))
    ensures FollowInv(Next(s, Write(upto, torn))) && PhaseInv(Next(s, Write(upto, torn)))
  {
    var segs := S.Grow(s.segs, s.log[s.written..upto]);
    assert |segs| == |s.segs| && forall i | 0 <= i < |segs| :: segs[i].base == s.segs[i].base;
    assert forall i | 0 <= i < |segs| - 1 :: segs[i] == s.segs[i];
  }

  lemma WriteLog<A>(s: State<A>, upto: nat, torn: nat)
    requires LogInv(s) && Enabled(s, Write(upto, torn))
    ensures LogInv(Next(s, Write(upto, torn)))
  {
    var s' := Next(s, Write(upto, torn));
    S.HoldingWrites(s.log, s.segs, 0, s.written, upto);
    assert s'.segs[|s'.segs| - 1].base == s.segs[|s.segs| - 1].base;
  }

  lemma WriteInv<A>(s: State<A>, upto: nat, torn: nat)
    requires CoreInv(s) && Enabled(s, Write(upto, torn))
    ensures CoreInv(Next(s, Write(upto, torn)))
  {
    WriteLog(s, upto, torn);
    WriteFollow(s, upto, torn);
  }

  lemma FlushLog<A>(s: State<A>, upto: nat, appends: nat)
    requires LogInv(s) && Enabled(s, Flush(upto, appends))
    ensures LogInv(Next(s, Flush(upto, appends)))
  {
    S.OffMonotone(s.log, s.flushed, upto);
  }

  lemma FlushFollow<A>(s: State<A>, upto: nat, appends: nat)
    requires FollowInv(s) && PhaseInv(s) && S.Sized(s.log) && Enabled(s, Flush(upto, appends))
    ensures FollowInv(Next(s, Flush(upto, appends))) && PhaseInv(Next(s, Flush(upto, appends)))
  {
    S.OffMonotone(s.log, s.flushed, upto);
  }

  lemma RollLog<A>(s: State<A>)
    requires LogInv(s) && Enabled(s, Roll)
    ensures LogInv(Next(s, Roll)) && S.EndOf(s.segs[|s.segs| - 1]) == Offset(s)
  {
    S.HoldingBounds(s.log, s.segs, 0, s.written);
    S.HoldingRolls(s.log, s.segs, 0, s.written);
  }

  /** A segment is rolled with everything in it acknowledged, so it ends where the next
      one begins. */
  lemma RollFollow<A>(s: State<A>)
    requires FollowInv(s) && PhaseInv(s) && S.Sized(s.log) && Enabled(s, Roll) && S.EndOf(s.segs[|s.segs| - 1]) == Offset(s)
    ensures FollowInv(Next(s, Roll)) && PhaseInv(Next(s, Roll))
  {
    S.OffBelow(s.log, Count(s), s.flushed);
  }

  /** A read below the acknowledged offset is the log's next record, or the end of a
      segment that was rolled; never a torn one. */
  lemma ReadFollow<A>(s: State<A>)
    requires FollowInv(s) && PhaseInv(s) && S.Sized(s.log) && ReadsRight(s) && Enabled(s, Read)
    ensures FollowInv(Next(s, Read)) && PhaseInv(Next(s, Read))
  {
    var n := Count(s);
    S.OffBelow(s.log, n, s.flushed);
    if n < |s.log| {
      assert s.log[s.begun..n + 1] == s.log[s.begun..n] + [s.log[n]];
    }
  }

  lemma SeekPhase<A>(s: State<A>)
    requires LogInv(s) && s.off < Offset(s) && Enabled(s, Seek)
    ensures PhaseInv(Next(s, Seek))
  {
    if s.segs[s.first].base <= s.off {
      SegmentForIs(s, s.off, s.first);
    }
  }

  /** Steps that touch neither the records nor the files. */
  lemma SameLog<A>(s: State<A>, s': State<A>)
    requires LogInv(s) && s'.first < |s'.segs| && s'.torn == s.torn
    requires s'.log == s.log && s'.flushed == s.flushed && s'.written == s.written && s'.segs == s.segs
    ensures LogInv(s')
  {
  }

  lemma SameFollow<A>(s: State<A>, s': State<A>)
    requires FollowInv(s) && s'.log == s.log && s'.flushed == s.flushed && s'.segs == s.segs
    requires s'.begun == s.begun && s'.out == s.out && s'.off == s.off && s'.seg == s.seg && s'.pos == s.pos
    ensures FollowInv(s') && Offset(s') == Offset(s)
  {
  }

  predicate Looks<A>(e: Event<A>) {
    e.Look? || e.Ask? || e.Take? || e.Check? || e.Rise? || e.Wake? || e.Prune? || e.Close?
  }

  /** Steps that only look at the log, wake, prune or close. */
  lemma LookFollow<A>(s: State<A>, e: Event<A>)
    requires FollowInv(s) && PhaseInv(s) && Enabled(s, e) && Looks(e)
    ensures FollowInv(Next(s, e)) && PhaseInv(Next(s, e))
  {
    SameFollow(s, Next(s, e));
  }

  lemma OpenFollow<A>(s: State<A>)
    requires FollowInv(s) && PhaseInv(s) && Enabled(s, Open)
    ensures FollowInv(Next(s, Open)) && PhaseInv(Next(s, Open))
  {
  }

  lemma LogEventInv<A>(s: State<A>, e: Event<A>)
    requires CoreInv(s) && Enabled(s, e) && (e.Flush? || e.Roll?)
    ensures CoreInv(Next(s, e))
  {
    match e
    case Flush(upto, appends) =>
      FlushLog(s, upto, appends);
      FlushFollow(s, upto, appends);
    case Roll =>
      RollLog(s);
      RollFollow(s);
  }

  lemma ReadInv<A>(s: State<A>)
    requires CoreInv(s) && Enabled(s, Read)
    ensures CoreInv(Next(s, Read))
  {
    SameLog(s, Next(s, Read));
    ReadsNext(s);
    ReadFollow(s);
  }

  lemma SeekInv<A>(s: State<A>)
    requires CoreInv(s) && Enabled(s, Seek)
    ensures CoreInv(Next(s, Seek))
  {
    SameLog(s, Next(s, Seek));
    SeekPhase(s);
    SameFollow(s, Next(s, Seek));
  }

  lemma OpenInv<A>(s: State<A>)
    requires CoreInv(s) && Enabled(s, Open)
    ensures CoreInv(Next(s, Open))
  {
    SameLog(s, Next(s, Open));
    OpenFollow(s);
  }

  lemma LookInv<A>(s: State<A>, e: Event<A>)
    requires CoreInv(s) && Enabled(s, e) && Looks(e)
    ensures CoreInv(Next(s, e))
  {
    SameLog(s, Next(s, e));
    LookFollow(s, e);
  }

  lemma NextCore<A>(s: State<A>, e: Event<A>)
    requires CoreInv(s) && Enabled(s, e)
    ensures CoreInv(Next(s, e))
  {
    match e
    case Stage(r) => StageInv(s, r);
    case Write(upto, torn) => WriteInv(s, upto, torn);
    case Flush(_, _) => LogEventInv(s, e);
    case Roll => LogEventInv(s, e);
    case Read => ReadInv(s);
    case Seek => SeekInv(s);
    case Open => OpenInv(s);
    case _ => LookInv(s, e);
  }

  lemma NextInv<A>(s: State<A>, e: Event<A>)
    requires Inv(s) && Enabled(s, e)
    ensures Inv(Next(s, e))
  {
    NextCore(s, e);
    if e.Write? || e.Roll? {
      FilesGrow(s, e);
    } else {
      EndsRight(s, e);
    }
  }

  // --------------------------------------------------------------------- whole runs

  /** A log as it is, then a follower started at a retained record, then any events of
      both. */
  ghost predicate Run<A(!new)>(before: State<A>, from: nat, states: seq<State<A>>, events: seq<Event<A>>) {
    && |states| == |events| + 1
    && LogInv(before) && Follow(before, states[0], from)
    && Steps(states, events)
  }

  ghost predicate Steps<A(!new)>(states: seq<State<A>>, events: seq<Event<A>>)
    requires |states| == |events| + 1
  {
    forall i | 0 <= i < |events| :: StepAt(states, events, i)
  }

  ghost predicate StepAt<A(!new)>(states: seq<State<A>>, events: seq<Event<A>>, i: nat)
    requires |states| == |events| + 1 && i < |events|
  {
    Enabled(states[i], events[i]) && states[i + 1] == Next(states[i], events[i])
  }

  lemma {:induction false} StepsInv<A(!new)>(states: seq<State<A>>, events: seq<Event<A>>, i: nat)
    requires |states| == |events| + 1 && Steps(states, events) && Inv(states[0]) && i < |states|
    ensures Inv(states[i])
  {
    if i > 0 {
      StepsInv(states, events, i - 1);
      assert StepAt(states, events, i - 1);
      NextInv(states[i - 1], events[i - 1]);
    }
  }

  lemma RunInv<A(!new)>(before: State<A>, from: nat, states: seq<State<A>>, events: seq<Event<A>>, i: nat)
    requires Run(before, from, states, events) && i < |states|
    ensures Inv(states[i])
  {
    StartInv(before, states[0], from);
    StepsInv(states, events, i);
  }

  /** The follower has returned exactly the log's records from where it began: no gap,
      no repeat, nothing that was not acknowledged; its offset is where the next one
      starts; and it never takes a record that is being written for damage. */
  lemma FollowsExactly<A(!new)>(before: State<A>, from: nat, states: seq<State<A>>, events: seq<Event<A>>, i: nat)
    requires Run(before, from, states, events) && i < |states|
    ensures var s := states[i];
            && Count(s) <= s.flushed <= |s.log|
            && s.out == s.log[s.begun..Count(s)]
            && s.off == S.Off(s.log, Count(s))
            && s.phase != Ended(Damage)
  {
    RunInv(before, from, states, events, i);
  }

  /** No wakeup is lost: a follower asleep with a record past its position can rise, or
      an append still owes it the wakeup that lets it. */
  lemma NoLostWakeup<A(!new)>(before: State<A>, from: nat, states: seq<State<A>>, events: seq<Event<A>>, i: nat)
    requires Run(before, from, states, events) && i < |states|
    requires states[i].phase.Asleep? && Count(states[i]) < states[i].flushed
    ensures var s := states[i];
            Enabled(s, Rise) || (Enabled(s, Wake) && Enabled(Next(s, Wake), Rise))
  {
    RunInv(before, from, states, events, i);
    S.OffBelow(states[i].log, Count(states[i]), states[i].flushed);
  }

  // ----------------------------------------------------------------------- progress

  /** How many of its own steps the follower is from the next record. */
  ghost function Distance<A>(s: State<A>): nat
    requires s.seg < |s.segs|
  {
    var far := if s.off < S.EndOf(s.segs[s.seg]) then 0 else 4;
    match s.phase
    case Reading(_) => 1 + far
    case Top => 2 + far
    case Opening(_) => 3
    case Seeking => 4
    case Checking(_) => 3 + far
    case Taking => 4 + far
    case Asking => 5 + far
    case Asleep(_) => 3 + far
    case Ended(_) => 0
  }

  predicate Own<A>(e: Event<A>) {
    e.Look? || e.Ask? || e.Read? || e.Take? || e.Check? || e.Rise? || e.Seek? || e.Open?
  }

  /** It has a record to read, and has not given up. */
  ghost predicate Behind<A>(s: State<A>) {
    Inv(s) && Count(s) < s.flushed && !s.phase.Ended?
  }

  /** It has been told that its next record is pruned, and that is so. */
  predicate Lost<A>(s: State<A>) {
    Pruned(s) && s.phase.Ended? && (s.phase.why.TooFarBehind? || s.phase.why.Gone?)
  }

  /** It had seen the log's end, asked whether the log was closed, and was told so; the
      record came in between. */
  predicate Missed<A>(s: State<A>, s': State<A>) {
    s.phase == Asking && s'.closed && s'.phase == Ended(LogClosed)
  }

  /** One step has brought the next record, its loss, or the follower nearer to it. */
  ghost predicate Moved<A>(s: State<A>, s': State<A>)
    requires Count(s) < |s.log| && s.seg < |s.segs|
  {
    || s'.out == s.out + [s.log[Count(s)]]
    || Lost(s') || Missed(s, s')
    || (s'.seg < |s'.segs| && s'.out == s.out && s'.begun == s.begun && s'.flushed == s.flushed
        && !s'.phase.Ended? && s'.phase != Asking && Distance(s') < Distance(s))
  }

  lemma MovedRead<A>(s: State<A>)
    requires FollowInv(s) && PhaseInv(s) && ReadsRight(s) && S.Sized(s.log)
    requires Count(s) < s.flushed <= s.written && Enabled(s, Read)
    ensures Moved(s, Next(s, Read))
  {
  }

  lemma MovedElse<A>(s: State<A>, e: Event<A>)
    requires FollowInv(s) && PhaseInv(s) && s.off < Offset(s) && Enabled(s, e) && Count(s) < |s.log|
    requires e.Look? || e.Ask? || e.Take? || e.Check? || e.Rise? || e.Seek?
    ensures Moved(s, Next(s, e))
  {
  }

  lemma MovedOpen<A>(s: State<A>, seg: nat)
    requires Enabled(s, Open) && s.phase == Opening(seg) && Count(s) < |s.log|
    requires s.segs[seg].base <= s.off < S.EndOf(s.segs[seg]) && (seg < s.first ==> Pruned(s))
    ensures Moved(s, Next(s, Open))
  {
  }

  /** With a record past its position, each step the follower takes returns that record,
      ends because it has been pruned or the log was closed while it asked, or brings it
      nearer. */
  lemma GetsNearer<A>(s: State<A>, e: Event<A>)
    requires Behind(s) && Own(e) && Enabled(s, e)
    ensures Moved(s, Next(s, e)) && Inv(Next(s, e))
  {
    NextInv(s, e);
    S.OffBelow(s.log, Count(s), s.flushed);
    if e.Read? {
      ReadsNext(s);
      MovedRead(s);
    } else if e.Open? {
      OpenedNear(s);
      if s.phase.seg < s.first {
        Ascending(s, s.phase.seg, s.first);
      }
      MovedOpen(s, s.phase.seg);
    } else {
      MovedElse(s, e);
    }
  }

  /** The file a seek chose holds the next record. */
  lemma OpenedNear<A>(s: State<A>)
    requires Inv(s) && s.phase.Opening?
    ensures s.phase.seg < |s.segs| && s.off < S.EndOf(s.segs[s.phase.seg])
  {
    var k := s.phase.seg;
    if k + 1 == |s.segs| {
      S.HoldingBounds(s.log, s.segs, 0, s.written);
      S.OffMonotone(s.log, s.flushed, s.written);
    }
  }

  /** Nothing the log does takes a follower further away. */
  lemma LogKeepsNear<A>(s: State<A>, e: Event<A>)
    requires Behind(s) && !Own(e) && Enabled(s, e)
    ensures var s' := Next(s, e); Behind(s') && s'.out == s.out && Distance(s') <= Distance(s)
  {
    NextInv(s, e);
    if e.Write? {
      S.HoldingWrites(s.log, s.segs, 0, s.written, e.upto);
      FileGrows(s, e.upto, e.torn);
    }
  }

  lemma FileGrows<A>(s: State<A>, upto: nat, torn: nat)
    requires Inv(s) && Enabled(s, Write(upto, torn))
    ensures S.EndOf(s.segs[s.seg]) <= S.EndOf(Next(s, Write(upto, torn)).segs[s.seg])
  {
    var s' := Next(s, Write(upto, torn));
    WriteInv(s, upto, torn);
    if s.seg + 1 == |s.segs| {
      S.HoldingBounds(s.log, s.segs, 0, s.written);
      S.HoldingBounds(s.log, s'.segs, 0, upto);
      S.OffMonotone(s.log, s.written, upto);
    }
  }

  function OwnSteps<A>(events: seq<Event<A>>): nat {
    if events == [] then 0 else OwnSteps(events[..|events| - 1]) + (if Own(events[|events| - 1]) then 1 else 0)
  }

  /** The record it was waiting for has been returned, or it has ended for a reason that
      holds. */
  ghost predicate Served<A>(s: State<A>, s': State<A>)
    requires Count(s) < |s.log|
  {
    s'.out == s.out + [s.log[Count(s)]] || Lost(s') || Missed(s, s')
  }

  /** Still on the way, with some of its steps used up. */
  ghost predicate OnTheWay<A>(s: State<A>, s': State<A>, used: nat)
    requires s.seg < |s.segs|
  {
    && s'.seg < |s'.segs| && Count(s') < s'.flushed && !s'.phase.Ended? && (s'.phase == Asking ==> s.phase == Asking)
    && s'.out == s.out && s'.begun == s.begun && s.log <= s'.log && used + Distance(s') <= Distance(s)
  }

  /** Records already staged never change. */
  lemma KeepsLog<A>(s: State<A>, e: Event<A>)
    requires Enabled(s, e)
    ensures s.log <= Next(s, e).log && Next(s, e).begun == s.begun
  {
  }

  lemma MovedOn<A>(s: State<A>, a: State<A>, a': State<A>, used: nat)
    requires s.seg < |s.segs| && Count(s) < |s.log| && OnTheWay(s, a, used) && a.flushed <= |a.log|
    requires Moved(a, a') && a.log <= a'.log && a'.begun == a.begun
    ensures Served(s, a') || OnTheWay(s, a', used + 1)
  {
    assert a.log[Count(s)] == s.log[Count(s)];
  }

  lemma OneNearer<A>(s: State<A>, a: State<A>, e: Event<A>, used: nat)
    requires s.seg < |s.segs| && Count(s) < |s.log| && Inv(a) && OnTheWay(s, a, used) && Enabled(a, e)
    ensures Served(s, Next(a, e)) || OnTheWay(s, Next(a, e), used + if Own(e) then 1 else 0)
  {
    KeepsLog(a, e);
    if Own(e) {
      GetsNearer(a, e);
      MovedOn(s, a, Next(a, e), used);
    } else {
      LogKeepsNear(a, e);
    }
  }

  /** Bounded progress under every interleaving: whatever the log does in between, a
      follower that is behind has returned the next record, or been told that it is pruned
      when it is, before it has taken more than nine steps of its own; only one that had
      already asked can be told instead that the log has been closed. */
  lemma {:induction false} SoonRead<A(!new)>(states: seq<State<A>>, events: seq<Event<A>>, n: nat)
    requires |states| == |events| + 1 && Steps(states, events) && Behind(states[0]) && n <= |events|
    ensures (exists i {:trigger states[i]} | 0 <= i <= n :: Served(states[0], states[i]))
         || OnTheWay(states[0], states[n], OwnSteps(events[..n]))
    ensures Distance(states[0]) <= 9
  {
    if n > 0 {
      SoonRead(states, events, n - 1);
      if OnTheWay(states[0], states[n - 1], OwnSteps(events[..n - 1])) {
        StepsInv(states, events, n - 1);
        assert StepAt(states, events, n - 1);
        OneNearer(states[0], states[n - 1], events[n - 1], OwnSteps(events[..n - 1]));
        assert events[..n][..n - 1] == events[..n - 1];
      }
    } else {
      assert events[..0] == [];
    }
  }

  /** A prune that leaves the file with the follower's next record, or with its end. */
  predicate Spares<A>(s: State<A>, e: Event<A>) {
    e.Prune? ==> e.first < |s.segs| && s.segs[e.first].base <= s.off
  }

  ghost predicate SparesAt<A>(states: seq<State<A>>, events: seq<Event<A>>, i: nat) {
    i < |events| && i < |states| && Spares(states[i], events[i])
  }

  lemma SparedRead<A>(s: State<A>)
    requires LogInv(s) && FollowInv(s) && Enabled(s, Read)
    ensures Next(s, Read).off >= s.off && Next(s, Read).segs == s.segs && Next(s, Read).first == s.first
  {
    ReadsNext(s);
  }

  lemma SparedStays<A>(s: State<A>, e: Event<A>)
    requires Inv(s) && Enabled(s, e) && Spares(s, e) && !Pruned(s)
    ensures !Pruned(Next(s, e))
  {
    if e.Read? {
      SparedRead(s);
    }
  }

  /** A follower is told that its record is gone only if a prune has removed the file with
      it; in particular never where nothing is pruned. */
  lemma NeverLost<A(!new)>(states: seq<State<A>>, events: seq<Event<A>>, n: nat)
    requires |states| == |events| + 1 && Steps(states, events) && Inv(states[0]) && !Pruned(states[0]) && n < |states|
    requires forall i | 0 <= i < n :: SparesAt(states, events, i)
    ensures Inv(states[n]) && !Pruned(states[n])
    ensures states[n].phase.Ended? ==> states[n].phase.why == LogClosed && states[n].closed
  {
    for i := 0 to n
      invariant Inv(states[i]) && !Pruned(states[i])
    {
      assert StepAt(states, events, i) && SparesAt(states, events, i);
      NextInv(states[i], events[i]);
      SparedStays(states[i], events[i]);
    }
  }

  /** So where no prune takes it away, a follower that is behind, and not just asking
      whether the log is closed, returns its next record within nine steps of its own. */
  lemma SoonReturned<A(!new)>(states: seq<State<A>>, events: seq<Event<A>>, n: nat) returns (i: nat)
    requires |states| == |events| + 1 && Steps(states, events) && Behind(states[0]) && n <= |events|
    requires states[0].phase != Asking && !Pruned(states[0]) && forall k | 0 <= k < n :: SparesAt(states, events, k)
    requires OwnSteps(events[..n]) > 9
    ensures i <= n && states[i].out == states[0].out + [states[0].log[Count(states[0])]]
  {
    SoonRead(states, events, n);
    i :| 0 <= i <= n && Served(states[0], states[i]);
    NeverLost(states, events, i);
  }

  // ------------------------------------------------------------------- why it ended

  /** The step that made a file too old to open is a prune past it. */
  lemma PrunedAt<A>(s: State<A>, e: Event<A>, seg: nat)
    requires Enabled(s, e) && s.first <= seg < Next(s, e).first
    ensures e.Prune? && seg < e.first
  {
  }

  /** The step in which a file is chosen is a seek, and the file is retained then. */
  lemma ChosenAt<A>(s: State<A>, e: Event<A>, seg: nat)
    requires Enabled(s, e) && s.phase != Opening(seg) && Next(s, e).phase == Opening(seg)
    ensures e == Seek && s.first <= seg && Next(s, e).first == s.first
  {
  }

  /** The step in which a file is found gone is the opening of it. */
  lemma GoneAt<A>(s: State<A>, e: Event<A>, seg: nat)
    requires Enabled(s, e) && s.phase != Ended(Gone(seg)) && Next(s, e).phase == Ended(Gone(seg))
    ensures e == Open && s.phase == Opening(seg) && seg < s.first
  {
  }

  /** A file is found gone only if it was pruned after the seek that chose it. */
  lemma GoneMeansPruned<A(!new)>(before: State<A>, from: nat, states: seq<State<A>>, events: seq<Event<A>>, j: nat)
    returns (sought: nat, pruned: nat)
    requires Run(before, from, states, events) && j < |states| && states[j].phase.Ended? && states[j].phase.why.Gone?
    ensures var seg := states[j].phase.why.seg;
            && sought < pruned < j && events[sought] == Seek && states[sought + 1].phase == Opening(seg)
            && states[sought].first <= seg && events[pruned].Prune? && seg < events[pruned].first
  {
    var seg := states[j].phase.why.seg;
    var found := Seqs.Entered(states, (x: State<A>) => x.phase == Ended(Gone(seg)), 0, j);
    assert StepAt(states, events, found);
    GoneAt(states[found], events[found], seg);
    sought := Seqs.Entered(states, (x: State<A>) => x.phase == Opening(seg), 0, found);
    assert StepAt(states, events, sought);
    ChosenAt(states[sought], events[sought], seg);
    pruned := Seqs.Entered(states, (x: State<A>) => x.first > seg, sought + 1, found);
    assert StepAt(states, events, pruned);
    PrunedAt(states[pruned], events[pruned], seg);
  }

  lemma ClosedAt<A>(s: State<A>, e: Event<A>)
    requires Enabled(s, e) && s.phase != Ended(LogClosed) && Next(s, e).phase == Ended(LogClosed)
    ensures e == Ask && s.phase == Asking && s.closed && Next(s, e).out == s.out
  {
  }

  lemma LookedAt<A>(s: State<A>, e: Event<A>)
    requires Enabled(s, e) && s.phase != Asking && Next(s, e).phase == Asking
    ensures e == Look && s.off >= Offset(s) && Next(s, e).out == s.out
  {
  }

  predicate Waits<A>(s: State<A>) {
    s.phase == Asking || s.phase == Ended(LogClosed)
  }

  /** While it asks, and after, it returns nothing; the log may go on. */
  lemma RestsWhile<A>(s: State<A>, e: Event<A>)
    requires Enabled(s, e) && (Waits(s) || e == Look)
    ensures Count(Next(s, e)) == Count(s)
    ensures s.flushed <= Next(s, e).flushed && (s.flushed < Next(s, e).flushed <==> e.Flush?)
  {
  }

  ghost predicate Quiet<A>(events: seq<Event<A>>, i: nat, j: nat) {
    j <= |events| && forall k | i <= k < j :: !events[k].Flush?
  }

  /** From the look to the end. */
  lemma Rested<A(!new)>(states: seq<State<A>>, events: seq<Event<A>>, i: nat, j: nat)
    requires |states| == |events| + 1 && Steps(states, events) && i < j < |states| && events[i] == Look
    requires forall k | i < k <= j :: Waits(states[k])
    ensures Count(states[j]) == Count(states[i]) && states[i].flushed <= states[j].flushed
    ensures states[j].flushed == states[i].flushed <==> Quiet(events, i, j)
  {
    for k := i to j
      invariant Count(states[k]) == Count(states[i]) && states[i].flushed <= states[k].flushed
      invariant states[k].flushed == states[i].flushed <==> Quiet(events, i, k)
    {
      assert StepAt(states, events, k);
      assert k > i ==> Waits(states[k]);
      RestsWhile(states[k], events[k]);
    }
  }

  /** A follower is told that the log is closed only once it is, and has by then returned
      everything that was acknowledged when it last looked.  That is everything there is
      if and only if nothing was acknowledged between that look and the close. */
  lemma ClosedMeansDrained<A(!new)>(before: State<A>, from: nat, states: seq<State<A>>, events: seq<Event<A>>, j: nat)
    returns (looked: nat)
    requires Run(before, from, states, events) && j < |states| && states[j].phase == Ended(LogClosed)
    ensures states[j].closed && looked < j && events[looked] == Look && Count(states[j]) == states[looked].flushed
    ensures Count(states[j]) == states[j].flushed <==> Quiet(events, looked, j)
  {
    var told := Seqs.Entered(states, (x: State<A>) => x.phase == Ended(LogClosed), 0, j);
    assert StepAt(states, events, told);
    ClosedAt(states[told], events[told]);
    looked := Seqs.Entered(states, (x: State<A>) => x.phase == Asking, 0, told);
    assert StepAt(states, events, looked);
    LookedAt(states[looked], events[looked]);
    RunInv(before, from, states, events, looked);
    RunInv(before, from, states, events, j);
    S.OffBelow(states[looked].log, Count(states[looked]), states[looked].flushed);
    forall k | looked < k <= j ensures Waits(states[k]) {
      if k <= told {
        assert states[k].phase == Asking;
      } else {
        assert states[k].phase == Ended(LogClosed);
      }
    }
    Rested(states, events, looked, j);
  }

  /** It can be less than everything: a record acknowledged between the look at the offset
      and the question whether the log is closed is never returned. */
  lemma ClosedEarly<A(!new)>(r: Rec<A>) returns (before: State<A>, states: seq<State<A>>, events: seq<Event<A>>)
    requires r.size > 0
    ensures Run(before, 0, states, events)
    ensures var last := states[|events|];
            last.phase == Ended(LogClosed) && last.out == [] && last.log == [r] && last.flushed == 1
  {
    var files: seq<S.Seg<A>> := [S.Seg(0, [])];
    before := State([], 0, 0, 0, files, 0, 0, 0, false, 0, 0, 0, 0, Top, []);
    BeginInv(before);
    events := [Look, Stage(r), Write(1, 0), Flush(1, 1), Close, Ask];
    var s1 := before.(phase := Asking);
    var s2 := s1.(log := [r]);
    var s3 := s2.(segs := S.Grow(files, [r]), written := 1);
    var s4 := s3.(flushed := 1, owed := 1);
    var s5 := s4.(closed := true, channel := 1);
    states := [before, s1, s2, s3, s4, s5, s5.(phase := Ended(LogClosed))];
    assert [r][0..1] == [r];
    assert S.Off(s1.log, 0) == 0;
    forall i | 0 <= i < |events| ensures StepAt(states, events, i) {
      assert i == 0 || i == 1 || i == 2 || i == 3 || i == 4 || i == 5;
    }
  }

  /** And it can always take a step, or is owed the wakeup. */
  lemma CanGoOn<A>(s: State<A>) returns (e: Event<A>)
    requires Behind(s)
    ensures Enabled(s, e) && (Own(e) || (e.Wake? && s.phase.Asleep?))
  {
    S.OffBelow(s.log, Count(s), s.flushed);
    e := match s.phase
      case Top => Look
      case Reading(_) => Read
      case Asking => Ask
      case Taking => Take
      case Checking(_) => Check
      case Asleep(channel) => if channel < s.channel then Rise else Wake
      case Seeking => Seek
      case Opening(_) => Open
      case Ended(_) => Look;
  }
}
