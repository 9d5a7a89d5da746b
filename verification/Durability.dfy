/** What group commit and torn-tail recovery give together: a process killed at any
    instant leaves a segment from which recovery reads every acknowledged record at
    the offset its append returned. */
module Durability {
  import opened Seqs
  import opened Bytes
  import opened LogFile
  import opened Framing
  import opened Segment
  import G = GroupCommit
  import P = GroupCommitProof

  /** An append of a record the log can hold. */
  ghost predicate Framed(crc: Crc, e: G.Event) {
    e.CallAppend? ==> exists r :: Writable(r) && e.frame == Frame(crc, r)
  }

  predicate TaskIs(task: G.Task, at: nat, frame: bytes) {
    task.Appending? && task.at == at && task.frame == frame
  }

  /** Someone was promised, or is waiting to be promised, a frame at an offset. */
  ghost predicate Claimed(s: G.State, at: nat, frame: bytes) {
    || (exists t :: t in s.sleeping && TaskIs(s.sleeping[t], at, frame))
    || (exists t :: t in s.woken && TaskIs(s.woken[t], at, frame))
    || (exists t :: t in s.flights && TaskIs(s.flights[t].task, at, frame))
    || G.Appended(at, frame) in s.replies
  }

  lemma AnswerClaims(s: G.State, r: G.Reply, at: nat, frame: bytes)
    requires Claimed(G.Answer(s, r), at, frame)
    ensures Claimed(s, at, frame) || r == G.Appended(at, frame)
  {
  }

  lemma SleepClaims(s: G.State, t: nat, task: G.Task, at: nat, frame: bytes)
    requires Claimed(G.Sleep(s, t, task), at, frame)
    ensures Claimed(s, at, frame) || TaskIs(task, at, frame)
  {
  }

  lemma FlushClaims(s: G.State, t: nat, task: G.Task, at: nat, frame: bytes)
    requires Claimed(G.StartFlush(s, t, task), at, frame)
    ensures Claimed(s, at, frame) || TaskIs(task, at, frame)
  {
  }

  lemma ResumeClaims(s: G.State, t: nat, task: G.Task, ok: bool, at: nat, frame: bytes)
    requires Claimed(G.Resume(s, t, task, ok), at, frame)
    ensures Claimed(s, at, frame) || TaskIs(task, at, frame)
  {
    var s' := G.Resume(s, t, task, ok);
    if s' == G.Sleep(s, t, task) {
      SleepClaims(s, t, task, at, frame);
    } else if s' == G.StartFlush(s, t, task) {
      FlushClaims(s, t, task, at, frame);
    }
  }

  lemma LandedClaims(s: G.State, t: nat, at: nat, frame: bytes)
    requires t in s.flights && Claimed(G.Landed(s, t), at, frame)
    ensures Claimed(s, at, frame)
  {
  }

  lemma FinishClaims(s: G.State, t: nat, ok: bool, at: nat, frame: bytes)
    requires t in s.flights && Claimed(G.Finished(s, t, ok), at, frame)
    ensures Claimed(s, at, frame)
  {
    var s1 := G.Landed(s, t);
    if G.Failing(s.flights[t]) {
      AnswerClaims(s1, G.Refused, at, frame);
    } else {
      ResumeClaims(s1, t, s.flights[t].task, ok, at, frame);
    }
    if Claimed(s1, at, frame) {
      LandedClaims(s, t, at, frame);
    }
  }

  lemma StageClaims(s: G.State, t: nat, data: bytes, slack: bytes, at: nat, frame: bytes)
    requires G.Sized(s) && Claimed(G.Stage(s, t, data, slack), at, frame)
    ensures Claimed(s, at, frame) || (at == s.assignedTo && frame == data && !s.failed)
  {
    P.StageIs(s, t, data, slack);
    if s.failed {
      AnswerClaims(s, G.Refused, at, frame);
    } else {
      var s1, task := G.Staged(s, data, slack), G.Appending(s.assignedTo, s.assignedTo + |data|, data);
      if !s1.flushing && s1.waiters == 0 {
        FlushClaims(s1, t, task, at, frame);
      } else {
        ResumeClaims(s1, t, task, true, at, frame);
      }
    }
  }

  /** No event invents a claim: it was there, or it is the frame just staged. */
  lemma NextClaims(s: G.State, e: G.Event, at: nat, frame: bytes)
    requires G.Enabled(s, e) && Claimed(G.Next(s, e), at, frame)
    ensures Claimed(s, at, frame) || (e.CallAppend? && at == s.assignedTo && frame == e.frame && !s.failed)
  {
    match e
    case CallAppend(t, data, slack) => StageClaims(s, t, data, slack, at, frame);
    case CallSync(t, ok) => ResumeClaims(s, t, G.Syncing(s.assignedTo), ok, at, frame);
    case Wake(t, ok) => ResumeClaims(G.Up(s, t), t, s.woken[t], ok, at, frame);
    case Finish(t, ok) => FinishClaims(s, t, ok, at, frame);
    case _ =>
  }

  lemma ResumeStaged(s: G.State, t: nat, task: G.Task, ok: bool)
    ensures G.Resume(s, t, task, ok).base == s.base && G.Resume(s, t, task, ok).staged == s.staged
  {
  }

  lemma StageStaged(s: G.State, t: nat, frame: bytes, slack: bytes)
    requires G.Sized(s)
    ensures G.Stage(s, t, frame, slack).base == s.base
    ensures G.Stage(s, t, frame, slack).staged == if s.failed then s.staged else s.staged + frame
  {
    P.StageIs(s, t, frame, slack);
    if !s.failed {
      ResumeStaged(G.Staged(s, frame, slack), t, G.Appending(s.assignedTo, s.assignedTo + |frame|, frame), true);
    }
  }

  lemma FinishStaged(s: G.State, t: nat, ok: bool)
    requires t in s.flights
    ensures G.Finished(s, t, ok).base == s.base && G.Finished(s, t, ok).staged == s.staged
  {
    ResumeStaged(G.Landed(s, t), t, s.flights[t].task, ok);
  }

  lemma StagedNext(s: G.State, e: G.Event)
    requires G.Enabled(s, e)
    ensures G.Next(s, e).base == s.base
    ensures G.Next(s, e).staged == if e.CallAppend? && !s.failed then s.staged + e.frame else s.staged
  {
    match e
    case CallAppend(t, frame, slack) => StageStaged(s, t, frame, slack);
    case CallSync(t, ok) => ResumeStaged(s, t, G.Syncing(s.assignedTo), ok);
    case Wake(t, ok) => ResumeStaged(G.Up(s, t), t, s.woken[t], ok);
    case Finish(t, ok) => FinishStaged(s, t, ok);
    case _ =>
  }

  // ------------------------------------------------------------------ frames in order

  /** The frame is that of one of the records, at its offset. */
  ghost predicate IsAt(crc: Crc, base: nat, rs: seq<Record>, at: nat, frame: bytes) {
    exists j {:trigger rs[j]} :: 0 <= j < |rs| && at == base + |Encode(Writer(crc), rs[..j])| && frame == Frame(crc, rs[j])
  }

  /** What has been staged is these records, and every claim is to one of them. */
  ghost predicate Aligned(crc: Crc, s: G.State, rs: seq<Record>) {
    && s.staged == Encode(Writer(crc), rs)
    && (forall r | r in rs :: Writable(r))
    && (forall at, frame | Claimed(s, at, frame) :: IsAt(crc, s.base, rs, at, frame))
  }

  lemma IsAtMore(crc: Crc, base: nat, rs: seq<Record>, r: Record, at: nat, frame: bytes)
    requires IsAt(crc, base, rs, at, frame)
    ensures IsAt(crc, base, rs + [r], at, frame)
  {
    var j :| 0 <= j < |rs| && at == base + |Encode(Writer(crc), rs[..j])| && frame == Frame(crc, rs[j]);
    assert (rs + [r])[j] == rs[j] && (rs + [r])[..j] == rs[..j];
  }

  lemma IsAtLast(crc: Crc, base: nat, rs: seq<Record>, r: Record)
    ensures IsAt(crc, base, rs + [r], base + |Encode(Writer(crc), rs)|, Frame(crc, r))
  {
    var all := rs + [r];
    assert all[|rs|] == r && all[..|rs|] == rs;
  }

  lemma AlignedStage(crc: Crc, s: G.State, e: G.Event, rs: seq<Record>, r: Record)
    requires G.Inv(s) && G.Enabled(s, e) && Aligned(crc, s, rs)
    requires e.CallAppend? && !s.failed && Writable(r) && e.frame == Frame(crc, r)
    ensures Aligned(crc, G.Next(s, e), rs + [r])
  {
    var s' := G.Next(s, e);
    StagedNext(s, e);
    EncodeSnoc(Writer(crc), rs, r);
    forall at, frame | Claimed(s', at, frame) ensures IsAt(crc, s'.base, rs + [r], at, frame) {
      NextClaims(s, e, at, frame);
      if Claimed(s, at, frame) {
        IsAtMore(crc, s.base, rs, r, at, frame);
      } else {
        IsAtLast(crc, s.base, rs, r);
      }
    }
  }

  lemma AlignedOther(crc: Crc, s: G.State, e: G.Event, rs: seq<Record>)
    requires G.Enabled(s, e) && Aligned(crc, s, rs) && (e.CallAppend? ==> s.failed)
    ensures Aligned(crc, G.Next(s, e), rs)
  {
    var s' := G.Next(s, e);
    StagedNext(s, e);
    forall at, frame | Claimed(s', at, frame) ensures IsAt(crc, s'.base, rs, at, frame) {
      NextClaims(s, e, at, frame);
    }
  }

  lemma AlignedNext(crc: Crc, s: G.State, e: G.Event, rs: seq<Record>) returns (rs': seq<Record>)
    requires G.Inv(s) && G.Enabled(s, e) && Framed(crc, e) && Aligned(crc, s, rs)
    ensures Aligned(crc, G.Next(s, e), rs') && rs <= rs'
  {
    if e.CallAppend? && !s.failed {
      var r :| Writable(r) && e.frame == Frame(crc, r);
      rs' := rs + [r];
      AlignedStage(crc, s, e, rs, r);
    } else {
      rs' := rs;
      AlignedOther(crc, s, e, rs);
    }
  }

  // --------------------------------------------------------------------- whole runs

  /** A run on a segment opened with some records in it, or none, appending records the
      log can hold. */
  ghost predicate FramedRun(crc: Crc, found: seq<Record>, states: seq<G.State>, events: seq<G.Event>) {
    && |states| == |events| + 1
    && G.Open(states[0]) && states[0].file == Encode(Writer(crc), found) && (forall r | r in found :: Writable(r))
    && forall i | 0 <= i < |events| :: Moves(crc, states[i], states[i + 1], events[i])
  }

  ghost predicate Moves(crc: Crc, s: G.State, s': G.State, e: G.Event) {
    G.Enabled(s, e) && Framed(crc, e) && s' == G.Next(s, e)
  }

  lemma MovesAligned(crc: Crc, s: G.State, s': G.State, e: G.Event, rs: seq<Record>) returns (rs': seq<Record>)
    requires G.Inv(s) && Aligned(crc, s, rs) && Moves(crc, s, s', e)
    ensures G.Inv(s') && Aligned(crc, s', rs')
  {
    P.NextInv(s, e);
    rs' := AlignedNext(crc, s, e, rs);
  }

  lemma OpenAligned(crc: Crc, found: seq<Record>, s: G.State)
    requires G.Open(s) && s.file == Encode(Writer(crc), found) && forall r | r in found :: Writable(r)
    ensures G.Inv(s) && Aligned(crc, s, found)
  {
    P.OpenInv(s);
  }

  /** What has been staged is some records, in a state that keeps its invariant. */
  ghost predicate Kept(crc: Crc, s: G.State) {
    G.Inv(s) && exists rs :: Aligned(crc, s, rs)
  }

  lemma MovesKept(crc: Crc, s: G.State, e: G.Event, s': G.State)
    requires Kept(crc, s) && Moves(crc, s, s', e)
    ensures Kept(crc, s')
  {
    var rs :| Aligned(crc, s, rs);
    var rs' := MovesAligned(crc, s, s', e, rs);
  }

  lemma RunAligned(crc: Crc, found: seq<Record>, states: seq<G.State>, events: seq<G.Event>, i: nat)
    requires FramedRun(crc, found, states, events) && i < |states|
    ensures Kept(crc, states[i])
  {
    var move, good := (s: G.State, e: G.Event, s': G.State) => Moves(crc, s, s', e), (s: G.State) => Kept(crc, s);
    forall s, e, s' | good(s) && move(s, e, s') ensures good(s') {
      MovesKept(crc, s, e, s');
    }
    OpenAligned(crc, found, states[0]);
    Preserved(states, events, move, good, i);
  }

  // ---------------------------------------------------------------------- the theorem

  /** The entries hold everything that was acknowledged. */
  ghost predicate HoldsAcked(crc: Crc, s: G.State, entries: seq<Entry<Record>>) {
    forall at, frame | G.Appended(at, frame) in s.replies ::
      exists e :: e in entries && e.offset == at && Frame(crc, e.record) == frame
  }

  /** An acknowledged frame lies within the file. */
  lemma AckWithin(s: G.State, at: nat, frame: bytes)
    requires G.Inv(s) && G.Appended(at, frame) in s.replies
    ensures at + |frame| <= s.base + |s.file|
  {
    var i :| 0 <= i < |s.replies| && s.replies[i] == G.Appended(at, frame);
    assert G.Kept(s.base, s.file, s.forced, s.relaxed, s.replies[i]);
  }

  lemma AckRead(crc: Crc, rs: seq<Record>, cut: nat, base: nat, at: nat, frame: bytes)
    requires IsAt(crc, base, rs, at, frame) && at + |frame| <= base + cut && cut <= |Encode(Writer(crc), rs)|
    ensures exists e :: e in Entries(Writer(crc), rs[..Whole(Writer(crc), rs, cut)], base)
                        && e.offset == at && Frame(crc, e.record) == frame
  {
    var j :| 0 <= j < |rs| && at == base + |Encode(Writer(crc), rs[..j])| && frame == Frame(crc, rs[j]);
    assert Writer(crc)(rs[j]) == Frame(crc, rs[j]);
    EntryRead(Writer(crc), rs, cut, base, j);
  }

  lemma AckedRead(crc: Crc, s: G.State, rs: seq<Record>)
    requires G.Inv(s) && Aligned(crc, s, rs) && |s.file| <= |Encode(Writer(crc), rs)|
    ensures HoldsAcked(crc, s, Entries(Writer(crc), rs[..Whole(Writer(crc), rs, |s.file|)], s.base))
  {
    forall at, frame | G.Appended(at, frame) in s.replies
      ensures exists e :: e in Entries(Writer(crc), rs[..Whole(Writer(crc), rs, |s.file|)], s.base)
                          && e.offset == at && Frame(crc, e.record) == frame
    {
      assert Claimed(s, at, frame);
      AckWithin(s, at, frame);
      AckRead(crc, rs, |s.file|, s.base, at, frame);
    }
  }

  lemma FileIsPrefix(s: G.State)
    requires G.Inv(s)
    ensures s.file <= s.staged
  {
    if s.flights != map[] {
      var t :| t in s.flights;
      P.FlightLands(s.mem, s.pending, s.offset - s.base, s.flights[t], s.file, s.staged);
    }
  }

  /** What recovery, reading with `read`, finds in the file of a killed process. */
  ghost predicate Recoverable(crc: Crc, read: bytes -> Reading<Record>, s: G.State) {
    var l := ReadAll(read, s.file, s.base);
    && s.base <= l.end <= s.base + |s.file|
    && (l.stop == End || l.stop == Torn)
    && ReadAll(read, s.file[..l.end - s.base], s.base) == Log(l.entries, l.end, End)
    && HoldsAcked(crc, s, l.entries)
  }

  lemma StateRecoverable(crc: Crc, read: bytes -> Reading<Record>, write: Record -> bytes, s: G.State, rs: seq<Record>)
    requires Fit(read, write, rs) && s.file <= Encode(write, rs)
    requires HoldsAcked(crc, s, Entries(write, rs[..Whole(write, rs, |s.file|)], s.base))
    ensures Recoverable(crc, read, s)
  {
    PrefixReadsHolds(read, write, rs, s.file, s.base);
    assert ReadAll(read, s.file, s.base).entries == Entries(write, rs[..Whole(write, rs, |s.file|)], s.base);
  }

  /** Killed at any instant of any run: recovery reads the file as whole records
      followed at most by a torn one, cutting it there leaves a clean segment that
      reads the same, and every append that was acknowledged is among the records, at
      the offset it was told. */
  lemma AckedSurvive(crc: Crc, found: seq<Record>, states: seq<G.State>, events: seq<G.Event>, i: nat)
    requires FramedRun(crc, found, states, events) && i < |states|
    ensures Recoverable(crc, Reader(crc), states[i])
  {
    RunAligned(crc, found, states, events, i);
    var rs :| Aligned(crc, states[i], rs);
    FileIsPrefix(states[i]);
    AckedRead(crc, states[i], rs);
    WriterFits(crc, rs);
    StateRecoverable(crc, Reader(crc), Writer(crc), states[i], rs);
  }

  // --------------------------------------------------------------- records too large

  /** The reader's limit is checked by the reader only: Append stages a frame of any
      size. */
  predicate Oversize(r: Record) {
    MaxRecordSize < |Payload(r.args)| < 0x1_0000_0000
  }

  lemma OversizeCorrupt(crc: Crc, r: Record, rest: bytes)
    requires Oversize(r)
    ensures ReadOne(crc, Frame(crc, r) + rest) == Corrupt
  {
    FrameParts(crc, r, rest);
    Widths();
    LERoundTrip(|Payload(r.args)|, 4);
  }

  /** An oversized record takes itself and everything after it out of reach. */
  lemma OversizeBuries(crc: Crc, rs: seq<Record>, r: Record, more: bytes, at: nat)
    requires Oversize(r) && forall x | x in rs :: Writable(x)
    ensures ReadAll(Reader(crc), Encode(Writer(crc), rs) + (Frame(crc, r) + more), at)
         == Log(Entries(Writer(crc), rs, at), at + |Encode(Writer(crc), rs)|, Corrupt)
  {
    WriterFits(crc, rs);
    OversizeCorrupt(crc, r, more);
    BuriesBelow(Reader(crc), Writer(crc), rs, Frame(crc, r) + more, at);
  }

  /** A segment with one frame in flight, of which `done` bytes are in the file. */
  ghost predicate OneFlying(s: G.State, base: nat, frame: bytes, done: nat) {
    && done <= |frame| && s.base == base && s.file == frame[..done] && s.replies == [] && !s.failed
    && s.mem == [[], frame] && s.pending == s.spare == G.Slice(0, 0)
    && var task := G.Appending(base, base + |frame|, frame);
       s.flights == map[0 := G.Flight(task, G.Slice(1, |frame|), G.EverySec, base + |frame|, done, G.Running)]
  }

  /** One append on an idle segment: staged, written, landed. */
  lemma OneStaged(s: G.State, frame: bytes) returns (s1: G.State)
    requires G.Open(s) && s.file == [] && s.policy == G.EverySec && frame != []
    ensures G.Step(s, s1) && OneFlying(s1, s.base, frame, 0)
  {
    var e := G.CallAppend(0, frame, []);
    s1 := G.Next(s, e);
    assert G.Enabled(s, e);
    assert [] + frame + [] == frame && frame[..0] == [];
  }

  lemma OneWritten(s: G.State, base: nat, frame: bytes) returns (s1: G.State)
    requires frame != [] && OneFlying(s, base, frame, 0)
    ensures G.Step(s, s1) && OneFlying(s1, base, frame, |frame|)
  {
    var e := G.Write(0, |frame|);
    assert G.Enabled(s, e);
    s1 := G.Next(s, e);
    assert [] + frame[0..|frame|] == frame == frame[..|frame|];
  }

  lemma OneLanded(s: G.State, base: nat, frame: bytes) returns (s1: G.State)
    requires OneFlying(s, base, frame, |frame|)
    ensures G.Step(s, s1) && s1.file == frame && s1.base == base && s1.replies == [G.Appended(base, frame)]
  {
    var e := G.Finish(0, true);
    assert G.Enabled(s, e);
    s1 := G.Next(s, e);
  }

  lemma ThreeSteps(s: G.State, s1: G.State, s2: G.State, s3: G.State)
    requires G.Open(s) && G.Step(s, s1) && G.Step(s1, s2) && G.Step(s2, s3)
    ensures G.Run([s, s1, s2, s3])
  {
    var states := [s, s1, s2, s3];
    forall i | 0 <= i < |states| - 1 ensures G.StepAt(states, i) {
      assert i == 0 || i == 1 || i == 2;
    }
  }

  lemma OversizeAlone(crc: Crc, r: Record, at: nat)
    requires Oversize(r)
    ensures ReadAll(Reader(crc), Frame(crc, r), at) == Log([], at, Corrupt)
  {
    OversizeBuries(crc, [], r, [], at);
    assert Encode(Writer(crc), []) + (Frame(crc, r) + []) == Frame(crc, r);
  }

  /** Such a record is acknowledged all the same, and recovery does not find it. */
  lemma OversizeAcked(crc: Crc, r: Record, s: G.State) returns (states: seq<G.State>)
    requires Oversize(r) && G.Open(s) && s.file == [] && s.policy == G.EverySec
    ensures G.Run(states) && states[0] == s && |states| == 4
    ensures states[3].base == s.base && states[3].file == Frame(crc, r)
    ensures states[3].replies == [G.Appended(s.base, Frame(crc, r))]
    ensures ReadAll(Reader(crc), states[3].file, s.base) == Log([], s.base, Corrupt)
  {
    var frame := Frame(crc, r);
    FrameParts(crc, r, []);
    var s1 := OneStaged(s, frame);
    var s2 := OneWritten(s1, s.base, frame);
    var s3 := OneLanded(s2, s.base, frame);
    states := [s, s1, s2, s3];
    ThreeSteps(s, s1, s2, s3);
    OversizeAlone(crc, r, s.base);
  }
}
