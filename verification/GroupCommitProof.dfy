/** Group commit keeps its invariants in every interleaving, and every call returns. */
module GroupCommitProof {
  import opened Bytes
  import opened GroupCommit

  /** What Resume needs of the state it starts in. */
  ghost predicate Ready(s: State, t: nat, task: Task) {
    Inv(s) && !Busy(s, t) && TaskOk(s.base, s.staged, task)
  }

  lemma OpenInv(s: State)
    requires Open(s)
    ensures Inv(s)
  {
    assert s.staged == s.file + View(s.mem, s.pending);
  }

  lemma AnswerInv(s: State, r: Reply)
    requires Inv(s) && Kept(s.base, s.file, s.forced, s.relaxed, r)
    ensures Inv(Answer(s, r))
  {
    assert AllKept(s.base, s.file, s.forced, s.relaxed, s.replies + [r]);
  }

  lemma SleepInv(s: State, t: nat, task: Task)
    requires Ready(s, t, task) && s.flushing
    ensures Inv(Sleep(s, t, task))
  {
  }

  /** The staged batch takes off. */
  lemma TakesOff(s: State, t: nat, task: Task, f: Flight)
    requires Inv(s) && !s.flushing && !s.failed && f == Flight(task, s.pending, s.policy, s.offset + s.pending.len, 0, Running)
    ensures Stream(s.mem, Slice(s.spare.buf, 0), map[t := f], s.offset - s.base, false, s.file, s.staged)
  {
    assert Flying(s.mem, Slice(s.spare.buf, 0), s.offset - s.base, f, s.file, s.staged);
  }

  lemma FlushInv(s: State, t: nat, task: Task)
    requires Ready(s, t, task) && !s.flushing && !s.failed && s.pending.len > 0
    ensures Inv(StartFlush(s, t, task))
  {
    var s1 := StartFlush(s, t, task);
    TakesOff(s, t, task, s1.flights[t]);
    assert s1.flights == map[t := s1.flights[t]];
    assert Apart(s1.mem, s1.pending, s1.spare, s1.flights);
  }

  lemma ResumeInv(s: State, t: nat, task: Task, ok: bool)
    requires Ready(s, t, task)
    ensures Inv(Resume(s, t, task, ok))
  {
    if s.failed {
      AnswerInv(s, Refused);
    } else if task.Appending? && s.offset >= task.target {
      AnswerInv(s, Appended(task.at, task.frame));
    } else if s.flushing {
      SleepInv(s, t, task);
    } else if s.pending.len > 0 {
      FlushInv(s, t, task);
    }
  }

  // ----------------------------------------------------------------------- staging

  /** append adds the frame to this slice and leaves every other buffer alone. */
  lemma ExtendView(mem: seq<bytes>, sl: Slice, frame: bytes, slack: bytes)
    requires Within(mem, sl) && mem[0] == [] && frame != []
    ensures var (m, p) := Extend(mem, sl, frame, slack);
            && Within(m, p) && View(m, p) == View(mem, sl) + frame
            && (p.buf == sl.buf || p.buf == |mem|) && p.buf != 0 && |mem| <= |m|
            && (forall b | 0 <= b < |mem| && b != sl.buf :: m[b] == mem[b])
            && m[0] == []
  {
  }

  lemma HoldsMore(base: nat, staged: bytes, more: bytes, at: nat, frame: bytes)
    requires Holds(base, staged, at, frame)
    ensures Holds(base, staged + more, at, frame)
  {
    assert (staged + more)[at - base..at - base + |frame|] == staged[at - base..at - base + |frame|];
  }

  lemma TasksMore(base: nat, staged: bytes, more: bytes, sleeping: map<nat, Task>, woken: map<nat, Task>,
                  flights: map<nat, Flight>)
    requires Tasks(base, staged, sleeping, woken, flights)
    ensures Tasks(base, staged + more, sleeping, woken, flights)
  {
    forall task | TaskOk(base, staged, task) ensures TaskOk(base, staged + more, task) {
      if task.Appending? {
        HoldsMore(base, staged, more, task.at, task.frame);
      }
    }
  }

  lemma StagedStream(s: State, frame: bytes, slack: bytes)
    requires Inv(s) && !s.failed && frame != []
    ensures var s1 := Staged(s, frame, slack);
            Stream(s1.mem, s1.pending, s1.flights, s1.offset - s1.base, s1.failed, s1.file, s1.staged)
  {
    ExtendView(s.mem, s.pending, frame, slack);
    var s1 := Staged(s, frame, slack);
    if s.flights == map[] {
      assert Settled(s1.mem, s1.pending, s1.file, s1.staged);
    } else {
      forall t | t in s.flights
        ensures Flying(s1.mem, s1.pending, s.offset - s.base, s.flights[t], s1.file, s1.staged)
      {
        var f := s.flights[t];
        assert Flying(s.mem, s.pending, s.offset - s.base, f, s.file, s.staged);
        assert s1.mem[f.batch.buf] == s.mem[f.batch.buf];
      }
    }
  }

  lemma StagedInv(s: State, frame: bytes, slack: bytes)
    requires Inv(s) && !s.failed && frame != []
    ensures Inv(Staged(s, frame, slack)) && Staged(s, frame, slack).pending.len > 0
    ensures Holds(s.base, s.staged + frame, s.assignedTo, frame)
  {
    var s1 := Staged(s, frame, slack);
    ExtendView(s.mem, s.pending, frame, slack);
    StagedStream(s, frame, slack);
    TasksMore(s.base, s.staged, frame, s.sleeping, s.woken, s.flights);
    assert Apart(s1.mem, s1.pending, s1.spare, s1.flights);
  }

  lemma CommitInv(s: State, t: nat, task: Task)
    requires Ready(s, t, task) && !s.failed && s.pending.len > 0
    ensures Inv(Commit(s, t, task))
  {
    if !s.flushing && s.waiters == 0 {
      FlushInv(s, t, task);
    } else {
      ResumeInv(s, t, task, true);
    }
  }

  lemma StagedReady(s: State, s1: State, t: nat, frame: bytes, slack: bytes)
    requires Inv(s) && !s.failed && !Busy(s, t) && frame != [] && s1 == Staged(s, frame, slack)
    ensures Ready(s1, t, Appending(s.assignedTo, s.assignedTo + |frame|, frame)) && !s1.failed && s1.pending.len > 0
  {
    StagedInv(s, frame, slack);
    assert s1.base == s.base && s1.staged == s.staged + frame;
  }

  lemma StageInv(s: State, t: nat, frame: bytes, slack: bytes)
    requires Inv(s) && !s.failed && !Busy(s, t) && frame != []
    ensures Inv(Commit(Staged(s, frame, slack), t, Appending(s.assignedTo, s.assignedTo + |frame|, frame)))
  {
    var s1 := Staged(s, frame, slack);
    StagedReady(s, s1, t, frame, slack);
    CommitInv(s1, t, Appending(s.assignedTo, s.assignedTo + |frame|, frame));
  }

  lemma StageIs(s: State, t: nat, frame: bytes, slack: bytes)
    requires Sized(s)
    ensures Stage(s, t, frame, slack) ==
            if s.failed then Answer(s, Refused)
            else Commit(Staged(s, frame, slack), t, Appending(s.assignedTo, s.assignedTo + |frame|, frame))
  {
  }

  lemma AppendInv(s: State, t: nat, frame: bytes, slack: bytes)
    requires Inv(s) && Sized(s) && !Busy(s, t) && frame != []
    ensures Inv(Stage(s, t, frame, slack))
  {
    StageIs(s, t, frame, slack);
    if s.failed {
      AnswerInv(s, Refused);
    } else {
      StageInv(s, t, frame, slack);
    }
  }

  // ----------------------------------------------------------------------- writing

  /** Replies stay true as the file grows and more of it is forced. */
  lemma AllKeptMore(base: nat, file: bytes, more: bytes, forced: nat, forced': nat, relaxed: bool, replies: seq<Reply>)
    requires AllKept(base, file, forced, relaxed, replies) && forced <= forced'
    ensures AllKept(base, file + more, forced', relaxed, replies)
  {
    forall i | 0 <= i < |replies| ensures Kept(base, file + more, forced', relaxed, replies[i]) {
      if replies[i].Appended? {
        HoldsMore(base, file, more, replies[i].at, replies[i].frame);
      }
    }
  }

  lemma WriteFlying(mem: seq<bytes>, pending: Slice, done: nat, f: Flight, file: bytes, staged: bytes, n: nat)
    requires Flying(mem, pending, done, f, file, staged) && f.done + n <= f.batch.len
    ensures Flying(mem, pending, done, f.(done := f.done + n), file + mem[f.batch.buf][f.done..f.done + n], staged)
  {
    var more := mem[f.batch.buf][f.done..f.done + n];
    assert (file + more)[..done] == file[..done];
    assert mem[f.batch.buf][..f.done + n] == mem[f.batch.buf][..f.done] + more;
  }

  lemma WroteStream(s: State, t: nat, n: nat)
    requires Inv(s) && t in s.flights && s.flights[t].done + n <= s.flights[t].batch.len
    ensures var s1 := Wrote(s, t, n);
            && s1.flights.Keys == s.flights.Keys == {t}
            && Stream(s1.mem, s1.pending, s1.flights, s1.offset - s1.base, s1.failed, s1.file, s1.staged)
  {
    assert s.flights.Keys == {t};
    WroteFlights(s.mem, s.pending, s.flights, s.offset - s.base, s.failed, s.file, s.staged, t, n);
  }

  lemma WroteFlights(mem: seq<bytes>, pending: Slice, flights: map<nat, Flight>, done: int, failed: bool, file: bytes, staged: bytes,
                     t: nat, n: nat)
    requires Stream(mem, pending, flights, done, failed, file, staged) && flights.Keys == {t}
    requires flights[t].done + n <= flights[t].batch.len
    ensures var f := flights[t];
            && Within(mem, f.batch)
            && Stream(mem, pending, flights[t := f.(done := f.done + n)], done, failed, file + mem[f.batch.buf][f.done..f.done + n], staged)
  {
    var f := flights[t];
    assert t in flights && Flying(mem, pending, done, f, file, staged);
    WriteFlying(mem, pending, done, f, file, staged, n);
  }

  lemma WriteInv(s: State, t: nat, n: nat)
    requires Inv(s) && t in s.flights && s.flights[t].done + n <= s.flights[t].batch.len
    requires s.flights[t].outcome == Running
    ensures Inv(Wrote(s, t, n))
  {
    var f, s1 := s.flights[t], Wrote(s, t, n);
    WroteStream(s, t, n);
    AllKeptMore(s.base, s.file, s.mem[f.batch.buf][f.done..f.done + n], s.forced, s.forced, s.relaxed, s.replies);
    assert Apart(s1.mem, s1.pending, s1.spare, s1.flights);
    assert Flights(s1.flights, s1.offset);
    assert Tasks(s1.base, s1.staged, s1.sleeping, s1.woken, s1.flights);
    assert Durable(s1.offset - s1.base, s1.forced, |s1.file|, s1.failed, s1.dirty, s1.relaxed, s1.policy, s1.flights);
  }

  lemma ForceInv(s: State, t: nat, ok: bool)
    requires Inv(s) && Enabled(s, Force(t, ok))
    ensures Inv(Next(s, Force(t, ok)))
  {
    var s1 := Next(s, Force(t, ok));
    assert s1.flights.Keys == s.flights.Keys == {t};
    AllKeptMore(s.base, s.file, [], s.forced, s1.forced, s.relaxed, s.replies);
    assert s.file + [] == s.file;
    assert Flying(s.mem, s.pending, s.offset - s.base, s.flights[t], s.file, s.staged);
    assert Flying(s.mem, s.pending, s.offset - s.base, s1.flights[t], s.file, s.staged);
  }

  lemma WriteFailsInv(s: State, t: nat)
    requires Inv(s) && Enabled(s, WriteFails(t))
    ensures Inv(Next(s, WriteFails(t)))
  {
    var s1 := Next(s, WriteFails(t));
    assert s1.flights.Keys == s.flights.Keys == {t};
    assert Flying(s.mem, s.pending, s.offset - s.base, s.flights[t], s.file, s.staged);
    assert Flying(s.mem, s.pending, s.offset - s.base, s1.flights[t], s.file, s.staged);
  }

  // --------------------------------------------------------------------- finishing

  lemma FlightLands(mem: seq<bytes>, pending: Slice, done: nat, f: Flight, file: bytes, staged: bytes)
    requires Flying(mem, pending, done, f, file, staged)
    ensures file <= staged
    ensures f.done == f.batch.len ==> Settled(mem, pending, file, staged) && |file| == done + f.batch.len
  {
    var b := mem[f.batch.buf];
    assert View(mem, f.batch) == b[..f.done] + b[f.done..f.batch.len];
    assert staged == file + (b[f.done..f.batch.len] + View(mem, pending));
  }

  lemma LandStream(s: State, t: nat, s1: State)
    requires Inv(s) && t in s.flights && Complete(s.flights[t]) && s1 == Landed(s, t)
    ensures s1.flights == map[]
    ensures Stream(s1.mem, s1.pending, s1.flights, s1.offset - s1.base, s1.failed, s1.file, s1.staged)
  {
    FlightLands(s.mem, s.pending, s.offset - s.base, s.flights[t], s.file, s.staged);
    assert s1.flights == map[];
  }

  lemma UnionSize(m: map<nat, Task>, n: map<nat, Task>)
    requires m.Keys !! n.Keys
    ensures |m + n| == |m| + |n|
  {
    assert (m + n).Keys == m.Keys + n.Keys;
  }

  /** Landing wakes every sleeper. */
  lemma LandWaiting(s: State, t: nat, s1: State)
    requires Inv(s) && t in s.flights && s1 == Landed(s, t)
    ensures Waiting(s1.waiters, s1.flushing, s1.sleeping, s1.woken, map[])
    ensures s1.sleeping == map[] && s1.woken == s.woken + s.sleeping
  {
    UnionSize(s.woken, s.sleeping);
    if s.waiters == 0 {
      assert s.sleeping == map[] && s.woken == map[];
    }
  }

  lemma LandDurable(s: State, t: nat, s1: State)
    requires Inv(s) && t in s.flights && Complete(s.flights[t]) && s1 == Landed(s, t)
    ensures Durable(s1.offset - s1.base, s1.forced, |s1.file|, s1.failed, s1.dirty, s1.relaxed, s1.policy, map[])
  {
    FlightLands(s.mem, s.pending, s.offset - s.base, s.flights[t], s.file, s.staged);
  }

  lemma LandApart(s: State, t: nat, s1: State)
    requires Inv(s) && t in s.flights && s1 == Landed(s, t)
    ensures Apart(s1.mem, s1.pending, s1.spare, map[])
  {
  }

  lemma LandTasks(s: State, t: nat, s1: State)
    requires Inv(s) && t in s.flights && s1 == Landed(s, t)
    ensures Tasks(s1.base, s1.staged, s1.sleeping, s1.woken, map[])
    ensures TaskOk(s1.base, s1.staged, s.flights[t].task)
  {
  }

  lemma LandedInv(s: State, t: nat, s1: State)
    requires Inv(s) && t in s.flights && Complete(s.flights[t]) && s1 == Landed(s, t)
    ensures Ready(s1, t, s.flights[t].task)
  {
    LandStream(s, t, s1);
    LandWaiting(s, t, s1);
    LandDurable(s, t, s1);
    LandApart(s, t, s1);
    LandTasks(s, t, s1);
  }

  lemma FinishInv(s: State, t: nat, ok: bool)
    requires Inv(s) && Enabled(s, Finish(t, ok))
    ensures Inv(Next(s, Finish(t, ok)))
  {
    LandedInv(s, t, Landed(s, t));
    if Failing(s.flights[t]) {
      AnswerInv(Landed(s, t), Refused);
    } else {
      ResumeInv(Landed(s, t), t, s.flights[t].task, ok);
    }
  }

  lemma UpReady(s: State, t: nat)
    requires Inv(s) && t in s.woken
    ensures Ready(Up(s, t), t, s.woken[t])
  {
    var woken := s.woken - {t};
    assert s.woken == woken[t := s.woken[t]];
    assert Waiting(s.waiters - 1, s.flushing, s.sleeping, woken, s.flights);
    assert Tasks(s.base, s.staged, s.sleeping, woken, s.flights);
  }

  lemma WakeInv(s: State, t: nat, ok: bool)
    requires Inv(s) && t in s.woken
    ensures Inv(Resume(Up(s, t), t, s.woken[t], ok))
  {
    UpReady(s, t);
    ResumeInv(Up(s, t), t, s.woken[t], ok);
  }

  lemma SetFsyncInv(s: State, p: Fsync)
    requires Inv(s)
    ensures Inv(s.(policy := p, relaxed := s.relaxed || p != Always))
  {
    var relaxed := s.relaxed || p != Always;
    assert AllKept(s.base, s.file, s.forced, relaxed, s.replies) by {
      assert forall i | 0 <= i < |s.replies| :: Kept(s.base, s.file, s.forced, s.relaxed, s.replies[i]);
    }
  }

  lemma CallSyncInv(s: State, t: nat, ok: bool)
    requires Inv(s) && !Busy(s, t)
    ensures Inv(Resume(s, t, Syncing(s.assignedTo), ok))
  {
    ResumeInv(s, t, Syncing(s.assignedTo), ok);
  }

  /** Every event keeps every invariant. */
  lemma NextInv(s: State, e: Event)
    requires Inv(s) && Enabled(s, e)
    ensures Inv(Next(s, e))
  {
    match e
    case CallAppend(t, frame, slack) => AppendInv(s, t, frame, slack);
    case CallSync(t, ok) => CallSyncInv(s, t, ok);
    case Wake(t, ok) => WakeInv(s, t, ok);
    case Write(t, n) => WriteInv(s, t, n);
    case WriteFails(t) => WriteFailsInv(s, t);
    case Force(t, ok) => ForceInv(s, t, ok);
    case Finish(t, ok) => FinishInv(s, t, ok);
    case SetFsync(p) => SetFsyncInv(s, p);
  }

  lemma StepInv(s: State, s': State)
    requires Inv(s) && Step(s, s')
    ensures Inv(s')
  {
    var e :| Enabled(s, e) && s' == Next(s, e);
    NextInv(s, e);
  }

  lemma {:induction false} RunInv(states: seq<State>, i: nat)
    requires Run(states) && i < |states|
    ensures Inv(states[i])
  {
    if i == 0 {
      OpenInv(states[0]);
    } else {
      RunInv(states, i - 1);
      assert StepAt(states, i - 1);
      StepInv(states[i - 1], states[i]);
    }
  }

  // ----------------------------------------------------------------- what runs keep

  ghost function InFlight(flights: map<nat, Flight>): nat {
    if flights == map[] then 0 else var t :| t in flights; flights[t].batch.len
  }

  /** The promise of Append and Sync, at every instant of every interleaving.  Until
      the first failure offsets are accounted for exactly; the file is always a
      prefix of what was staged, so batches arrive whole and in staging order; a
      successful append's frame is in the file at the offset it returned, forced if
      the policy has only ever been `always`; a successful sync has forced everything
      staged before it. */
  lemma GroupCommits(states: seq<State>, i: nat)
    requires Run(states) && i < |states|
    ensures var s := states[i];
            && (!s.failed ==> s.assignedTo == s.offset + InFlight(s.flights) + s.pending.len)
            && s.file <= s.staged
            && (forall r | r in s.replies :: Kept(s.base, s.file, s.forced, s.relaxed, r))
  {
    RunInv(states, i);
    var s := states[i];
    if s.flights != map[] {
      var t :| t in s.flights;
      assert Flying(s.mem, s.pending, s.offset - s.base, s.flights[t], s.file, s.staged);
      var f := s.flights[t];
      assert View(s.mem, f.batch)[..f.done] == s.mem[f.batch.buf][..f.done];
    }
  }

  /** Staging, waiting and waking leave a flight and its bytes alone. */
  lemma ResumeIntact(s: State, t: nat, task: Task, ok: bool, other: nat)
    requires other in s.flights && s.flushing
    ensures var s' := Resume(s, t, task, ok); other in s'.flights && s'.flights[other] == s.flights[other] && s'.mem == s.mem
  {
  }

  lemma StageIntact(s: State, t: nat, frame: bytes, slack: bytes, other: nat)
    requires Inv(s) && Sized(s) && frame != [] && other in s.flights
    ensures var s', f := Stage(s, t, frame, slack), s.flights[other];
            && other in s'.flights && s'.flights[other] == f
            && Within(s'.mem, f.batch) && View(s'.mem, f.batch) == View(s.mem, f.batch)
  {
    StageIs(s, t, frame, slack);
    if !s.failed {
      ExtendView(s.mem, s.pending, frame, slack);
      var s1 := Staged(s, frame, slack);
      ResumeIntact(s1, t, Appending(s.assignedTo, s.assignedTo + |frame|, frame), true, other);
    }
  }

  /** Thread t's batch is in flight in both states, with the same bytes. */
  ghost predicate SameBatch(s: State, s': State, t: nat) {
    && t in s.flights && t in s'.flights && s'.flights[t].batch == s.flights[t].batch
    && Within(s.mem, s.flights[t].batch) && Within(s'.mem, s.flights[t].batch)
    && View(s'.mem, s.flights[t].batch) == View(s.mem, s.flights[t].batch)
  }

  lemma StaysInFlight(s: State, e: Event, t: nat)
    requires Inv(s) && Enabled(s, e) && t in s.flights && e != Finish(t, true) && e != Finish(t, false)
    ensures SameBatch(s, Next(s, e), t)
  {
    match e
    case CallAppend(u, frame, slack) => StageIntact(s, u, frame, slack, t);
    case CallSync(u, ok) => ResumeIntact(s, u, Syncing(s.assignedTo), ok, t);
    case Wake(u, ok) => ResumeIntact(Up(s, u), u, s.woken[u], ok, t);
    case _ =>
  }

  /** An event other than thread t landing its batch. */
  ghost predicate StepBut(s: State, s': State, t: nat) {
    exists e :: Enabled(s, e) && s' == Next(s, e) && e != Finish(t, true) && e != Finish(t, false)
  }

  ghost predicate ButAt(states: seq<State>, i: nat, t: nat) {
    i + 1 < |states| && StepBut(states[i], states[i + 1], t)
  }

  lemma StepButKeeps(s: State, s': State, t: nat)
    requires Inv(s) && StepBut(s, s', t) && t in s.flights
    ensures SameBatch(s, s', t)
  {
    var e :| Enabled(s, e) && s' == Next(s, e) && e != Finish(t, true) && e != Finish(t, false);
    StaysInFlight(s, e, t);
  }

  lemma KeptOnce(states: seq<State>, i: nat, t: nat)
    requires Run(states) && i + 1 < |states| && t in states[i].flights && ButAt(states, i, t)
    ensures SameBatch(states[i], states[i + 1], t)
  {
    RunInv(states, i);
    StepButKeeps(states[i], states[i + 1], t);
  }

  lemma FlightWithin(s: State, t: nat)
    requires Inv(s) && t in s.flights
    ensures SameBatch(s, s, t)
  {
  }

  lemma SameBatchTrans(a: State, b: State, c: State, t: nat)
    requires SameBatch(a, b, t) && SameBatch(b, c, t)
    ensures SameBatch(a, c, t)
  {
  }

  /** A batch in flight is not disturbed by anything other threads do, over any number of
      events: until its own writer lands it, it stays in flight and its bytes stay what
      they were. */
  lemma {:induction false} InFlightIntact(states: seq<State>, i: nat, j: nat, t: nat)
    requires Run(states) && i <= j < |states| && t in states[i].flights
    requires forall k | i <= k < j :: ButAt(states, k, t)
    ensures SameBatch(states[i], states[j], t)
  {
    if i == j {
      RunInv(states, i);
      FlightWithin(states[i], t);
    } else {
      InFlightIntact(states, i, j - 1, t);
      assert ButAt(states, j - 1, t);
      KeptOnce(states, j - 1, t);
      SameBatchTrans(states[i], states[j - 1], states[j], t);
    }
  }

  /** The log has failed, and from one state to the other nothing was written, forced or
      staged, and every reply was a refusal. */
  ghost predicate Dead(s: State, s': State) {
    && s.failed && s'.failed && s'.file == s.file && s'.forced == s.forced && s'.staged == s.staged
    && |s.replies| <= |s'.replies| && s'.replies[..|s.replies|] == s.replies
    && forall k | |s.replies| <= k < |s'.replies| :: s'.replies[k] == Refused
  }

  lemma StaysFailed(s: State, e: Event)
    requires Inv(s) && Enabled(s, e) && s.failed
    ensures var s' := Next(s, e);
            && s'.failed && s'.file == s.file && s'.forced == s.forced && s'.staged == s.staged
            && (s'.replies == s.replies || s'.replies == s.replies + [Refused])
  {
  }

  lemma StepStaysFailed(s: State, s': State)
    requires Inv(s) && Step(s, s') && s.failed
    ensures Dead(s, s')
  {
    var e :| Enabled(s, e) && s' == Next(s, e);
    StaysFailed(s, e);
  }

  lemma FailedOnce(states: seq<State>, i: nat)
    requires Run(states) && i + 1 < |states| && states[i].failed
    ensures Dead(states[i], states[i + 1])
  {
    RunInv(states, i);
    assert StepAt(states, i);
    StepStaysFailed(states[i], states[i + 1]);
  }

  lemma DeadTrans(a: State, b: State, c: State)
    requires Dead(a, b) && Dead(b, c)
    ensures Dead(a, c)
  {
    assert c.replies[..|a.replies|] == c.replies[..|b.replies|][..|a.replies|];
    forall k | |a.replies| <= k < |c.replies| ensures c.replies[k] == Refused {
      assert k < |b.replies| ==> c.replies[k] == c.replies[..|b.replies|][k];
    }
  }

  /** Once a write has failed, for the rest of the run nothing succeeds, nothing is
      staged, and the file stays as it is. */
  lemma {:induction false} FailureIsFinal(states: seq<State>, i: nat, j: nat)
    requires Run(states) && i <= j < |states| && states[i].failed
    ensures Dead(states[i], states[j])
  {
    if i < j {
      FailureIsFinal(states, i, j - 1);
      FailedOnce(states, j - 1);
      DeadTrans(states[i], states[j - 1], states[j]);
    }
  }

  // ----------------------------------------------------------------------- progress

  /** Events of calls already made, as opposed to new calls and policy changes. */
  predicate Internal(e: Event) {
    e.Wake? || e.Write? || e.WriteFails? || e.Force? || e.Finish?
  }

  ghost function Calls(s: State): nat {
    |s.sleeping| + |s.woken| + |s.flights|
  }

  ghost function Backlog(s: State): nat {
    if s.pending.len > 0 then 1 else 0
  }

  ghost function Left(f: Flight): int {
    if f.outcome == Running then f.batch.len - f.done + 2 else 1
  }

  ghost function Work(flights: map<nat, Flight>): int {
    if flights == map[] then 0 else var t :| t in flights; Left(flights[t])
  }

  /** No wakeup is lost and nothing is stuck: while any call is outstanding some
      thread can go on. */
  lemma NeverStuck(s: State) returns (e: Event)
    requires Inv(s) && Calls(s) > 0
    ensures Enabled(s, e) && Internal(e)
  {
    if s.flights != map[] {
      var t :| t in s.flights;
      assert Flying(s.mem, s.pending, s.offset - s.base, s.flights[t], s.file, s.staged);
      var f := s.flights[t];
      e := if Complete(f) then Finish(t, true)
           else if f.done < f.batch.len then Write(t, 1)
           else Force(t, true);
    } else {
      assert s.woken != map[];
      var t :| t in s.woken;
      e := Wake(t, true);
    }
  }

  /** Lexicographic order on what is left to do. */
  ghost predicate Fewer(s': State, s: State) {
    || Calls(s') < Calls(s)
    || (Calls(s') == Calls(s) && Backlog(s') < Backlog(s))
    || (Calls(s') == Calls(s) && Backlog(s') == Backlog(s) && Work(s'.flights) < Work(s.flights))
    || (Calls(s') == Calls(s) && Backlog(s') == Backlog(s) && Work(s'.flights) == Work(s.flights) && |s'.woken| < |s.woken|)
  }

  lemma SleepMoves(s: State, t: nat, task: Task)
    requires !Busy(s, t)
    ensures Calls(Sleep(s, t, task)) == Calls(s) + 1 && Sleep(s, t, task).replies == s.replies
  {
  }

  lemma FlushMoves(s: State, t: nat, task: Task)
    requires !Busy(s, t)
    ensures Calls(StartFlush(s, t, task)) == Calls(s) + 1 && Backlog(StartFlush(s, t, task)) == 0
  {
  }

  /** A thread at the head of its loop answers, sleeps behind a flush, or takes the
      backlog into flight. */
  lemma ResumeMoves(s: State, t: nat, task: Task, ok: bool)
    requires !Busy(s, t)
    requires !s.failed && !s.flushing && task.Appending? && s.offset < task.target ==> s.pending.len > 0
    ensures var s' := Resume(s, t, task, ok);
            && |s'.replies| + Calls(s') == |s.replies| + Calls(s) + 1
            && (|| Calls(s') == Calls(s)
                || (Calls(s') == Calls(s) + 1 && Backlog(s') < Backlog(s))
                || (s.flushing && Calls(s') == Calls(s) + 1 && s'.woken == s.woken && s'.flights == s.flights
                    && Backlog(s') == Backlog(s)))
  {
    var s' := Resume(s, t, task, ok);
    if s' == Sleep(s, t, task) {
      SleepMoves(s, t, task);
    } else if s' == StartFlush(s, t, task) {
      FlushMoves(s, t, task);
    }
  }

  lemma ReadyBacklog(s: State, t: nat, task: Task)
    requires Ready(s, t, task)
    ensures !s.failed && !s.flushing && task.Appending? && s.offset < task.target ==> s.pending.len > 0
  {
  }

  lemma LandedCalls(s: State, t: nat, s1: State)
    requires Inv(s) && t in s.flights && s1 == Landed(s, t)
    ensures Calls(s1) == Calls(s) - 1 && Backlog(s1) == Backlog(s)
  {
    LandWaiting(s, t, s1);
    UnionSize(s.woken, s.sleeping);
    assert s.flights == (s.flights - {t})[t := s.flights[t]];
  }

  lemma WakeMoves(s: State, t: nat, ok: bool)
    requires Inv(s) && t in s.woken
    ensures var s' := Resume(Up(s, t), t, s.woken[t], ok);
            Fewer(s', s) && |s'.replies| + Calls(s') == |s.replies| + Calls(s)
  {
    UpReady(s, t);
    ReadyBacklog(Up(s, t), t, s.woken[t]);
    assert s.woken == Up(s, t).woken[t := s.woken[t]];
    ResumeMoves(Up(s, t), t, s.woken[t], ok);
  }

  lemma FinishMoves(s: State, t: nat, ok: bool)
    requires Inv(s) && t in s.flights && Complete(s.flights[t])
    ensures var s' := Finished(s, t, ok);
            Fewer(s', s) && |s'.replies| + Calls(s') == |s.replies| + Calls(s)
  {
    var s1 := Landed(s, t);
    LandedCalls(s, t, s1);
    if !Failing(s.flights[t]) {
      LandedInv(s, t, s1);
      ReadyBacklog(s1, t, s.flights[t].task);
      ResumeMoves(s1, t, s.flights[t].task, ok);
    }
  }

  /** Only the flight of the one writing thread has changed, and has less left. */
  lemma FlightMoves(s: State, s': State, t: nat)
    requires OneFlight(s.flushing, s.flights) && t in s.flights && t in s'.flights
    requires s'.flights == s.flights[t := s'.flights[t]] && Left(s'.flights[t]) < Left(s.flights[t])
    requires s'.sleeping == s.sleeping && s'.woken == s.woken && s'.pending == s.pending
    ensures Fewer(s', s) && Calls(s') == Calls(s)
  {
    assert s.flights.Keys == {t} && s'.flights.Keys == {t};
  }

  /** Every event of an outstanding call leaves less to do, and answers exactly the
      calls it ends. */
  lemma InternalMoves(s: State, e: Event)
    requires Inv(s) && Enabled(s, e) && Internal(e)
    ensures Fewer(Next(s, e), s)
    ensures |Next(s, e).replies| + Calls(Next(s, e)) == |s.replies| + Calls(s)
  {
    match e
    case Wake(t, ok) => WakeMoves(s, t, ok);
    case Finish(t, ok) => FinishMoves(s, t, ok);
    case Write(t, _) => FlightMoves(s, Next(s, e), t);
    case WriteFails(t) =>
      assert Flying(s.mem, s.pending, s.offset - s.base, s.flights[t], s.file, s.staged);
      FlightMoves(s, Next(s, e), t);
    case Force(t, _) => FlightMoves(s, Next(s, e), t);
  }

  lemma WorkNat(s: State)
    requires Inv(s)
    ensures Work(s.flights) >= 0
  {
    if s.flights != map[] {
      var t :| t in s.flights;
      assert Flying(s.mem, s.pending, s.offset - s.base, s.flights[t], s.file, s.staged);
    }
  }

  /** The state after the outstanding calls have run by themselves under a schedule.
      Whoever is scheduled, and however writes and forces turn out, this comes to an
      end with every outstanding call answered: no appender or drainer sleeps for
      ever. */
  ghost function Drained(s: State, schedule: State -> Event): (last: State)
    requires Inv(s)
    requires forall x | Inv(x) && Calls(x) > 0 :: Enabled(x, schedule(x)) && Internal(schedule(x))
    ensures Inv(last) && Calls(last) == 0
    ensures |last.replies| == |s.replies| + Calls(s)
    decreases Calls(s), Backlog(s), Work(s.flights), |s.woken|
  {
    if Calls(s) == 0 then s
    else
      WorkNat(s);
      InternalMoves(s, schedule(s));
      NextInv(s, schedule(s));
      Drained(Next(s, schedule(s)), schedule)
  }
}
