/** Calls that succeed are reported as successes.  In a run in which no write and no
    force fails, nothing is ever refused, and every append and sync is answered by its
    own success, under every policy. */
module GroupCommitSuccess {
  import opened Bytes
  import opened GroupCommit
  import opened GroupCommitProof

  /** An event in which the file system does what it is asked to. */
  predicate Sound(e: Event) {
    match e
    case CallSync(_, ok) => ok
    case Wake(_, ok) => ok
    case Force(_, ok) => ok
    case Finish(_, ok) => ok
    case WriteFails(_) => false
    case _ => true
  }

  /** Nothing has failed. */
  ghost predicate Well(s: State) {
    && !s.failed
    && (forall t | t in s.flights :: s.flights[t].outcome == Running || s.flights[t].outcome == Forced)
    && (forall r | r in s.replies :: r != Refused)
  }

  /** The success a call is waiting for. */
  predicate Success(task: Task, r: Reply) {
    match task
    case Appending(at, _, frame) => r == Appended(at, frame)
    case Syncing(since) => r.Synced? && r.since == since
  }

  function TaskOf(s: State, t: nat): Task
    requires Busy(s, t)
  {
    if t in s.sleeping then s.sleeping[t] else if t in s.woken then s.woken[t] else s.flights[t].task
  }

  /** Thread t's call is still waiting, or has just been answered with success. */
  ghost predicate Served(s: State, s': State, t: nat, task: Task) {
    if Busy(s', t) then TaskOf(s', t) == task && s'.replies == s.replies
    else exists r :: s'.replies == s.replies + [r] && Success(task, r)
  }

  /** Another thread's call goes on as it was. */
  ghost predicate Untouched(s: State, s': State, t: nat) {
    Busy(s, t) ==> Busy(s', t) && TaskOf(s', t) == TaskOf(s, t)
  }

  // ------------------------------------------------------------- one event at a time

  lemma AnswerServes(s: State, s': State, t: nat, task: Task, r: Reply, other: nat)
    requires Well(s) && !Busy(s, t) && s'.replies == s.replies + [r] && Success(task, r) && !s'.failed
    requires s'.sleeping == s.sleeping && s'.woken == s.woken && s'.flights == s.flights
    ensures Well(s') && Served(s, s', t, task) && Untouched(s, s', other)
  {
  }

  lemma SleepServes(s: State, t: nat, task: Task, other: nat)
    requires Well(s) && !Busy(s, t)
    ensures Well(Sleep(s, t, task)) && Served(s, Sleep(s, t, task), t, task)
    ensures other != t ==> Untouched(s, Sleep(s, t, task), other)
  {
  }

  lemma FlushServes(s: State, t: nat, task: Task, other: nat)
    requires Well(s) && !Busy(s, t)
    ensures Well(StartFlush(s, t, task)) && Served(s, StartFlush(s, t, task), t, task)
    ensures other != t ==> Untouched(s, StartFlush(s, t, task), other)
  {
  }

  lemma ResumeServes(s: State, t: nat, task: Task, other: nat)
    requires Well(s) && !Busy(s, t)
    ensures var s' := Resume(s, t, task, true);
            Well(s') && Served(s, s', t, task) && (other != t ==> Untouched(s, s', other))
  {
    if task.Appending? && s.offset >= task.target {
      AnswerServes(s, Resume(s, t, task, true), t, task, Appended(task.at, task.frame), other);
    } else if s.flushing {
      SleepServes(s, t, task, other);
    } else if task.Syncing? && s.pending.len == 0 {
      AnswerServes(s, Resume(s, t, task, true), t, task, Synced(task.since, s.assignedTo), other);
    } else {
      FlushServes(s, t, task, other);
    }
  }

  lemma CommitServes(s: State, t: nat, task: Task, other: nat)
    requires Well(s) && !Busy(s, t)
    ensures var s' := Commit(s, t, task);
            Well(s') && Served(s, s', t, task) && (other != t ==> Untouched(s, s', other))
  {
    if s.flushing || s.waiters != 0 {
      ResumeServes(s, t, task, other);
    } else {
      FlushServes(s, t, task, other);
    }
  }

  lemma StageServes(s: State, t: nat, frame: bytes, slack: bytes, other: nat)
    requires Sized(s) && Well(s) && !Busy(s, t)
    ensures var s' := Stage(s, t, frame, slack);
            && Well(s') && Served(s, s', t, Appending(s.assignedTo, s.assignedTo + |frame|, frame))
            && (other != t ==> Untouched(s, s', other))
  {
    StageIs(s, t, frame, slack);
    CommitServes(Staged(s, frame, slack), t, Appending(s.assignedTo, s.assignedTo + |frame|, frame), other);
  }

  lemma UpWell(s: State, t: nat, other: nat)
    requires Inv(s) && Well(s) && t in s.woken
    ensures Well(Up(s, t)) && !Busy(Up(s, t), t) && Up(s, t).replies == s.replies
    ensures other != t ==> Untouched(s, Up(s, t), other)
  {
  }

  lemma WakeServes(s: State, t: nat, other: nat)
    requires Inv(s) && Well(s) && t in s.woken
    ensures var s' := Resume(Up(s, t), t, s.woken[t], true);
            Well(s') && Served(s, s', t, s.woken[t]) && (other != t ==> Untouched(s, s', other))
  {
    UpWell(s, t, other);
    ResumeServes(Up(s, t), t, s.woken[t], other);
  }

  lemma LandedWell(s: State, t: nat, other: nat)
    requires Inv(s) && Well(s) && t in s.flights
    ensures Well(Landed(s, t)) && !Busy(Landed(s, t), t) && Landed(s, t).replies == s.replies
    ensures other != t ==> Untouched(s, Landed(s, t), other)
  {
    var s1 := Landed(s, t);
    assert s.flights.Keys == {t};
    LandWaiting(s, t, s1);
    assert other in s1.woken <==> other in s.woken || other in s.sleeping;
  }

  lemma FinishServes(s: State, t: nat, other: nat)
    requires Inv(s) && Well(s) && t in s.flights
    ensures var s' := Finished(s, t, true);
            Well(s') && Served(s, s', t, s.flights[t].task) && (other != t ==> Untouched(s, s', other))
  {
    LandedWell(s, t, other);
    ResumeServes(Landed(s, t), t, s.flights[t].task, other);
  }

  lemma WritesOn(s: State, e: Event, other: nat)
    requires Well(s) && Enabled(s, e) && (e.Write? || e.SetFsync? || (e.Force? && e.ok))
    ensures Well(Next(s, e)) && Untouched(s, Next(s, e), other)
  {
  }

  /** Nothing fails; whoever acts is served, and the others go on waiting. */
  lemma SoundServes(s: State, e: Event, t: nat)
    requires Inv(s) && Well(s) && Enabled(s, e) && Sound(e)
    ensures Well(Next(s, e))
    ensures Busy(s, t) ==> Untouched(s, Next(s, e), t) || Served(s, Next(s, e), t, TaskOf(s, t))
  {
    match e
    case CallAppend(u, frame, slack) => StageServes(s, u, frame, slack, t);
    case CallSync(u, ok) => ResumeServes(s, u, Syncing(s.assignedTo), t);
    case Wake(u, ok) => WakeServes(s, u, t);
    case Finish(u, ok) => FinishServes(s, u, t);
    case _ => WritesOn(s, e, t);
  }

  // ---------------------------------------------------------------------- whole runs

  /** The i-th step of a run in which nothing fails. */
  ghost predicate SoundAt(states: seq<State>, events: seq<Event>, i: nat) {
    && i < |events| && i + 1 < |states|
    && Enabled(states[i], events[i]) && Sound(events[i]) && states[i + 1] == Next(states[i], events[i])
  }

  ghost predicate SoundRun(states: seq<State>, events: seq<Event>) {
    |states| == |events| + 1 && Open(states[0]) && forall i | 0 <= i < |events| :: SoundAt(states, events, i)
  }

  /** Nothing is refused: as long as no write and no force fails, the log is usable and
      every reply so far is a success. */
  lemma NothingRefused(states: seq<State>, events: seq<Event>, i: nat)
    requires SoundRun(states, events) && i < |states|
    ensures Inv(states[i]) && !states[i].failed && forall r | r in states[i].replies :: r != Refused
    ensures Well(states[i])
  {
    OpenInv(states[0]);
    for k := 0 to i
      invariant Inv(states[k]) && Well(states[k])
    {
      assert SoundAt(states, events, k);
      NextInv(states[k], events[k]);
      SoundServes(states[k], events[k], 0);
    }
  }

  /** What a call asks for. */
  function Asked(s: State, e: Event): Task
    requires e.CallAppend? || e.CallSync?
  {
    if e.CallAppend? then Appending(s.assignedTo, s.assignedTo + |e.frame|, e.frame) else Syncing(s.assignedTo)
  }

  lemma CallServed(s: State, e: Event)
    requires Inv(s) && Well(s) && Enabled(s, e) && Sound(e) && (e.CallAppend? || e.CallSync?)
    ensures Served(s, Next(s, e), e.thread, Asked(s, e))
  {
    match e
    case CallAppend(t, frame, slack) => StageServes(s, t, frame, slack, t);
    case CallSync(t, ok) => ResumeServes(s, t, Syncing(s.assignedTo), t);
  }

  /** Thread t's call is outstanding from state i on up to state j. */
  ghost predicate Outstanding(states: seq<State>, t: nat, i: nat, j: nat) {
    j <= |states| && forall k | i <= k < j :: Busy(states[k], t)
  }

  lemma WaitsOn(states: seq<State>, events: seq<Event>, t: nat, i: nat)
    requires SoundRun(states, events) && i < |events| && Busy(states[i], t) && Busy(states[i + 1], t)
    ensures TaskOf(states[i + 1], t) == TaskOf(states[i], t)
  {
    NothingRefused(states, events, i);
    assert SoundAt(states, events, i);
    SoundServes(states[i], events[i], t);
  }

  lemma StillWaiting(states: seq<State>, events: seq<Event>, t: nat, i: nat, j: nat)
    requires SoundRun(states, events) && i <= j < |states| && Outstanding(states, t, i, j + 1)
    ensures TaskOf(states[j], t) == TaskOf(states[i], t)
  {
    for k := i to j
      invariant TaskOf(states[k], t) == TaskOf(states[i], t)
    {
      WaitsOn(states, events, t, k);
    }
  }

  lemma ServedAtOnce(states: seq<State>, events: seq<Event>, i: nat)
    requires SoundRun(states, events) && i < |events| && (events[i].CallAppend? || events[i].CallSync?)
    ensures Served(states[i], states[i + 1], events[i].thread, Asked(states[i], events[i]))
  {
    NothingRefused(states, events, i);
    assert SoundAt(states, events, i);
    CallServed(states[i], events[i]);
  }

  lemma ServedLater(states: seq<State>, events: seq<Event>, t: nat, i: nat, j: nat, task: Task)
    requires SoundRun(states, events) && i <= j < |events| && Outstanding(states, t, i, j + 1) && !Busy(states[j + 1], t)
    requires Busy(states[i], t) && TaskOf(states[i], t) == task
    ensures Served(states[j], states[j + 1], t, task)
  {
    StillWaiting(states, events, t, i, j);
    NothingRefused(states, events, j);
    assert SoundAt(states, events, j) && Busy(states[j], t);
    SoundServes(states[j], events[j], t);
  }

  /** The answer to a call. */
  ghost predicate Answers(s: State, e: Event, s': State, r: Reply)
    requires e.CallAppend? || e.CallSync?
  {
    && (e.CallAppend? ==> r == Appended(s.assignedTo, e.frame))
    && (e.CallSync? ==> r.Synced? && s.assignedTo <= r.upto <= s'.base + s'.forced)
  }

  lemma ReplyKept(states: seq<State>, events: seq<Event>, i: nat, r: Reply)
    requires SoundRun(states, events) && i < |states| && r in states[i].replies
    ensures Kept(states[i].base, states[i].file, states[i].forced, states[i].relaxed, r)
  {
    NothingRefused(states, events, i);
  }

  /** Every call is answered by its own success.  Made in step i and outstanding until
      step j, an append is answered then by the offset that was assigned to it and its
      frame, a sync by having forced at least all that had been staged when it was made;
      under every policy and however the calls interleave. */
  lemma AnsweredRight(states: seq<State>, events: seq<Event>, t: nat, i: nat, j: nat) returns (r: Reply)
    requires SoundRun(states, events) && i <= j < |events| && (events[i].CallAppend? || events[i].CallSync?)
    requires events[i].thread == t && Outstanding(states, t, i + 1, j + 1) && !Busy(states[j + 1], t)
    ensures states[j + 1].replies == states[j].replies + [r]
    ensures Answers(states[i], events[i], states[j + 1], r)
  {
    var task := Asked(states[i], events[i]);
    ServedAtOnce(states, events, i);
    if i < j {
      assert Busy(states[i + 1], t);
      ServedLater(states, events, t, i + 1, j, task);
    }
    r :| states[j + 1].replies == states[j].replies + [r] && Success(task, r);
    assert r in states[j + 1].replies;
    ReplyKept(states, events, j + 1, r);
  }

  // ------------------------------------------------------------------ and it is answered

  /** Of the calls outstanding in `s`, thread t's has succeeded by `last`. */
  ghost predicate Succeeded(s: State, last: State, t: nat) {
    Busy(s, t) ==> exists k :: |s.replies| <= k < |last.replies| && Success(TaskOf(s, t), last.replies[k])
  }

  lemma SucceededBack(s: State, s': State, last: State, t: nat)
    requires Untouched(s, s', t) || (Busy(s, t) && Served(s, s', t, TaskOf(s, t)))
    requires s.replies <= s'.replies <= last.replies && Succeeded(s', last, t)
    ensures Succeeded(s, last, t)
  {
    if Busy(s, t) && !Busy(s', t) {
      var r :| s'.replies == s.replies + [r] && Success(TaskOf(s, t), r);
      var k := |s.replies|;
      assert last.replies[k] == s'.replies[k] == r;
    }
  }

  lemma ResumeGrows(s: State, t: nat, task: Task, ok: bool)
    ensures s.replies <= Resume(s, t, task, ok).replies
  {
  }

  lemma InternalGrows(s: State, e: Event)
    requires Enabled(s, e) && Internal(e)
    ensures s.replies <= Next(s, e).replies
  {
    match e
    case Wake(t, ok) => ResumeGrows(Up(s, t), t, s.woken[t], ok);
    case Finish(t, ok) => ResumeGrows(Landed(s, t), t, s.flights[t].task, ok);
    case _ =>
  }

  /** Under every schedule in which nothing fails, every outstanding call is answered by
      its own success; no reply is a refusal, and there are as many as there were calls. */
  lemma {:induction false} DrainSucceeds(s: State, schedule: State -> Event, t: nat)
    requires Inv(s) && Well(s)
    requires forall x | Inv(x) && Calls(x) > 0 :: Enabled(x, schedule(x)) && Internal(schedule(x))
    requires forall x | Inv(x) && Calls(x) > 0 :: Sound(schedule(x))
    ensures var last := Drained(s, schedule);
            && Well(last) && |last.replies| == |s.replies| + Calls(s)
            && s.replies <= last.replies && Succeeded(s, last, t)
    decreases Calls(s), Backlog(s), Work(s.flights), |s.woken|
  {
    if Calls(s) > 0 {
      var e := schedule(s);
      WorkNat(s);
      InternalMoves(s, e);
      NextInv(s, e);
      SoundServes(s, e, t);
      InternalGrows(s, e);
      DrainSucceeds(Next(s, e), schedule, t);
      SucceededBack(s, Next(s, e), Drained(s, schedule), t);
    }
  }
}
