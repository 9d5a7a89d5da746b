/** Group commit on one log segment (persist/log.go): appenders stage frames in a
    shared buffer, and whichever of them finds no flush running writes the whole
    buffer with the lock released.

    Everything done while the segment's mutex is held is one event.  The mutex is
    given up in two places only, waiting on the condition variable and writing a
    batch, so those are the places where other threads' events come between; a write
    moreover copies the batch piece by piece, so that anything which overwrote the
    buffer in the meantime would reach the file. */
module GroupCommit {
  import opened Bytes

  datatype Fsync = EverySec | Always | No

  /** A Go slice from the start of a buffer. */
  datatype Slice = Slice(buf: nat, len: nat)

  /** What a call is waiting to finish.  `since`, how much had been staged when a sync was
      called, is history. */
  datatype Task =
    | Appending(at: nat, target: nat, frame: bytes)
    | Syncing(since: nat)

  datatype Outcome = Running | WriteFailed | Forced | ForceFailed

  /** A batch being written by flushLocked while the lock is released. */
  datatype Flight = Flight(task: Task, batch: Slice, policy: Fsync, end: nat, done: nat, outcome: Outcome)

  datatype Reply =
    | Appended(at: nat, frame: bytes)
    | Synced(since: nat, upto: nat)
    | Refused

  /** The segment, the memory behind its buffers, its file, and the calls under way.
      Buffer 0 is the nil slice.  `file` is the log stream from `base`; `forced` is
      how much of it has been forced to stable storage.  `staged` (every byte ever
      staged), `relaxed` (the policy has been other than `always`) and `replies` are
      history. */
  datatype State = State(
    mem: seq<bytes>, pending: Slice, spare: Slice,
    base: nat, assignedTo: nat, offset: nat,
    flushing: bool, waiters: int, failed: bool, dirty: bool, policy: Fsync,
    file: bytes, forced: nat,
    sleeping: map<nat, Task>, woken: map<nat, Task>, flights: map<nat, Flight>,
    staged: bytes, relaxed: bool, replies: seq<Reply>)

  datatype Event =
    | CallAppend(thread: nat, frame: bytes, slack: bytes)
    | CallSync(thread: nat, ok: bool)
    | Wake(thread: nat, ok: bool)
    | Write(thread: nat, n: nat)
    | WriteFails(thread: nat)
    | Force(thread: nat, ok: bool)
    | Finish(thread: nat, ok: bool)
    | SetFsync(to: Fsync)

  ghost predicate Open(s: State) {
    && s.mem == [[]] && s.pending == s.spare == Slice(0, 0)
    && s.assignedTo == s.offset == s.base + |s.file|
    && !s.flushing && s.waiters == 0 && !s.failed && !s.dirty
    && s.forced == |s.file| && s.staged == s.file
    && s.sleeping == map[] && s.woken == map[] && s.flights == map[]
    && s.relaxed == (s.policy != Always) && s.replies == []
  }

  predicate Busy(s: State, t: nat) {
    t in s.sleeping || t in s.woken || t in s.flights
  }

  predicate Sized(s: State) {
    && s.pending.buf < |s.mem| && s.pending.len <= |s.mem[s.pending.buf]|
    && s.spare.buf < |s.mem| && s.spare.len == 0
    && (forall t | t in s.flights ::
          s.flights[t].batch.buf < |s.mem| && s.flights[t].batch.len <= |s.mem[s.flights[t].batch.buf]|)
  }

  predicate Complete(f: Flight) {
    match f.outcome
    case Running => f.done == f.batch.len && f.policy != Always
    case _ => true
  }

  predicate Enabled(s: State, e: Event) {
    Sized(s) &&
    match e
    case CallAppend(t, frame, _) => !Busy(s, t) && frame != []
    case CallSync(t, _) => !Busy(s, t)
    case Wake(t, _) => t in s.woken
    case Write(t, n) =>
      t in s.flights && s.flights[t].outcome == Running && 0 < n && s.flights[t].done + n <= s.flights[t].batch.len
    case WriteFails(t) => t in s.flights && s.flights[t].outcome == Running
    case Force(t, _) =>
      t in s.flights && s.flights[t].outcome == Running && s.flights[t].done == s.flights[t].batch.len
      && s.flights[t].policy == Always
    case Finish(t, _) => t in s.flights && Complete(s.flights[t])
    case SetFsync(_) => true
  }

  /** The bytes of a slice. */
  function View(mem: seq<bytes>, sl: Slice): bytes
    requires sl.buf < |mem| && sl.len <= |mem[sl.buf]|
  {
    mem[sl.buf][..sl.len]
  }

  /** Go's append: in place when the buffer has room, into a new buffer (with
      whatever slack the runtime allots) when it has not. */
  function Extend(mem: seq<bytes>, sl: Slice, frame: bytes, slack: bytes): (seq<bytes>, Slice)
    requires sl.buf < |mem| && sl.len <= |mem[sl.buf]|
  {
    var n := sl.len + |frame|;
    if n <= |mem[sl.buf]| then
      (mem[sl.buf := View(mem, sl) + frame + mem[sl.buf][n..]], Slice(sl.buf, n))
    else
      (mem + [View(mem, sl) + frame + slack], Slice(|mem|, n))
  }

  function Answer(s: State, r: Reply): State {
    s.(replies := s.replies + [r])
  }

  /** The first half of flushLocked, up to releasing the lock. */
  function StartFlush(s: State, t: nat, task: Task): State {
    s.(flights := s.flights[t := Flight(task, s.pending, s.policy, s.offset + s.pending.len, 0, Running)],
       pending := Slice(s.spare.buf, 0),
       flushing := true)
  }

  function Sleep(s: State, t: nat, task: Task): State {
    s.(waiters := s.waiters + 1, sleeping := s.sleeping[t := task])
  }

  /** The tail of syncLocked, reached with nothing staged or in flight. */
  function Sync(s: State, since: nat, ok: bool): State {
    if !s.dirty then Answer(s, Synced(since, s.assignedTo))
    else if ok then Answer(s.(forced := |s.file|, dirty := false), Synced(since, s.assignedTo))
    else Answer(s.(failed := true), Refused)
  }

  /** The loop of stageLocked or of drainLocked, from its head until the thread
      gives up the lock or returns. */
  function Resume(s: State, t: nat, task: Task, ok: bool): State {
    if s.failed then Answer(s, Refused)
    else match task
      case Appending(at, target, frame) =>
        if s.offset >= target then Answer(s, Appended(at, frame))
        else if s.flushing then Sleep(s, t, task)
        else StartFlush(s, t, task)
      case Syncing(since) =>
        if s.flushing then Sleep(s, t, task)
        else if s.pending.len == 0 then Sync(s, since, ok)
        else StartFlush(s, t, task)
  }

  /** The frame joins the pending batch and takes the next offsets. */
  function Staged(s: State, frame: bytes, slack: bytes): State
    requires s.pending.buf < |s.mem| && s.pending.len <= |s.mem[s.pending.buf]|
  {
    var (mem, pending) := Extend(s.mem, s.pending, frame, slack);
    s.(mem := mem, pending := pending, assignedTo := s.assignedTo + |frame|, staged := s.staged + frame)
  }

  /** Append: refused on a failed log, otherwise staged; with nothing in flight and
      nobody waiting the appender writes it at once. */
  function Stage(s: State, t: nat, frame: bytes, slack: bytes): State
    requires Sized(s)
  {
    if s.failed then Answer(s, Refused)
    else Commit(Staged(s, frame, slack), t, Appending(s.assignedTo, s.assignedTo + |frame|, frame))
  }

  function Commit(s: State, t: nat, task: Task): State {
    if !s.flushing && s.waiters == 0 then StartFlush(s, t, task) else Resume(s, t, task, true)
  }

  predicate Failing(f: Flight) {
    f.outcome == WriteFailed || f.outcome == ForceFailed
  }

  /** The second half of flushLocked: buffers swapped back, waiters woken, the offset
      moved unless the write failed, a failure recorded for good. */
  function Landed(s: State, t: nat): State
    requires t in s.flights
  {
    var f, wake := s.flights[t], s.waiters > 0;
    s.(flights := s.flights - {t},
       flushing := false,
       spare := Slice(f.batch.buf, 0),
       woken := if wake then s.woken + s.sleeping else s.woken,
       sleeping := if wake then map[] else s.sleeping,
       offset := if f.outcome == WriteFailed then s.offset else f.end,
       failed := s.failed || Failing(f),
       dirty := if Failing(f) then s.dirty else f.policy != Always)
  }

  function Finished(s: State, t: nat, ok: bool): State
    requires t in s.flights
  {
    if Failing(s.flights[t]) then Answer(Landed(s, t), Refused)
    else Resume(Landed(s, t), t, s.flights[t].task, ok)
  }

  /** Returning from Wait: the lock is held again and the count corrected. */
  function Up(s: State, t: nat): State {
    s.(woken := s.woken - {t}, waiters := s.waiters - 1)
  }

  /** The next n bytes of the batch reach the file. */
  function Wrote(s: State, t: nat, n: nat): State
    requires t in s.flights && s.flights[t].batch.buf < |s.mem|
    requires s.flights[t].done + n <= s.flights[t].batch.len <= |s.mem[s.flights[t].batch.buf]|
  {
    var f := s.flights[t];
    s.(file := s.file + s.mem[f.batch.buf][f.done..f.done + n], flights := s.flights[t := f.(done := f.done + n)])
  }

  function Next(s: State, e: Event): State
    requires Enabled(s, e)
  {
    match e
    case CallAppend(t, frame, slack) => Stage(s, t, frame, slack)
    case CallSync(t, ok) => Resume(s, t, Syncing(s.assignedTo), ok)
    case Wake(t, ok) => Resume(Up(s, t), t, s.woken[t], ok)
    case Write(t, n) => Wrote(s, t, n)
    case WriteFails(t) => s.(flights := s.flights[t := s.flights[t].(outcome := WriteFailed)])
    case Force(t, ok) =>
      s.(flights := s.flights[t := s.flights[t].(outcome := if ok then Forced else ForceFailed)],
         forced := if ok then |s.file| else s.forced)
    case Finish(t, ok) => Finished(s, t, ok)
    case SetFsync(p) => s.(policy := p, relaxed := s.relaxed || p != Always)
  }

  /** A run: a sequence of states, each an event after the one before. */
  ghost predicate Step(s: State, s': State) {
    exists e :: Enabled(s, e) && s' == Next(s, e)
  }

  ghost predicate StepAt(states: seq<State>, i: nat) {
    i + 1 < |states| && Step(states[i], states[i + 1])
  }

  ghost predicate Run(states: seq<State>) {
    && states != []
    && Open(states[0])
    && (forall i | 0 <= i < |states| - 1 :: StepAt(states, i))
  }

  // -------------------------------------------------------------------- invariants

  /** At most one flush is in flight, and `flushing` says so. */
  ghost predicate OneFlight(flushing: bool, flights: map<nat, Flight>) {
    && (flushing <==> flights != map[])
    && (forall t, u | t in flights && u in flights :: t == u)
  }

  ghost predicate Within(mem: seq<bytes>, sl: Slice) {
    sl.buf < |mem| && sl.len <= |mem[sl.buf]|
  }

  /** The two buffers never share memory: what is staged next cannot reach the batch
      in flight. */
  ghost predicate Apart(mem: seq<bytes>, pending: Slice, spare: Slice, flights: map<nat, Flight>) {
    && Within(mem, pending) && Within(mem, spare) && spare.len == 0 && mem[0] == []
    && (forall t | t in flights ::
          Within(mem, flights[t].batch) && flights[t].batch.len > 0 && flights[t].batch.buf != pending.buf)
    && (flights == map[] && pending.buf != 0 ==> pending.buf != spare.buf)
  }

  /** Nothing in flight: the file and then the staged batch are what was staged. */
  ghost predicate Settled(mem: seq<bytes>, pending: Slice, file: bytes, staged: bytes) {
    Within(mem, pending) && staged == file + View(mem, pending)
  }

  /** One batch in flight: the file holds everything before it and the part of it
      written so far. */
  ghost predicate Flying(mem: seq<bytes>, pending: Slice, done: nat, f: Flight, file: bytes, staged: bytes) {
    && Within(mem, pending) && Within(mem, f.batch) && f.done <= f.batch.len && f.done <= |file|
    && done + f.done == |file|
    && file == file[..done] + mem[f.batch.buf][..f.done]
    && staged == file[..done] + View(mem, f.batch) + View(mem, pending)
  }

  /** The file followed by the batch in flight and the batch being staged is what was
      staged, in order; `done` bytes of it are in completed batches. */
  ghost predicate Stream(mem: seq<bytes>, pending: Slice, flights: map<nat, Flight>, done: int, failed: bool, file: bytes,
                         staged: bytes) {
    && 0 <= done <= |file|
    && (failed ==> flights == map[] && file <= staged)
    && (!failed && flights == map[] ==> done == |file| && Settled(mem, pending, file, staged))
    && (forall t | t in flights :: Flying(mem, pending, done, flights[t], file, staged))
  }

  /** A flight ends where it should, and is forced only when it is complete. */
  ghost predicate Flights(flights: map<nat, Flight>, offset: nat) {
    forall t | t in flights ::
      && flights[t].end == offset + flights[t].batch.len
      && (flights[t].outcome == Forced || flights[t].outcome == ForceFailed ==>
            flights[t].done == flights[t].batch.len && flights[t].policy == Always)
      && (flights[t].task.Appending? ==> flights[t].task.target <= flights[t].end)
  }

  ghost predicate Holds(base: nat, staged: bytes, at: nat, frame: bytes) {
    base <= at && at + |frame| <= base + |staged| && staged[at - base..at - base + |frame|] == frame
  }

  /** A call's frame was staged where its reply will say. */
  ghost predicate TaskOk(base: nat, staged: bytes, task: Task) {
    match task
    case Appending(at, target, frame) => frame != [] && target == at + |frame| && Holds(base, staged, at, frame)
    case Syncing(since) => since <= base + |staged|
  }

  ghost predicate Tasks(base: nat, staged: bytes, sleeping: map<nat, Task>, woken: map<nat, Task>, flights: map<nat, Flight>) {
    && (forall t | t in sleeping :: TaskOk(base, staged, sleeping[t]))
    && (forall t | t in woken :: TaskOk(base, staged, woken[t]))
    && (forall t | t in flights :: TaskOk(base, staged, flights[t].task))
  }

  /** Every sleeper is counted, and sleeps only while a flush that will wake it is in
      flight. */
  ghost predicate Waiting(waiters: int, flushing: bool, sleeping: map<nat, Task>, woken: map<nat, Task>,
                          flights: map<nat, Flight>) {
    && waiters == |sleeping| + |woken|
    && sleeping.Keys !! woken.Keys && flights.Keys !! sleeping.Keys && flights.Keys !! woken.Keys
    && (sleeping != map[] ==> flushing)
  }

  /** While the log is clean everything written has been forced, and a log that has
      only known `always` is clean. */
  ghost predicate Durable(done: int, forced: nat, size: nat, failed: bool, dirty: bool, relaxed: bool, policy: Fsync,
                          flights: map<nat, Flight>) {
    && forced <= size
    && (!failed && !dirty ==> done <= forced)
    && (!relaxed ==> policy == Always && !dirty)
    && (forall t | t in flights ::
          && (!relaxed ==> flights[t].policy == Always)
          && (flights[t].outcome == Forced ==> forced == size))
  }

  /** What a reply promised is true of the file. */
  ghost predicate Kept(base: nat, file: bytes, forced: nat, relaxed: bool, r: Reply) {
    match r
    case Appended(at, frame) => Holds(base, file, at, frame) && (!relaxed ==> at + |frame| <= base + forced)
    case Synced(since, upto) => since <= upto <= base + forced
    case Refused => true
  }

  ghost predicate AllKept(base: nat, file: bytes, forced: nat, relaxed: bool, replies: seq<Reply>) {
    forall i | 0 <= i < |replies| :: Kept(base, file, forced, relaxed, replies[i])
  }

  ghost predicate Inv(s: State) {
    && OneFlight(s.flushing, s.flights)
    && Apart(s.mem, s.pending, s.spare, s.flights)
    && Stream(s.mem, s.pending, s.flights, s.offset - s.base, s.failed, s.file, s.staged)
    && Flights(s.flights, s.offset)
    && s.assignedTo == s.base + |s.staged|
    && Tasks(s.base, s.staged, s.sleeping, s.woken, s.flights)
    && Waiting(s.waiters, s.flushing, s.sleeping, s.woken, s.flights)
    && Durable(s.offset - s.base, s.forced, |s.file|, s.failed, s.dirty, s.relaxed, s.policy, s.flights)
    && AllKept(s.base, s.file, s.forced, s.relaxed, s.replies)
  }
}
