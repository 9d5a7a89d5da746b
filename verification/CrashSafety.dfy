/** Writing a snapshot, rolling the log and unlinking old segments, with a crash after
    any step (server/persistence.go Snapshot and restore, persist/segments.go,
    persist/recover.go). */
module CrashSafety {
  import opened Options
  import opened Seqs
  import opened Records
  import opened Stream
  import opened Replay
  import opened SnapshotProtocol
  import opened SnapshotProof
  import opened Recovery

  /** What survives a crash: the segment files in order, the bytes of an incomplete
      record at the end of the last one, and the snapshot file. */
  datatype Disk<A, V> = Disk(segs: seq<Seg<A>>, torn: nat, snapshot: Option<seq<Shot<A, V>>>)

  /** How far persistence.Snapshot has come: nothing to do, window closed, renamed,
      rolled. */
  datatype Stage = Idle | Closed | Renamed | Rolled

  /** The protocol's world, the disk, and progress.  `written` counts the log's
      records that are whole in the files, `pruned` those whose segments are gone. */
  datatype System<A, V> = System(w: World<A, V>, disk: Disk<A, V>, stage: Stage, written: nat, pruned: nat)

  // ----------------------------------------------------------------------- recovery

  /** One record more, unless it starts before `from` or an earlier one has failed. */
  function Onward<A, S>(step: (nat, Rec<A>, S) -> Option<S>, from: nat, off: nat, r: Rec<A>, prev: Option<S>): Option<S> {
    if prev.None? || off < from then prev else step(off, r, prev.value)
  }

  /** Replay of one segment's records; those that start before `from` are skipped. */
  function ReplayRecs<A, S>(step: (nat, Rec<A>, S) -> Option<S>, from: nat, base: nat, rs: seq<Rec<A>>, st: S): Option<S> {
    if rs == [] then Some(st) else
      var n := |rs| - 1;
      Onward(step, from, base + Off(rs, n), rs[n], ReplayRecs(step, from, base, rs[..n], st))
  }

  /** Recover's loop: a segment that ends at or before `from` is not opened, unless it
      is the last. */
  function ReplaySegs<A, S>(step: (nat, Rec<A>, S) -> Option<S>, from: nat, segs: seq<Seg<A>>, st: S): Option<S> {
    if segs == [] then Some(st)
    else if EndOf(segs[0]) <= from && |segs| > 1 then ReplaySegs(step, from, segs[1..], st)
    else
      match ReplayRecs(step, from, segs[0].base, segs[0].records, st)
      case None => None
      case Some(next) => ReplaySegs(step, from, segs[1..], next)
  }

  /** How a record is applied: as it is, or through the snapshot's anchors. */
  function Plain<A(==), V>(sem: Semantics<A, V>): (nat, Rec<A>, State<A, V>) -> Option<State<A, V>> {
    (off: nat, r: Rec<A>, st: State<A, V>) => Run(sem, r, st)
  }

  function Filtered<A(==), V>(sem: Semantics<A, V>, anchors: Anchors): (nat, Rec<A>, State<A, V>) -> Option<State<A, V>> {
    (off: nat, r: Rec<A>, st: State<A, V>) => ReplayOne(sem, anchors, off, r, st)
  }

  /** corrupt-log-policy: what to do about an incomplete record at the end. */
  datatype Policy = PolicyTruncate | PolicyRefuse

  /** Where the log ends: OpenLog makes a first file when there is none. */
  function EndAt<A>(segs: seq<Seg<A>>): nat {
    if segs == [] then 0 else EndOf(segs[|segs| - 1])
  }

  /** restore: load the snapshot if there is one, refuse segments that do not form one
      stream reaching back to its first anchor, replay, deal with a torn tail as the
      policy says, and refuse a log that ends before the last anchor. */
  function Recovered<A(==), V>(cfg: Config<A, V>, policy: Policy, disk: Disk<A, V>): Option<State<A, V>>
    requires disk.snapshot.Some? ==> |disk.snapshot.value| == |cfg.refs| && disk.snapshot.value != []
  {
    if !Contiguous(disk.segs) || (disk.torn > 0 && policy == PolicyRefuse) then None
    else match disk.snapshot
      case None =>
        if disk.segs != [] && disk.segs[0].base > 0 then None else ReplaySegs(Plain(cfg.sem), 0, disk.segs, cfg.origin)
      case Some(shots) =>
        if disk.segs != [] && disk.segs[0].base > shots[0].anchor then None
        else if EndAt(disk.segs) < shots[|shots| - 1].anchor then None
        else ReplaySegs(Filtered(cfg.sem, AnchorsOf(cfg.refs, shots)), shots[0].anchor, disk.segs, Loaded(shots))
  }

  // ---------------------------------------------------------------------- the steps

  datatype Event<A> =
    | Proto(step: Step<A>)
    | WriteBytes(upto: nat, torn: nat)
    | Rename
    | Roll
    | RollFails
    | Unlink
    | Finish
    | Restart(policy: Policy)

  ghost predicate Start<A(!new), V(!new)>(cfg: Config<A, V>, s: System<A, V>) {
    !cfg.exec && Init(cfg, s.w) && s.disk == Disk([Seg(0, [])], 0, None) && s.stage == Idle && s.written == 0 && s.pruned == 0
  }

  /** The snapshot file is whole: one section for every shard. */
  predicate Loadable<A, V>(cfg: Config<A, V>, disk: Disk<A, V>) {
    disk.segs != [] && (disk.snapshot.Some? ==> |disk.snapshot.value| == |cfg.refs| && disk.snapshot.value != [])
  }

  /** A server started on what a crash left: the recovered keyspace, no writer and no
      snapshot under way, and the torn tail cut off. */
  ghost function Restarted<A, V>(s: System<A, V>, st: State<A, V>): System<A, V>
    requires s.written <= |s.w.log| == |s.w.owner|
  {
    System(World(st, s.w.log[..s.written], s.w.owner[..s.written], s.written, map[], map[], false, Resting, [], None),
           s.disk.(torn := 0), Idle, s.written, s.pruned)
  }

  ghost predicate Advances<A(!new), V(!new)>(cfg: Config<A, V>, s: System<A, V>, s': System<A, V>, e: Event<A>)
    requires s.disk.segs != []
  {
    match e
    case Proto(step) =>
      && Next(cfg, s.w, s'.w, step)
      // a flush is acknowledged once its bytes are in the file; one snapshot at a time
      && (step.Flush? ==> step.n <= s.written)
      && (step.OpenWindow? ==> s.stage == Idle)
      && s' == s.(w := s'.w, stage := if step.CloseWindow? then Closed else s.stage)
    case WriteBytes(upto, torn) =>
      && s.written <= upto <= |s.w.log|
      && (torn == 0 || (upto < |s.w.log| && torn < s.w.log[upto].size))
      && (upto == s.written ==> s.disk.torn <= torn)
      && s' == s.(written := upto, disk := s.disk.(segs := Grow(s.disk.segs, s.w.log[s.written..upto]), torn := torn))
    case Rename =>
      s.stage == Closed && s' == s.(stage := Renamed, disk := s.disk.(snapshot := s.w.done))
    case Roll =>
      // the segment has been drained and closed
      && s.stage == Renamed && s.w.durable == s.written == |s.w.log| && s.disk.torn == 0
      && s' == s.(stage := Rolled, disk := s.disk.(segs := s.disk.segs + [Seg(EndOf(s.disk.segs[|s.disk.segs| - 1]), [])]))
    case RollFails =>
      s.stage == Renamed && s' == s.(stage := Idle)
    case Unlink =>
      && s.stage == Rolled && |s.disk.segs| > 1 && s.disk.snapshot.Some? && s.disk.snapshot.value != []
      && EndOf(s.disk.segs[0]) <= s.disk.snapshot.value[0].anchor
      && s' == s.(pruned := s.pruned + |s.disk.segs[0].records|, disk := s.disk.(segs := s.disk.segs[1..]))
    case Finish =>
      s.stage == Rolled && s' == s.(stage := Idle)
    case Restart(policy) =>
      && Loadable(cfg, s.disk) && Recovered(cfg, policy, s.disk).Some? && s.written <= |s.w.log| == |s.w.owner|
      && s' == Restarted(s, Recovered(cfg, policy, s.disk).value)
  }

  // ------------------------------------------------------------------ the invariant

  /** Everything in a snapshot was in the files when its anchors were read. */
  ghost predicate Covered<A, V>(shots: seq<Shot<A, V>>, upto: nat) {
    forall k | 0 <= k < |shots| :: shots[k].index <= upto
  }

  ghost predicate SnapshotOk<A(!new), V(!new)>(cfg: Config<A, V>, s: System<A, V>) {
    match s.disk.snapshot
    case None => s.pruned == 0
    case Some(shots) =>
      shots != [] && Committed(cfg, s.w.log, shots) && Covered(shots, s.w.durable) && s.pruned <= shots[0].index
  }

  ghost predicate DiskInv<A(!new), V(!new)>(cfg: Config<A, V>, s: System<A, V>) {
    && s.disk.segs != []
    && Holding(s.w.log, s.disk.segs, s.pruned, s.written)
    && s.w.durable <= s.written <= |s.w.log|
    && (s.disk.torn == 0 || (s.written < |s.w.log| && s.disk.torn < s.w.log[s.written].size))
    && SnapshotOk(cfg, s)
    && (s.w.done.Some? ==> Covered(s.w.done.value, s.w.durable))
    && (s.stage == Closed ==> s.w.done.Some?)
    && (s.stage != Idle ==> !s.w.open)
  }

  ghost predicate Beyond<A, V>(shots: seq<Shot<A, V>>, from: nat) {
    forall k | 0 <= k < |shots| :: from <= shots[k].index
  }

  /** Every anchor read for the snapshot being taken lies past what was pruned for the
      one before. */
  ghost predicate Ahead<A, V>(w: World<A, V>, stage: Stage, pruned: nat) {
    && (w.open ==> Beyond(w.shots, pruned))
    && (w.open && (w.phase.Anchored? || w.phase.Walking?) ==> pruned <= w.phase.index)
    && (stage == Closed && w.done.Some? ==> Beyond(w.done.value, pruned))
  }

  ghost predicate SystemInv<A(!new), V(!new)>(cfg: Config<A, V>, s: System<A, V>) {
    !cfg.exec && Inv(cfg, s.w) && DiskInv(cfg, s) && Ahead(s.w, s.stage, s.pruned)
  }

  /** What a step of the protocol does to the log: nothing, or one record more. */
  lemma LogStep<A(!new), V(!new)>(cfg: Config<A, V>, w: World<A, V>, w': World<A, V>, step: Step<A>)
    requires Next(cfg, w, w', step)
    ensures w'.log == w.log || (step.Stage? && |w'.log| == |w.log| + 1 && w'.log == w.log + [w'.log[|w.log|]])
    ensures w'.durable == if step.Flush? then step.n else w.durable
    ensures step.Flush? ==> w.durable <= step.n
    ensures w'.done == if step.CloseWindow? then Some(w.shots) else w.done
    ensures w'.open == if step.OpenWindow? then true else if step.CloseWindow? || step.AbortWindow? then false else w.open
  {
  }

  lemma SnapshotKept<A(!new), V(!new)>(cfg: Config<A, V>, s: System<A, V>, s': System<A, V>, step: Step<A>)
    requires SnapshotOk(cfg, s) && Next(cfg, s.w, s'.w, step) && s'.disk == s.disk && s'.pruned == s.pruned
    ensures SnapshotOk(cfg, s')
  {
    LogStep(cfg, s.w, s'.w, step);
    if s.disk.snapshot.Some? && s'.w.log != s.w.log {
      SerializedGrows(cfg, s.w.log, s'.w.log[|s.w.log|], s.disk.snapshot.value);
    }
  }

  lemma HoldingKept<A(!new), V(!new)>(cfg: Config<A, V>, w: World<A, V>, w': World<A, V>, step: Step<A>, segs: seq<Seg<A>>, lo: nat, hi: nat)
    requires Next(cfg, w, w', step) && Holding(w.log, segs, lo, hi) && segs != []
    ensures Holding(w'.log, segs, lo, hi)
  {
    LogStep(cfg, w, w', step);
    HoldingBounds(w.log, segs, lo, hi);
    if w'.log != w.log {
      HoldingGrows(w.log, [w'.log[|w.log|]], segs, lo, hi);
    }
  }

  lemma AheadKept<A(!new), V(!new)>(cfg: Config<A, V>, w: World<A, V>, w': World<A, V>, step: Step<A>, stage: Stage, pruned: nat)
    requires Next(cfg, w, w', step) && Ahead(w, stage, pruned) && pruned <= w.durable && (stage != Idle ==> !w.open)
    ensures Ahead(w', if step.CloseWindow? then Closed else stage, pruned)
  {
  }

  lemma PrunedDurable<A(!new), V(!new)>(cfg: Config<A, V>, s: System<A, V>)
    requires SnapshotOk(cfg, s)
    ensures s.pruned <= s.w.durable
  {
  }

  lemma DoneCovered<A(!new), V(!new)>(cfg: Config<A, V>, w: World<A, V>, w': World<A, V>, step: Step<A>)
    requires WindowInv(cfg, w) && Next(cfg, w, w', step) && (w.done.Some? ==> Covered(w.done.value, w.durable))
    ensures w'.done.Some? ==> Covered(w'.done.value, w'.durable)
  {
    LogStep(cfg, w, w', step);
    if step.CloseWindow? {
      assert TakenInv(cfg, w);
    }
  }

  lemma ProtoDisk<A(!new), V(!new)>(cfg: Config<A, V>, s: System<A, V>, s': System<A, V>, step: Step<A>)
    requires WindowInv(cfg, s.w) && DiskInv(cfg, s) && Advances(cfg, s, s', Proto(step))
    ensures DiskInv(cfg, s')
  {
    LogStep(cfg, s.w, s'.w, step);
    SnapshotKept(cfg, s, s', step);
    HoldingKept(cfg, s.w, s'.w, step, s.disk.segs, s.pruned, s.written);
    DoneCovered(cfg, s.w, s'.w, step);
  }

  lemma ProtoInv<A(!new), V(!new)>(cfg: Config<A, V>, s: System<A, V>, s': System<A, V>, step: Step<A>)
    requires ValidConfig(cfg) && SystemInv(cfg, s) && Advances(cfg, s, s', Proto(step))
    ensures SystemInv(cfg, s')
  {
    StepInv(cfg, s.w, s'.w, step);
    ProtoDisk(cfg, s, s', step);
    PrunedDurable(cfg, s);
    AheadKept(cfg, s.w, s'.w, step, s.stage, s.pruned);
  }

  lemma WriteInv<A(!new), V(!new)>(cfg: Config<A, V>, s: System<A, V>, s': System<A, V>, upto: nat, torn: nat)
    requires SystemInv(cfg, s) && Advances(cfg, s, s', WriteBytes(upto, torn))
    ensures SystemInv(cfg, s')
  {
    HoldingBounds(s.w.log, s.disk.segs, s.pruned, s.written);
    HoldingWrites(s.w.log, s.disk.segs, s.pruned, s.written, upto);
  }

  lemma RollInv<A(!new), V(!new)>(cfg: Config<A, V>, s: System<A, V>, s': System<A, V>)
    requires SystemInv(cfg, s) && Advances(cfg, s, s', Roll)
    ensures SystemInv(cfg, s')
  {
    HoldingBounds(s.w.log, s.disk.segs, s.pruned, s.written);
    HoldingRolls(s.w.log, s.disk.segs, s.pruned, s.written);
  }

  /** A rename puts a committed snapshot in place; the segments still reach back to
      its first anchor, because nothing it did not make redundant was unlinked. */
  lemma RenameInv<A(!new), V(!new)>(cfg: Config<A, V>, s: System<A, V>, s': System<A, V>)
    requires ValidConfig(cfg) && SystemInv(cfg, s) && Advances(cfg, s, s', Rename)
    ensures SystemInv(cfg, s')
  {
    assert Committed(cfg, s.w.log, s.w.done.value);
  }

  lemma UnlinkInv<A(!new), V(!new)>(cfg: Config<A, V>, s: System<A, V>, s': System<A, V>)
    requires SystemInv(cfg, s) && Advances(cfg, s, s', Unlink)
    ensures SystemInv(cfg, s')
  {
    UnlinkDisk(cfg, s, s');
    assert s'.w == s.w && !s.w.open && s.stage == Rolled;
  }

  lemma UnlinkDisk<A(!new), V(!new)>(cfg: Config<A, V>, s: System<A, V>, s': System<A, V>)
    requires DiskInv(cfg, s) && Sized(s.w.log) && Advances(cfg, s, s', Unlink)
    ensures DiskInv(cfg, s')
  {
    UnlinkReaches(cfg, s.w.log, s.disk.segs, s.disk.snapshot.value, s.pruned, s.written);
  }

  /** What is unlinked lies below the first anchor, and what is left begins there or
      before. */
  lemma UnlinkReaches<A(!new), V(!new)>(cfg: Config<A, V>, log: seq<Rec<A>>, segs: seq<Seg<A>>, shots: seq<Shot<A, V>>, lo: nat, hi: nat)
    requires Holding(log, segs, lo, hi) && Sized(log) && |segs| > 1 && Committed(cfg, log, shots) && shots != []
    requires EndOf(segs[0]) <= shots[0].anchor
    ensures var mid := lo + |segs[0].records|; mid <= shots[0].index && Holding(log, segs[1..], mid, hi)
  {
    HoldingBounds(log, segs, lo, hi);
    assert Exact(cfg, log, shots[0], cfg.refs[0]);
    OffBelow(log, shots[0].index, lo + |segs[0].records|);
  }

  lemma StartInv<A(!new), V(!new)>(cfg: Config<A, V>, s: System<A, V>)
    requires ValidConfig(cfg) && Start(cfg, s)
    ensures SystemInv(cfg, s)
  {
    assert s.disk.segs[1..] == [];
    assert Inv(cfg, s.w) by {
      RunInv(cfg, [s.w], [], 0);
    }
  }

  // -------------------------------------------------------------- recovery is exact

  /** Replaying a log up to record e, records before `from` skipped. */
  function Through<A, S>(step: (nat, Rec<A>, S) -> Option<S>, from: nat, log: seq<Rec<A>>, e: nat, st: S): Option<S>
    requires e <= |log|
  {
    if e == 0 then Some(st) else
      Onward(step, from, Off(log, e - 1), log[e - 1], Through(step, from, log, e - 1, st))
  }

  lemma {:induction false} ThroughReplayed<A, V>(sem: Semantics<A, V>, anchors: Anchors, from: nat, log: seq<Rec<A>>, e: nat,
                                                 st: State<A, V>)
    requires e <= |log|
    ensures Replayed(sem, anchors, from, log, e, st) == Through(Filtered(sem, anchors), from, log, e, st)
  {
    if e > 0 {
      ThroughReplayed(sem, anchors, from, log, e - 1, st);
    }
  }

  lemma {:induction false} ThroughFold<A, V>(sem: Semantics<A, V>, log: seq<Rec<A>>, e: nat, st: State<A, V>)
    requires e <= |log|
    ensures Fold(sem, st, log[..e]) == Through(Plain(sem), 0, log, e, st)
  {
    if e > 0 {
      ThroughFold(sem, log, e - 1, st);
      assert log[..e][..e - 1] == log[..e - 1];
    }
  }

  lemma RecsNext<A, S>(step: (nat, Rec<A>, S) -> Option<S>, from: nat, log: seq<Rec<A>>, lo: nat, n: nat, at: S, prev: Option<S>)
    requires lo <= n < |log| && ReplayRecs(step, from, Off(log, lo), log[lo..n], at) == prev
    ensures ReplayRecs(step, from, Off(log, lo), log[lo..n + 1], at) == Onward(step, from, Off(log, n), log[n], prev)
  {
    var init := log[lo..n];
    OffSlice(log, lo, n, |init|);
    ReplayRecsSnoc(step, from, Off(log, lo), init, log[n], at);
    SliceGrows(log, lo, n);
  }

  lemma {:induction false} RecsOnward<A, S>(step: (nat, Rec<A>, S) -> Option<S>, from: nat, log: seq<Rec<A>>, lo: nat, k: nat, mid: nat,
                                            st: S, at: S)
    requires lo <= k <= mid <= |log|
    requires ReplayRecs(step, from, Off(log, lo), log[lo..k], at) == Through(step, from, log, k, st)
    ensures ReplayRecs(step, from, Off(log, lo), log[lo..mid], at) == Through(step, from, log, mid, st)
    decreases mid - k
  {
    if k < mid {
      RecsNext(step, from, log, lo, k, at, Through(step, from, log, k, st));
      RecsOnward(step, from, log, lo, k + 1, mid, st, at);
    }
  }

  /** One segment's records carry a replay of the log from where it begins to where
      it ends. */
  lemma RecsThrough<A, S>(step: (nat, Rec<A>, S) -> Option<S>, from: nat, log: seq<Rec<A>>, lo: nat, mid: nat, st: S, at: S)
    requires lo <= mid <= |log| && Through(step, from, log, lo, st) == Some(at)
    ensures ReplayRecs(step, from, Off(log, lo), log[lo..mid], at) == Through(step, from, log, mid, st)
  {
    assert log[lo..lo] == [];
    RecsOnward(step, from, log, lo, lo, mid, st, at);
  }

  lemma ReplayRecsSnoc<A, S>(step: (nat, Rec<A>, S) -> Option<S>, from: nat, base: nat, rs: seq<Rec<A>>, r: Rec<A>, st: S)
    ensures ReplayRecs(step, from, base, rs + [r], st) ==
            Onward(step, from, base + Off(rs, |rs|), r, ReplayRecs(step, from, base, rs, st))
  {
    assert (rs + [r])[..|rs|] == rs;
    OffPrefix(rs, [r], |rs|);
  }

  lemma {:induction false} SkipThrough<A, S>(step: (nat, Rec<A>, S) -> Option<S>, from: nat, log: seq<Rec<A>>, lo: nat, mid: nat, st: S,
                                             at: S)
    requires lo <= mid <= |log| && Sized(log) && Off(log, mid) <= from && Through(step, from, log, lo, st) == Some(at)
    ensures Through(step, from, log, mid, st) == Some(at)
  {
    if lo < mid {
      OffMonotone(log, mid - 1, mid);
      SkipThrough(step, from, log, lo, mid - 1, st, at);
    }
  }

  lemma {:induction false} NoneThrough<A, S>(step: (nat, Rec<A>, S) -> Option<S>, from: nat, log: seq<Rec<A>>, mid: nat, hi: nat, st: S)
    requires mid <= hi <= |log| && Through(step, from, log, mid, st) == None
    ensures Through(step, from, log, hi, st) == None
  {
    if mid < hi {
      NoneThrough(step, from, log, mid, hi - 1, st);
    }
  }

  /** The segments together carry it to the end. */
  lemma {:induction false} SegsThrough<A, S>(step: (nat, Rec<A>, S) -> Option<S>, from: nat, log: seq<Rec<A>>, segs: seq<Seg<A>>,
                                             lo: nat, hi: nat, st: S, at: S)
    requires Holding(log, segs, lo, hi) && Sized(log) && lo <= |log| && Through(step, from, log, lo, st) == Some(at)
    ensures hi <= |log| && ReplaySegs(step, from, segs, at) == Through(step, from, log, hi, st)
  {
    if segs != [] {
      var mid := lo + |segs[0].records|;
      HoldingBounds(log, segs, lo, hi);
      if EndOf(segs[0]) <= from && |segs| > 1 {
        SkipThrough(step, from, log, lo, mid, st, at);
        SegsThrough(step, from, log, segs[1..], mid, hi, st, at);
      } else {
        RecsThrough(step, from, log, lo, mid, st, at);
        match Through(step, from, log, mid, st)
        case None =>
          MidBelow(log, segs, lo, hi);
          NoneThrough(step, from, log, mid, hi, st);
        case Some(next) => SegsThrough(step, from, log, segs[1..], mid, hi, st, next);
      }
    }
  }

  /** Crash safety.  Whatever step the crash comes after, recovery rebuilds exactly the
      state of the records that are whole in the files, unless there is a torn tail and
      the policy is to refuse one. */
  lemma CrashRecovers<A(!new), V(!new)>(cfg: Config<A, V>, policy: Policy, s: System<A, V>)
    requires ValidConfig(cfg) && SystemInv(cfg, s)
    ensures s.written <= |s.w.log| && s.w.durable <= s.written && Loadable(cfg, s.disk)
    ensures Fold(cfg.sem, cfg.origin, s.w.log[..s.written]).Some?
    ensures Recovered(cfg, policy, s.disk)
         == if s.disk.torn > 0 && policy == PolicyRefuse then None else Fold(cfg.sem, cfg.origin, s.w.log[..s.written])
  {
    var log, segs, e := s.w.log, s.disk.segs, s.written;
    HoldingBounds(log, segs, s.pruned, e);
    FoldPrefix(cfg.sem, cfg.origin, log, e);
    match s.disk.snapshot
    case None =>
      ThroughFold(cfg.sem, log, e, cfg.origin);
      SegsThrough(Plain(cfg.sem), 0, log, segs, 0, e, cfg.origin, cfg.origin);
    case Some(shots) => SnapshotCrash(cfg, policy, s, shots);
  }

  lemma SnapshotCrash<A(!new), V(!new)>(cfg: Config<A, V>, policy: Policy, s: System<A, V>, shots: seq<Shot<A, V>>)
    requires ValidConfig(cfg) && SystemInv(cfg, s) && s.disk.snapshot == Some(shots)
    ensures |shots| == |cfg.refs| && shots != []
    ensures Recovered(cfg, policy, s.disk)
         == if s.disk.torn > 0 && policy == PolicyRefuse then None else Fold(cfg.sem, cfg.origin, s.w.log[..s.written])
  {
    var log, segs, e, n := s.w.log, s.disk.segs, s.written, |shots| - 1;
    HoldingBounds(log, segs, s.pruned, e);
    assert Exact(cfg, log, shots[0], cfg.refs[0]) && Exact(cfg, log, shots[n], cfg.refs[n]);
    OffMonotone(log, s.pruned, shots[0].index);
    OffMonotone(log, shots[n].index, e);
    RestoreExact(cfg, log, shots, e);
    var step, from, st := Filtered(cfg.sem, AnchorsOf(cfg.refs, shots)), shots[0].anchor, Loaded(shots);
    SkipThrough(step, from, log, 0, s.pruned, st, st);
    SegsThrough(step, from, log, segs, s.pruned, e, st, st);
    CutThrough(step, from, log, e, e, st);
    ThroughReplayed(cfg.sem, AnchorsOf(cfg.refs, shots), from, log[..e], e, st);
    CutOff(log, e, e);
  }

  lemma {:induction false} CutThrough<A, S>(step: (nat, Rec<A>, S) -> Option<S>, from: nat, log: seq<Rec<A>>, e: nat, i: nat, st: S)
    requires i <= e <= |log|
    ensures Through(step, from, log[..e], i, st) == Through(step, from, log, i, st)
  {
    if i > 0 {
      CutThrough(step, from, log, e, i - 1, st);
      CutOff(log, e, i - 1);
    }
  }

  // -------------------------------------------------------------- and can be repeated

  /** The recovered keyspace and the log that is left are a good start. */
  lemma RestartWorld<A(!new), V(!new)>(cfg: Config<A, V>, w: World<A, V>, e: nat, w': World<A, V>)
    requires ValidConfig(cfg) && Inv(cfg, w) && e <= |w.log|
    requires Fold(cfg.sem, cfg.origin, w.log[..e]) == Some(w'.state)
    requires w' == World(w'.state, w.log[..e], w.owner[..e], e, map[], map[], false, Resting, [], None)
    ensures Inv(cfg, w')
  {
    forall i | 0 <= i < |w'.log| ensures RecIn(cfg, w'.log[i]) && w'.log[i].size > 0 {
      assert w'.log[i] == w.log[i];
    }
    FoldInRange(cfg, w'.log, cfg.origin);
    forall ref | ref in cfg.refs ensures AgreeOn(cfg.sem, w'.state, Expected(cfg, w', ref), ref) {
      assert Expected(cfg, w', ref) == w'.state;
    }
  }

  lemma RestartInv<A(!new), V(!new)>(cfg: Config<A, V>, s: System<A, V>, s': System<A, V>, policy: Policy)
    requires ValidConfig(cfg) && SystemInv(cfg, s) && Advances(cfg, s, s', Restart(policy))
    ensures SystemInv(cfg, s')
  {
    CrashRecovers(cfg, policy, s);
    RestartWorld(cfg, s.w, s.written, s'.w);
    HoldingBounds(s.w.log, s.disk.segs, s.pruned, s.written);
    HoldingCut(s.w.log, s.written, s.disk.segs, s.pruned, s.written);
    if s.disk.snapshot.Some? {
      assert GoodLog(cfg, s.w.log);
      CommittedCut(cfg, s.w.log, s.disk.snapshot.value, s.written);
    }
  }

  /** Every step of taking snapshots, rolling and pruning, between any steps of the
      writers, and every restart after a crash keep the disk recoverable. */
  lemma AdvanceInv<A(!new), V(!new)>(cfg: Config<A, V>, s: System<A, V>, s': System<A, V>, e: Event<A>)
    requires ValidConfig(cfg) && SystemInv(cfg, s) && Advances(cfg, s, s', e)
    ensures SystemInv(cfg, s')
  {
    match e
    case Proto(step) => ProtoInv(cfg, s, s', step);
    case WriteBytes(upto, torn) => WriteInv(cfg, s, s', upto, torn);
    case Rename => RenameInv(cfg, s, s');
    case Roll => RollInv(cfg, s, s');
    case Unlink => UnlinkInv(cfg, s, s');
    case RollFails =>
    case Finish =>
    case Restart(policy) => RestartInv(cfg, s, s', policy);
  }

  // --------------------------------------------------------------------- whole runs

  /** The states n steps after a start. */
  ghost predicate After<S(!new)>(start: S -> bool, step: (S, S) -> bool, n: nat, s: S) {
    if n == 0 then start(s) else exists before :: After(start, step, n - 1, before) && step(before, s)
  }

  lemma {:induction false} AfterKeeps<S(!new)>(start: S -> bool, step: (S, S) -> bool, inv: S -> bool, n: nat, s: S)
    requires forall x :: start(x) ==> inv(x)
    requires forall x, y :: inv(x) && step(x, y) ==> inv(y)
    requires After(start, step, n, s)
    ensures inv(s)
  {
    if n > 0 {
      var before :| After(start, step, n - 1, before) && step(before, s);
      AfterKeeps(start, step, inv, n - 1, before);
    }
  }

  ghost predicate Occurs<A(!new), V(!new)>(cfg: Config<A, V>, s: System<A, V>, s': System<A, V>) {
    s.disk.segs != [] && exists e :: Advances(cfg, s, s', e)
  }

  lemma OccursInv<A(!new), V(!new)>(cfg: Config<A, V>, s: System<A, V>, s': System<A, V>)
    requires ValidConfig(cfg) && SystemInv(cfg, s) && Occurs(cfg, s, s')
    ensures SystemInv(cfg, s')
  {
    var e :| Advances(cfg, s, s', e);
    AdvanceInv(cfg, s, s', e);
  }

  /** The states a run of the system can be in after n events. */
  ghost predicate Reaches<A(!new), V(!new)>(cfg: Config<A, V>, n: nat, s: System<A, V>) {
    After((x: System<A, V>) => Start(cfg, x), (x: System<A, V>, y: System<A, V>) => Occurs(cfg, x, y), n, s)
  }

  lemma ReachesInv<A(!new), V(!new)>(cfg: Config<A, V>, n: nat, s: System<A, V>)
    requires ValidConfig(cfg) && Reaches(cfg, n, s)
    ensures SystemInv(cfg, s)
  {
    var start, step := (x: System<A, V>) => Start(cfg, x), (x: System<A, V>, y: System<A, V>) => Occurs(cfg, x, y);
    var inv := (x: System<A, V>) => SystemInv(cfg, x);
    forall x | start(x) ensures inv(x) {
      StartInv(cfg, x);
    }
    forall x, y | inv(x) && step(x, y) ensures inv(y) {
      OccursInv(cfg, x, y);
    }
    AfterKeeps(start, step, inv, n, s);
  }

  /** A crash at any point of any run, earlier crashes and restarts included: recovery
      rebuilds the state at the log's end, which includes every write that was
      acknowledged, if and only if there is no torn tail or the policy is to cut it. */
  lemma CrashAnywhere<A(!new), V(!new)>(cfg: Config<A, V>, policy: Policy, n: nat, s: System<A, V>)
    requires ValidConfig(cfg) && Reaches(cfg, n, s)
    ensures s.w.durable <= s.written <= |s.w.log| && Loadable(cfg, s.disk)
    ensures Fold(cfg.sem, cfg.origin, s.w.log[..s.written]).Some?
    ensures Recovered(cfg, policy, s.disk) == Fold(cfg.sem, cfg.origin, s.w.log[..s.written])
       <==> s.disk.torn == 0 || policy == PolicyTruncate
    ensures Recovered(cfg, policy, s.disk).Some? <==> s.disk.torn == 0 || policy == PolicyTruncate
  {
    ReachesInv(cfg, n, s);
    CrashRecovers(cfg, policy, s);
  }

  /** What has been acknowledged stays at the front of the log. */
  ghost predicate Extends<A(!new), V(!new)>(w: World<A, V>, w': World<A, V>) {
    w.durable <= w'.durable && w.durable <= |w.log| && w.durable <= |w'.log| && w'.log[..w.durable] == w.log[..w.durable]
  }

  lemma AdvanceExtends<A(!new), V(!new)>(cfg: Config<A, V>, s: System<A, V>, s': System<A, V>, e: Event<A>)
    requires SystemInv(cfg, s) && Advances(cfg, s, s', e)
    ensures Extends(s.w, s'.w)
  {
    if e.Proto? {
      LogStep(cfg, s.w, s'.w, e.step);
    }
  }

  /** An acknowledged write survives every later crash, however many there are. */
  lemma AcknowledgedStays<A(!new), V(!new)>(cfg: Config<A, V>, s: System<A, V>, n: nat, s': System<A, V>)
    requires ValidConfig(cfg) && SystemInv(cfg, s)
    requires After((x: System<A, V>) => x == s, (x: System<A, V>, y: System<A, V>) => Occurs(cfg, x, y), n, s')
    ensures Extends(s.w, s'.w)
  {
    var start, step := (x: System<A, V>) => x == s, (x: System<A, V>, y: System<A, V>) => Occurs(cfg, x, y);
    var inv := (x: System<A, V>) => SystemInv(cfg, x) && Extends(s.w, x.w);
    forall x, y | inv(x) && step(x, y) ensures inv(y) {
      OccursInv(cfg, x, y);
      var e :| Advances(cfg, x, y, e);
      AdvanceExtends(cfg, x, y, e);
      ExtendsTrans(s.w, x.w, y.w);
    }
    AfterKeeps(start, step, inv, n, s');
  }

  lemma ExtendsTrans<A(!new), V(!new)>(a: World<A, V>, b: World<A, V>, c: World<A, V>)
    requires Extends(a, b) && Extends(b, c)
    ensures Extends(a, c)
  {
    assert c.log[..a.durable] == c.log[..b.durable][..a.durable];
    assert b.log[..a.durable] == b.log[..b.durable][..a.durable];
  }
}
