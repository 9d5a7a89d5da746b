/** Recovery from whatever segment files are left (persist/recover.go Recover and
    replaySegment, server/persistence.go restore): the loops over the files, and what
    comes of it when files are missing, cut short or begin too late. */
module DiskRecovery {
  import opened Options
  import opened Records
  import opened Stream
  import opened Replay
  import opened SnapshotProtocol
  import opened SnapshotProof
  import opened Recovery
  import opened CrashSafety

  // ---------------------------------------------------------------------- the loops

  /** What the replayer does with a record, filtered or not. */
  function Applies<A(==), V>(sem: Semantics<A, V>, anchors: Option<Anchors>): (nat, Rec<A>, State<A, V>) -> Option<State<A, V>> {
    if anchors.None? then Plain(sem) else Filtered(sem, anchors.value)
  }

  lemma AppliesIs<A, V>(sem: Semantics<A, V>, anchors: Option<Anchors>, off: nat, r: Rec<A>, st: State<A, V>)
    ensures Applies(sem, anchors)(off, r, st) == if anchors.None? then Run(sem, r, st) else ReplayOne(sem, anchors.value, off, r, st)
  {
  }

  /** A record that does not replay ends the replay. */
  lemma RecsFail<A, S>(step: (nat, Rec<A>, S) -> Option<S>, from: nat, base: nat, rs: seq<Rec<A>>, n: nat, st: S)
    requires n <= |rs| && ReplayRecs(step, from, base, rs[..n], st) == None
    ensures ReplayRecs(step, from, base, rs, st) == None
  {
    for k := n to |rs|
      invariant ReplayRecs(step, from, base, rs[..k], st) == None
    {
      RecsSnoc(step, from, base, rs, k, st);
    }
    assert rs[..|rs|] == rs;
  }

  /** replaySegment: the records of one file, those that start before `from` skipped. */
  method ReplayFile<A(==), V>(replayer: Replayer<A, V>, from: nat, file: Seg<A>) returns (ok: bool)
    modifies replayer`split, replayer`keyspace
    ensures var out := ReplayRecs(Applies(replayer.sem, replayer.anchors), from, file.base, file.records, old(replayer.keyspace));
            ok == out.Some? && (ok ==> replayer.keyspace == out.value)
  {
    ghost var step, first := Applies(replayer.sem, replayer.anchors), replayer.keyspace;
    var rs, n, off := file.records, 0, file.base;
    while n < |rs|
      invariant 0 <= n <= |rs| && off == file.base + Off(rs, n)
      invariant ReplayRecs(step, from, file.base, rs[..n], first) == Some(replayer.keyspace)
    {
      RecsSnoc(step, from, file.base, rs, n, first);
      if off >= from {
        AppliesIs(replayer.sem, replayer.anchors, off, rs[n], replayer.keyspace);
        var fine := replayer.Apply(off, rs[n]);
        if !fine {
          RecsFail(step, from, file.base, rs, n + 1, first);
          return false;
        }
      }
      off := off + rs[n].size;
      n := n + 1;
    }
    assert rs[..n] == rs;
    return true;
  }

  lemma RecsSnoc<A, S>(step: (nat, Rec<A>, S) -> Option<S>, from: nat, base: nat, rs: seq<Rec<A>>, n: nat, st: S)
    requires n < |rs|
    ensures ReplayRecs(step, from, base, rs[..n + 1], st)
         == Onward(step, from, base + Off(rs, n), rs[n], ReplayRecs(step, from, base, rs[..n], st))
  {
    assert rs[..n + 1] == rs[..n] + [rs[n]];
    CutOff(rs, n, n);
    ReplayRecsSnoc(step, from, base, rs[..n], rs[n], st);
  }

  /** Recover's loop over the files. */
  method ReplayFiles<A(==), V>(replayer: Replayer<A, V>, from: nat, segs: seq<Seg<A>>) returns (ok: bool)
    modifies replayer`split, replayer`keyspace
    ensures var out := ReplaySegs(Applies(replayer.sem, replayer.anchors), from, segs, old(replayer.keyspace));
            ok == out.Some? && (ok ==> replayer.keyspace == out.value)
  {
    ghost var step, first := Applies(replayer.sem, replayer.anchors), replayer.keyspace;
    var i := 0;
    while i < |segs|
      invariant 0 <= i <= |segs|
      invariant ReplaySegs(step, from, segs, first) == ReplaySegs(step, from, segs[i..], replayer.keyspace)
    {
      assert segs[i..][0] == segs[i] && segs[i..][1..] == segs[i + 1..];
      if EndOf(segs[i]) > from || i == |segs| - 1 {
        ok := ReplayFile(replayer, from, segs[i]);
        if !ok {
          return;
        }
      }
      i := i + 1;
    }
    ok := true;
  }

  /** Segments: each file must begin where the one before ended. */
  method CheckSegments<A>(segs: seq<Seg<A>>) returns (ok: bool)
    ensures ok <==> Contiguous(segs)
  {
    var i := 1;
    while i < |segs|
      invariant i >= 1 && forall k | 0 < k < i && k < |segs| :: segs[k].base == EndOf(segs[k - 1])
    {
      if segs[i].base != EndOf(segs[i - 1]) {
        return false;
      }
      i := i + 1;
    }
    return true;
  }

  /** restore. */
  method Recover<A(==), V>(cfg: Config<A, V>, policy: Policy, disk: Disk<A, V>) returns (res: Option<State<A, V>>)
    requires disk.snapshot.Some? ==> |disk.snapshot.value| == |cfg.refs| && disk.snapshot.value != []
    ensures res == Recovered(cfg, policy, disk)
  {
    var keyspace, from, last := cfg.origin, 0, 0;
    var anchors: Option<Anchors> := None;
    if disk.snapshot.Some? {
      var shots := disk.snapshot.value;
      var st, a := LoadSnapshot(cfg.refs, shots);
      keyspace, anchors, from, last := st, Some(a), shots[0].anchor, shots[|shots| - 1].anchor;
    }
    var segs := disk.segs;
    var whole := CheckSegments(segs);
    if !whole || (segs != [] && segs[0].base > from) {
      return None;
    }
    var replayer := new Replayer(cfg.sem, keyspace);
    replayer.SetFilter(anchors);
    var ok := ReplayFiles(replayer, from, segs);
    var end := if segs == [] then 0 else EndOf(segs[|segs| - 1]);
    if !ok || (disk.torn > 0 && policy == PolicyRefuse) || end < last {
      return None;
    }
    return Some(replayer.keyspace);
  }

  /** What is refused whatever the files hold: a gap between two of them, a first one
      that begins after the first anchor, a last one that ends before the last. */
  lemma Refused<A, V>(cfg: Config<A, V>, policy: Policy, disk: Disk<A, V>, i: nat)
    requires disk.snapshot.Some? ==> |disk.snapshot.value| == |cfg.refs| && disk.snapshot.value != []
    requires || (0 < i < |disk.segs| && disk.segs[i].base != EndOf(disk.segs[i - 1]))
             || (disk.segs != [] && disk.segs[0].base > if disk.snapshot.Some? then disk.snapshot.value[0].anchor else 0)
             || (disk.snapshot.Some? && disk.segs != []
                 && EndOf(disk.segs[|disk.segs| - 1]) < disk.snapshot.value[|cfg.refs| - 1].anchor)
             || (disk.snapshot.Some? && disk.segs == [] && disk.snapshot.value[|cfg.refs| - 1].anchor > 0)
             || (disk.torn > 0 && policy == PolicyRefuse)
    ensures Recovered(cfg, policy, disk) == None
  {
  }

  // -------------------------------------------------------------------- what is left

  /** Each file holds a stretch of the log, from record at[i] on, at its offset; files may
      be missing anywhere, and records at the end of any. */
  ghost predicate Pieces<A>(log: seq<Rec<A>>, segs: seq<Seg<A>>, at: seq<nat>) {
    |at| == |segs| && forall i | 0 <= i < |segs| :: Piece(log, segs[i], at[i])
  }

  ghost predicate Piece<A>(log: seq<Rec<A>>, seg: Seg<A>, at: nat) {
    var to := at + |seg.records|;
    to <= |log| && seg.records == log[at..to] && seg.base == Off(log, at)
  }

  /** No record is missing between two files. */
  ghost predicate Unbroken<A>(segs: seq<Seg<A>>, at: seq<nat>)
    requires |at| == |segs|
  {
    forall i | 0 < i < |segs| :: at[i] == at[i - 1] + |segs[i - 1].records|
  }

  ghost function Begins(at: seq<nat>): nat {
    if at == [] then 0 else at[0]
  }

  ghost function Ends<A>(segs: seq<Seg<A>>, at: seq<nat>): nat
    requires |at| == |segs|
  {
    if at == [] then 0 else at[|at| - 1] + |segs[|at| - 1].records|
  }

  lemma PieceEnds<A>(log: seq<Rec<A>>, seg: Seg<A>, at: nat)
    requires Piece(log, seg, at)
    ensures EndOf(seg) == Off(log, at + |seg.records|)
  {
    OffSlice(log, at, at + |seg.records|, |seg.records|);
  }

  lemma NextTo<A>(log: seq<Rec<A>>, a: Seg<A>, i: nat, b: Seg<A>, j: nat)
    requires Sized(log) && Piece(log, a, i) && Piece(log, b, j)
    ensures b.base == EndOf(a) <==> j == i + |a.records|
  {
    PieceEnds(log, a, i);
    OffBelow(log, i + |a.records|, j);
    OffBelow(log, j, i + |a.records|);
  }

  /** A gap between two files shows in their offsets, and nothing else does. */
  lemma GapShows<A>(log: seq<Rec<A>>, segs: seq<Seg<A>>, at: seq<nat>)
    requires Sized(log) && Pieces(log, segs, at)
    ensures Contiguous(segs) <==> Unbroken(segs, at)
  {
    forall i | 0 < i < |segs|
      ensures segs[i].base == EndOf(segs[i - 1]) <==> at[i] == at[i - 1] + |segs[i - 1].records|
    {
      NextTo(log, segs[i - 1], at[i - 1], segs[i], at[i]);
    }
  }

  lemma PiecesTail<A>(log: seq<Rec<A>>, segs: seq<Seg<A>>, at: seq<nat>)
    requires Pieces(log, segs, at) && Unbroken(segs, at) && segs != []
    ensures Pieces(log, segs[1..], at[1..]) && Unbroken(segs[1..], at[1..])
    ensures Ends(segs[1..], at[1..]) == Ends(segs, at) || |segs| == 1
    ensures |segs| > 1 ==> Begins(at[1..]) == Begins(at) + |segs[0].records|
  {
    forall i | 0 <= i < |segs[1..]| ensures Piece(log, segs[1..][i], at[1..][i]) {
      assert Piece(log, segs[i + 1], at[i + 1]);
    }
    forall i | 0 < i < |segs[1..]| ensures at[1..][i] == at[1..][i - 1] + |segs[1..][i - 1].records| {
      assert at[i + 1] == at[i] + |segs[i].records|;
    }
  }

  /** Unbroken pieces are a stretch of the log. */
  lemma {:induction false} UnbrokenHolds<A>(log: seq<Rec<A>>, segs: seq<Seg<A>>, at: seq<nat>)
    requires Pieces(log, segs, at) && Unbroken(segs, at)
    ensures Holding(log, segs, Begins(at), Ends(segs, at))
  {
    if segs != [] {
      assert Piece(log, segs[0], at[0]);
      if |segs| == 1 {
        assert segs[1..] == [];
      } else {
        PiecesTail(log, segs, at);
        UnbrokenHolds(log, segs[1..], at[1..]);
      }
    }
  }

  /** The records a recovery needs are all there: the files form one stream that reaches
      from the first anchor, or the log's start, to the last anchor. */
  ghost predicate Enough<A, V>(disk: Disk<A, V>, at: seq<nat>)
    requires |at| == |disk.segs| && (disk.snapshot.Some? ==> disk.snapshot.value != [])
  {
    && Unbroken(disk.segs, at)
    && match disk.snapshot
       case None => Begins(at) == 0
       case Some(shots) => (at == [] || at[0] <= shots[0].index) && shots[|shots| - 1].index <= Ends(disk.segs, at)
  }

  lemma PlainExact<A(!new), V(!new)>(cfg: Config<A, V>, log: seq<Rec<A>>, segs: seq<Seg<A>>, lo: nat, hi: nat)
    requires GoodLog(cfg, log) && Holding(log, segs, lo, hi) && lo <= hi <= |log|
    ensures segs != [] ==> (segs[0].base > 0 <==> lo > 0)
    ensures lo == 0 ==> ReplaySegs(Plain(cfg.sem), 0, segs, cfg.origin) == Fold(cfg.sem, cfg.origin, log[..hi])
  {
    OffBelow(log, 0, lo);
    if lo == 0 {
      ThroughFold(cfg.sem, log, hi, cfg.origin);
      SegsThrough(Plain(cfg.sem), 0, log, segs, 0, hi, cfg.origin, cfg.origin);
    }
  }

  /** Where the first and the last anchor are in the log. */
  lemma AnchorsIn<A(!new), V(!new)>(cfg: Config<A, V>, log: seq<Rec<A>>, shots: seq<Shot<A, V>>, lo: nat, hi: nat)
    requires ValidConfig(cfg) && Sized(log) && shots != [] && Committed(cfg, log, shots) && lo <= |log| && hi <= |log|
    ensures Off(log, lo) > shots[0].anchor <==> lo > shots[0].index
    ensures Off(log, hi) < shots[|shots| - 1].anchor <==> hi < shots[|shots| - 1].index
  {
    var n := |shots| - 1;
    assert Exact(cfg, log, shots[0], cfg.refs[0]) && Exact(cfg, log, shots[n], cfg.refs[n]);
    OffBelow(log, lo, shots[0].index);
    OffBelow(log, hi, shots[n].index);
  }

  lemma FilteredExact<A(!new), V(!new)>(cfg: Config<A, V>, log: seq<Rec<A>>, segs: seq<Seg<A>>, shots: seq<Shot<A, V>>, lo: nat, hi: nat)
    requires ValidConfig(cfg) && GoodLog(cfg, log) && shots != [] && Committed(cfg, log, shots)
    requires Holding(log, segs, lo, hi) && lo <= hi <= |log| && (segs == [] ==> hi == 0)
    ensures segs != [] ==> (segs[0].base > shots[0].anchor <==> lo > shots[0].index)
    ensures EndAt(segs) < shots[|shots| - 1].anchor <==> hi < shots[|shots| - 1].index
    ensures lo <= shots[0].index && shots[|shots| - 1].index <= hi
            ==> ReplaySegs(Filtered(cfg.sem, AnchorsOf(cfg.refs, shots)), shots[0].anchor, segs, Loaded(shots))
                == Fold(cfg.sem, cfg.origin, log[..hi])
  {
    AnchorsIn(cfg, log, shots, lo, hi);
    if segs != [] {
      HoldingBounds(log, segs, lo, hi);
    }
    if lo <= shots[0].index && shots[|shots| - 1].index <= hi {
      RestoreExact(cfg, log, shots, hi);
      var step, from, st := Filtered(cfg.sem, AnchorsOf(cfg.refs, shots)), shots[0].anchor, Loaded(shots);
      SkipThrough(step, from, log, 0, lo, st, st);
      SegsThrough(step, from, log, segs, lo, hi, st, st);
      CutThrough(step, from, log, hi, hi, st);
      ThroughReplayed(cfg.sem, AnchorsOf(cfg.refs, shots), from, log[..hi], hi, st);
      CutOff(log, hi, hi);
    }
  }

  lemma UnbrokenPlain<A(!new), V(!new)>(cfg: Config<A, V>, policy: Policy, disk: Disk<A, V>, log: seq<Rec<A>>, lo: nat, hi: nat)
    requires GoodLog(cfg, log) && disk.snapshot == None && Contiguous(disk.segs)
    requires Holding(log, disk.segs, lo, hi) && lo <= hi <= |log| && (disk.segs == [] ==> lo == 0)
    ensures Recovered(cfg, policy, disk)
         == if lo == 0 && (disk.torn == 0 || policy == PolicyTruncate) then Fold(cfg.sem, cfg.origin, log[..hi]) else None
  {
    PlainExact(cfg, log, disk.segs, lo, hi);
  }

  lemma UnbrokenFiltered<A(!new), V(!new)>(cfg: Config<A, V>, policy: Policy, disk: Disk<A, V>, shots: seq<Shot<A, V>>,
                                           log: seq<Rec<A>>, lo: nat, hi: nat)
    requires ValidConfig(cfg) && GoodLog(cfg, log) && Contiguous(disk.segs)
    requires disk.snapshot == Some(shots) && shots != [] && Committed(cfg, log, shots)
    requires Holding(log, disk.segs, lo, hi) && lo <= hi <= |log| && (disk.segs == [] ==> hi == 0)
    ensures |shots| == |cfg.refs|
    ensures Recovered(cfg, policy, disk)
         == if lo <= shots[0].index && shots[|shots| - 1].index <= hi && (disk.torn == 0 || policy == PolicyTruncate)
            then Fold(cfg.sem, cfg.origin, log[..hi]) else None
  {
    FilteredExact(cfg, log, disk.segs, shots, lo, hi);
  }

  /** Where the files end is in the log. */
  lemma EndsIn<A>(log: seq<Rec<A>>, segs: seq<Seg<A>>, at: seq<nat>)
    requires Pieces(log, segs, at)
    ensures Ends(segs, at) <= |log|
  {
    if at != [] {
      assert Piece(log, segs[|at| - 1], at[|at| - 1]);
    }
  }

  lemma Bounded<A>(log: seq<Rec<A>>, segs: seq<Seg<A>>, at: seq<nat>)
    requires Pieces(log, segs, at) && Unbroken(segs, at)
    ensures Holding(log, segs, Begins(at), Ends(segs, at)) && Begins(at) <= Ends(segs, at) <= |log|
  {
    UnbrokenHolds(log, segs, at);
    if segs != [] {
      HoldingBounds(log, segs, Begins(at), Ends(segs, at));
    }
  }

  lemma BrokenCase<A(!new), V(!new)>(cfg: Config<A, V>, policy: Policy, disk: Disk<A, V>, log: seq<Rec<A>>, at: seq<nat>)
    requires Sized(log) && Pieces(log, disk.segs, at) && !Unbroken(disk.segs, at)
    requires disk.snapshot.Some? ==> disk.snapshot.value != [] && |disk.snapshot.value| == |cfg.refs|
    ensures Recovered(cfg, policy, disk) == None
  {
    GapShows(log, disk.segs, at);
  }

  lemma PlainCase<A(!new), V(!new)>(cfg: Config<A, V>, policy: Policy, disk: Disk<A, V>, log: seq<Rec<A>>, at: seq<nat>)
    requires GoodLog(cfg, log) && Pieces(log, disk.segs, at) && Unbroken(disk.segs, at) && disk.snapshot == None
    ensures Ends(disk.segs, at) <= |log|
    ensures Recovered(cfg, policy, disk)
         == if Enough(disk, at) && (disk.torn == 0 || policy == PolicyTruncate)
            then Fold(cfg.sem, cfg.origin, log[..Ends(disk.segs, at)]) else None
  {
    Bounded(log, disk.segs, at);
    GapShows(log, disk.segs, at);
    UnbrokenPlain(cfg, policy, disk, log, Begins(at), Ends(disk.segs, at));
  }

  lemma FilteredCase<A(!new), V(!new)>(cfg: Config<A, V>, policy: Policy, disk: Disk<A, V>, shots: seq<Shot<A, V>>,
                                       log: seq<Rec<A>>, at: seq<nat>)
    requires ValidConfig(cfg) && GoodLog(cfg, log) && Pieces(log, disk.segs, at) && Unbroken(disk.segs, at)
    requires disk.snapshot == Some(shots) && shots != [] && Committed(cfg, log, shots)
    ensures Ends(disk.segs, at) <= |log| && |shots| == |cfg.refs|
    ensures Recovered(cfg, policy, disk)
         == if Enough(disk, at) && (disk.torn == 0 || policy == PolicyTruncate)
            then Fold(cfg.sem, cfg.origin, log[..Ends(disk.segs, at)]) else None
  {
    Bounded(log, disk.segs, at);
    GapShows(log, disk.segs, at);
    UnbrokenFiltered(cfg, policy, disk, shots, log, Begins(at), Ends(disk.segs, at));
  }

  /** Nothing is rebuilt with a hole in it.  Whatever files are left of a log, recovery
      gives exactly the state at the end of the last file if no record it needs is
      missing, and refuses to start if one is. */
  lemma RecoversOrRefuses<A(!new), V(!new)>(cfg: Config<A, V>, policy: Policy, disk: Disk<A, V>, log: seq<Rec<A>>, at: seq<nat>)
    requires ValidConfig(cfg) && GoodLog(cfg, log) && Pieces(log, disk.segs, at)
    requires disk.snapshot.Some? ==> disk.snapshot.value != [] && Committed(cfg, log, disk.snapshot.value)
    ensures Ends(disk.segs, at) <= |log|
    ensures disk.snapshot.Some? ==> |disk.snapshot.value| == |cfg.refs|
    ensures Fold(cfg.sem, cfg.origin, log[..Ends(disk.segs, at)]).Some?
    ensures Recovered(cfg, policy, disk)
         == if Enough(disk, at) && (disk.torn == 0 || policy == PolicyTruncate)
            then Fold(cfg.sem, cfg.origin, log[..Ends(disk.segs, at)]) else None
  {
    EndsIn(log, disk.segs, at);
    FoldPrefix(cfg.sem, cfg.origin, log, Ends(disk.segs, at));
    if !Unbroken(disk.segs, at) {
      BrokenCase(cfg, policy, disk, log, at);
    } else if disk.snapshot.None? {
      PlainCase(cfg, policy, disk, log, at);
    } else {
      FilteredCase(cfg, policy, disk, disk.snapshot.value, log, at);
    }
  }

  /** In any run: of the files and the snapshot left by a crash at any point, any number
      of files may be gone or cut short, and the snapshot too.  Recovery is exact or
      refuses. */
  lemma LossAnywhere<A(!new), V(!new)>(cfg: Config<A, V>, policy: Policy, n: nat, s: System<A, V>, left: Disk<A, V>, at: seq<nat>)
    requires ValidConfig(cfg) && Reaches(cfg, n, s)
    requires Pieces(s.w.log, left.segs, at) && left.snapshot in {None, s.disk.snapshot}
    ensures Ends(left.segs, at) <= |s.w.log|
    ensures left.snapshot.Some? ==> left.snapshot.value != [] && |left.snapshot.value| == |cfg.refs|
    ensures Fold(cfg.sem, cfg.origin, s.w.log[..Ends(left.segs, at)]).Some?
    ensures Recovered(cfg, policy, left)
         == if Enough(left, at) && (left.torn == 0 || policy == PolicyTruncate)
            then Fold(cfg.sem, cfg.origin, s.w.log[..Ends(left.segs, at)]) else None
  {
    ReachesInv(cfg, n, s);
    RecoversOrRefuses(cfg, policy, left, s.w.log, at);
  }
}
