/** Rebuilding a keyspace from a fuzzy snapshot and the log (server/persistence.go
    restore, persist/snapshot.go LoadSnapshot, persist/recover.go Recover). */
module Recovery {
  import opened Options
  import opened Records
  import opened Stream
  import opened Replay
  import opened SnapshotProtocol
  import opened SnapshotProof

  /** The shards of a snapshot loaded one after the other into an empty keyspace. */
  function Loaded<A(==), V>(shots: seq<Shot<A, V>>): State<A, V> {
    if shots == [] then map[] else Loaded(shots[..|shots| - 1]) + shots[|shots| - 1].contents
  }

  function AnchorsOf<A, V>(refs: seq<Ref>, shots: seq<Shot<A, V>>): Anchors
    requires |shots| <= |refs|
  {
    if shots == [] then map[]
    else AnchorsOf(refs, shots[..|shots| - 1])[refs[|shots| - 1] := shots[|shots| - 1].anchor]
  }

  /** The records before `e`, those below `from` skipped, the rest filtered. */
  function Replayed<A(==), V>(sem: Semantics<A, V>, anchors: Anchors, from: nat, log: seq<Rec<A>>, e: nat, st: State<A, V>)
    : Option<State<A, V>>
    requires e <= |log|
  {
    if e == 0 then Some(st) else
      match Replayed(sem, anchors, from, log, e - 1, st)
      case None => None
      case Some(prev) =>
        if Off(log, e - 1) < from then Some(prev) else ReplayOne(sem, anchors, Off(log, e - 1), log[e - 1], prev)
  }

  /** restore with a snapshot: refuse a log that ends before the last anchor,
      otherwise load and replay. */
  function Restored<A(==), V>(cfg: Config<A, V>, shots: seq<Shot<A, V>>, log: seq<Rec<A>>): Option<State<A, V>>
    requires |shots| == |cfg.refs| && shots != []
  {
    if Off(log, |log|) < shots[|shots| - 1].anchor then None
    else Replayed(cfg.sem, AnchorsOf(cfg.refs, shots), shots[0].anchor, log, |log|, Loaded(shots))
  }

  /** LoadSnapshot: the loop over the snapshot's sections. */
  method LoadSnapshot<A(==), V>(refs: seq<Ref>, shots: seq<Shot<A, V>>) returns (keyspace: State<A, V>, anchors: Anchors)
    requires |shots| == |refs|
    ensures keyspace == Loaded(shots) && anchors == AnchorsOf(refs, shots)
  {
    keyspace, anchors := map[], map[];
    var i := 0;
    while i < |shots|
      invariant 0 <= i <= |shots|
      invariant keyspace == Loaded(shots[..i]) && anchors == AnchorsOf(refs, shots[..i])
    {
      assert shots[..i + 1][..i] == shots[..i];
      anchors := anchors[refs[i] := shots[i].anchor];
      keyspace := keyspace + shots[i].contents;
      i := i + 1;
    }
    assert shots[..i] == shots;
  }

  /** restore from one log: load, replay through the filter, check the log's end. */
  method Restore<A(==), V>(cfg: Config<A, V>, shots: seq<Shot<A, V>>, log: seq<Rec<A>>)
    returns (res: Option<State<A, V>>)
    requires |shots| == |cfg.refs| && shots != []
    ensures res == Restored(cfg, shots, log)
    ensures Off(log, |log|) < shots[|shots| - 1].anchor ==> res == None
  {
    var keyspace, anchors := LoadSnapshot(cfg.refs, shots);
    var replayer := new Replayer(cfg.sem, keyspace);
    replayer.SetFilter(Some(anchors));
    var from := shots[0].anchor;
    var n, off := 0, 0;
    var failed := false;
    while n < |log| && !failed
      invariant 0 <= n <= |log| && off == Off(log, n)
      invariant replayer.sem == cfg.sem && replayer.anchors == Some(anchors)
      invariant !failed ==> Replayed(cfg.sem, anchors, from, log, n, keyspace) == Some(replayer.keyspace)
      invariant failed ==> n > 0 && Replayed(cfg.sem, anchors, from, log, n, keyspace) == None
    {
      if off >= from {
        var ok := replayer.Apply(off, log[n]);
        failed := !ok;
      }
      off := off + log[n].size;
      n := n + 1;
    }
    if failed {
      FailedStays(cfg.sem, anchors, from, log, n, |log|, keyspace);
      return None;
    }
    if off < shots[|shots| - 1].anchor {
      return None;
    }
    return Some(replayer.keyspace);
  }

  lemma {:induction false} FailedStays<A, V>(sem: Semantics<A, V>, anchors: Anchors, from: nat, log: seq<Rec<A>>,
                                             n: nat, e: nat, st: State<A, V>)
    requires n <= e <= |log| && Replayed(sem, anchors, from, log, n, st) == None
    ensures Replayed(sem, anchors, from, log, e, st) == None
  {
    if n < e {
      FailedStays(sem, anchors, from, log, n, e - 1, st);
    }
  }

  // ------------------------------------------------------------------ the theorem

  lemma {:induction false} AnchorsAre<A, V>(refs: seq<Ref>, shots: seq<Shot<A, V>>)
    requires |shots| <= |refs|
    requires forall i, j | 0 <= i < j < |refs| :: refs[i] != refs[j]
    ensures forall k | 0 <= k < |shots| :: AnchorOf(AnchorsOf(refs, shots), refs[k]) == shots[k].anchor
    ensures forall ref | ref in AnchorsOf(refs, shots) :: ref in refs
  {
    if shots != [] {
      AnchorsAre(refs, shots[..|shots| - 1]);
    }
  }

  lemma ShotsPrefix<A(!new), V(!new)>(cfg: Config<A, V>, log: seq<Rec<A>>, shots: seq<Shot<A, V>>, n: nat)
    requires ShotsInv(cfg, log, shots) && n <= |shots|
    ensures ShotsInv(cfg, log, shots[..n])
  {
    forall i | 0 <= i < n ensures Exact(cfg, log, shots[..n][i], cfg.refs[i]) {
      assert Exact(cfg, log, shots[i], cfg.refs[i]);
    }
  }

  /** Loading one shard sets that shard and touches no other. */
  lemma LoadOne<A(!new), V(!new)>(cfg: Config<A, V>, st: State<A, V>, contents: State<A, V>, ref: Ref, other: Ref)
    requires forall slot | slot in contents :: RefOf(cfg.sem, slot) == ref
    requires forall slot: Slot<A> | slot in st :: RefOf(cfg.sem, slot) != ref
    ensures AgreeOn(cfg.sem, st + contents, contents, ref)
    ensures other != ref ==> AgreeOn(cfg.sem, st + contents, st, other)
  {
  }

  ghost predicate LoadedFrom<A(!new), V(!new)>(cfg: Config<A, V>, st: State<A, V>, n: nat)
    requires n <= |cfg.refs|
  {
    forall slot | slot in st :: RefOf(cfg.sem, slot) in cfg.refs[..n]
  }

  /** Loading puts every shard at its own instant. */
  lemma {:induction false} LoadedAt<A(!new), V(!new)>(cfg: Config<A, V>, log: seq<Rec<A>>, shots: seq<Shot<A, V>>)
    requires ValidConfig(cfg) && ShotsInv(cfg, log, shots)
    ensures forall k | 0 <= k < |shots| :: AgreeOn(cfg.sem, Loaded(shots), shots[k].contents, cfg.refs[k])
    ensures LoadedFrom(cfg, Loaded(shots), |shots|)
  {
    if shots != [] {
      var n := |shots| - 1;
      var init, ref := shots[..n], cfg.refs[n];
      ShotsPrefix(cfg, log, shots, n);
      LoadedAt(cfg, log, init);
      assert Exact(cfg, log, shots[n], ref);
      forall slot | slot in Loaded(init) ensures RefOf(cfg.sem, slot) != ref {
        var i :| 0 <= i < n && cfg.refs[..n][i] == RefOf(cfg.sem, slot);
      }
      forall k | 0 <= k < |shots| ensures AgreeOn(cfg.sem, Loaded(shots), shots[k].contents, cfg.refs[k]) {
        LoadOne(cfg, Loaded(init), shots[n].contents, ref, cfg.refs[k]);
        if k < n {
          assert AgreeOn(cfg.sem, Loaded(init), init[k].contents, cfg.refs[k]);
        }
      }
      forall slot | slot in Loaded(shots) ensures RefOf(cfg.sem, slot) in cfg.refs[..n + 1] {
        assert cfg.refs[..n + 1] == cfg.refs[..n] + [ref];
      }
    }
  }

  function Max(a: nat, b: nat): nat {
    if a < b then b else a
  }

  /** Replay has reached record `i`: each shard is at its anchor or at `i`,
      whichever is later. */
  ghost predicate Reached<A(!new), V(!new)>(cfg: Config<A, V>, log: seq<Rec<A>>, shots: seq<Shot<A, V>>, i: nat, st: State<A, V>)
    requires |shots| == |cfg.refs| && i <= |log| && forall k | 0 <= k < |shots| :: shots[k].index <= |log|
  {
    && InRange(cfg, st)
    && forall k | 0 <= k < |shots| :: AgreeOn(cfg.sem, st, At(cfg, log[..Max(i, shots[k].index)]), cfg.refs[k])
  }

  ghost predicate GoodLog<A(!new), V(!new)>(cfg: Config<A, V>, log: seq<Rec<A>>) {
    && Fold(cfg.sem, cfg.origin, log).Some?
    && Sized(log)
    && forall i | 0 <= i < |log| :: RecIn(cfg, log[i])
  }

  lemma AtNext<A(!new), V(!new)>(cfg: Config<A, V>, log: seq<Rec<A>>, i: nat)
    requires ValidConfig(cfg) && GoodLog(cfg, log) && i < |log|
    ensures Run(cfg.sem, log[i], At(cfg, log[..i])) == Some(At(cfg, log[..i + 1]))
    ensures InRange(cfg, At(cfg, log[..i]))
  {
    FoldPrefix(cfg.sem, cfg.origin, log, i);
    FoldPrefix(cfg.sem, cfg.origin, log, i + 1);
    assert log[..i + 1][..i] == log[..i];
    forall j | 0 <= j < |log[..i]| ensures RecIn(cfg, log[..i][j]) {
      assert log[..i][j] == log[j];
    }
    FoldInRange(cfg, log[..i], cfg.origin);
  }

  /** A shard wants record `i` exactly when its anchor does not cover it. */
  lemma WantedIs<A(!new), V(!new)>(cfg: Config<A, V>, log: seq<Rec<A>>, shots: seq<Shot<A, V>>, i: nat, k: nat)
    requires ValidConfig(cfg) && Sized(log) && Serialized(cfg, log, shots) && i < |log| && k < |shots|
    ensures Wanted(AnchorsOf(cfg.refs, shots), Off(log, i))(cfg.refs[k]) <==> shots[k].index <= i
  {
    AnchorsAre(cfg.refs, shots);
    assert Exact(cfg, log, shots[k], cfg.refs[k]);
    if shots[k].index <= i {
      OffMonotone(log, shots[k].index, i);
    } else {
      OffMonotone(log, i, shots[k].index);
    }
  }

  lemma ReachedAgrees<A(!new), V(!new)>(cfg: Config<A, V>, log: seq<Rec<A>>, shots: seq<Shot<A, V>>, i: nat, st: State<A, V>)
    requires ValidConfig(cfg) && GoodLog(cfg, log) && Committed(cfg, log, shots) && i < |log|
    requires (forall k | 0 <= k < |shots| :: shots[k].index <= |log|) && Reached(cfg, log, shots, i, st)
    ensures Agree(cfg.sem, At(cfg, log[..i]), st, Wanted(AnchorsOf(cfg.refs, shots), Off(log, i)))
  {
    var s, want := At(cfg, log[..i]), Wanted(AnchorsOf(cfg.refs, shots), Off(log, i));
    AtNext(cfg, log, i);
    forall ref: Ref | want(ref) ensures AgreeOn(cfg.sem, s, st, ref) {
      if ref in cfg.refs {
        var k :| 0 <= k < |cfg.refs| && cfg.refs[k] == ref;
        WantedIs(cfg, log, shots, i, k);
        assert Max(i, shots[k].index) == i;
      } else {
        forall slot: Slot<A> | RefOf(cfg.sem, slot) == ref ensures Get(s, slot) == Get(st, slot) {
          assert slot !in s && slot !in st;
        }
      }
    }
  }

  /** One replayed record moves every shard that needs it on by one. */
  lemma ReplayStep<A(!new), V(!new)>(cfg: Config<A, V>, log: seq<Rec<A>>, shots: seq<Shot<A, V>>, i: nat, st: State<A, V>)
    requires ValidConfig(cfg) && GoodLog(cfg, log) && Committed(cfg, log, shots)
    requires i < |log| && shots[0].index <= i
    requires (forall k | 0 <= k < |shots| :: shots[k].index <= |log|) && Reached(cfg, log, shots, i, st)
    ensures var out := ReplayOne(cfg.sem, AnchorsOf(cfg.refs, shots), Off(log, i), log[i], st);
            out.Some? && Reached(cfg, log, shots, i + 1, out.value)
  {
    var anchors, off, r := AnchorsOf(cfg.refs, shots), Off(log, i), log[i];
    var s, want := At(cfg, log[..i]), Wanted(anchors, off);
    AtNext(cfg, log, i);
    ReachedAgrees(cfg, log, shots, i, st);
    if r.d.locality == ShardLocal {
      ReplayLocal(cfg.sem, anchors, off, r, s, st);
      var out := ReplayOne(cfg.sem, anchors, off, r, st).value;
      forall k | 0 <= k < |shots|
        ensures AgreeOn(cfg.sem, out, At(cfg, log[..Max(i + 1, shots[k].index)]), cfg.refs[k])
      {
        WantedIs(cfg, log, shots, i, k);
        if shots[k].index <= i {
          assert want(cfg.refs[k]);
          assert AgreeOn(cfg.sem, At(cfg, log[..i + 1]), out, cfg.refs[k]);
        } else {
          assert AgreeOn(cfg.sem, st, out, cfg.refs[k]);
        }
      }
      LocalInRange(cfg, anchors, off, r, s, st);
    } else {
      CrossStep(cfg, log, shots, i, st);
    }
  }

  lemma LocalInRange<A(!new), V(!new)>(cfg: Config<A, V>, anchors: Anchors, off: nat, r: Rec<A>, s: State<A, V>, st: State<A, V>)
    requires ValidConfig(cfg) && RecIn(cfg, r) && r.d.locality == ShardLocal
    requires Run(cfg.sem, r, s).Some? && InRange(cfg, s) && InRange(cfg, st)
    requires Agree(cfg.sem, s, st, Wanted(anchors, off))
    ensures ReplayOne(cfg.sem, anchors, off, r, st).Some?
    ensures InRange(cfg, ReplayOne(cfg.sem, anchors, off, r, st).value)
  {
    ReplayLocal(cfg.sem, anchors, off, r, s, st);
    RunInRange(cfg, r, s);
    var s', out := Run(cfg.sem, r, s).value, ReplayOne(cfg.sem, anchors, off, r, st).value;
    forall slot | slot in out ensures RefOf(cfg.sem, slot) in cfg.refs {
      var ref := RefOf(cfg.sem, slot);
      if Wanted(anchors, off)(ref) {
        assert AgreeOn(cfg.sem, s', out, ref);
        assert Get(s', slot) == Get(out, slot);
      } else {
        assert AgreeOn(cfg.sem, st, out, ref);
        assert Get(st, slot) == Get(out, slot);
      }
    }
  }

  /** A cross-shard record is never inside the window, so it meets a keyspace
      whose shards are all at the same instant, and is applied whole. */
  lemma CrossStep<A(!new), V(!new)>(cfg: Config<A, V>, log: seq<Rec<A>>, shots: seq<Shot<A, V>>, i: nat, st: State<A, V>)
    requires ValidConfig(cfg) && GoodLog(cfg, log) && Committed(cfg, log, shots)
    requires i < |log| && shots[0].index <= i && log[i].d.locality == CrossShard
    requires (forall k | 0 <= k < |shots| :: shots[k].index <= |log|) && Reached(cfg, log, shots, i, st)
    ensures var out := ReplayOne(cfg.sem, AnchorsOf(cfg.refs, shots), Off(log, i), log[i], st);
            out.Some? && Reached(cfg, log, shots, i + 1, out.value)
  {
    var n := |shots| - 1;
    assert shots[n].index <= i;
    assert forall k | 0 <= k < |shots| :: shots[k].index <= i && Max(i, shots[k].index) == i;
    var s, r := At(cfg, log[..i]), log[i];
    AtNext(cfg, log, i);
    forall ref | ref in cfg.refs ensures AgreeOn(cfg.sem, s, st, ref) {
      var k :| 0 <= k < |cfg.refs| && cfg.refs[k] == ref;
      assert AgreeOn(cfg.sem, st, At(cfg, log[..Max(i, shots[k].index)]), cfg.refs[k]);
    }
    SameInRange(cfg, s, st);
    WholeKept(cfg, log, shots, i);
    RunInRange(cfg, r, s);
  }

  lemma WholeKept<A(!new), V(!new)>(cfg: Config<A, V>, log: seq<Rec<A>>, shots: seq<Shot<A, V>>, i: nat)
    requires ValidConfig(cfg) && Sized(log) && Committed(cfg, log, shots)
    requires i < |log| && |log[i].args| >= 1 && forall k | 0 <= k < |shots| :: shots[k].index <= i
    ensures NarrowOf(cfg.sem, log[i], Wanted(AnchorsOf(cfg.refs, shots), Off(log, i))) == Keep(log[i].args)
  {
    var r, want := log[i], Wanted(AnchorsOf(cfg.refs, shots), Off(log, i));
    AnchorsAre(cfg.refs, shots);
    forall ref: Ref ensures want(ref) {
      if ref in cfg.refs {
        var k :| 0 <= k < |cfg.refs| && cfg.refs[k] == ref;
        WantedIs(cfg, log, shots, i, k);
      }
    }
    CountAll(cfg.sem, r.db, KeysOf(r.d, r.args), want);
  }

  lemma LoadedReached<A(!new), V(!new)>(cfg: Config<A, V>, log: seq<Rec<A>>, shots: seq<Shot<A, V>>)
    requires ValidConfig(cfg) && Committed(cfg, log, shots)
    requires forall k | 0 <= k < |shots| :: shots[k].index <= |log|
    ensures Reached(cfg, log, shots, 0, Loaded(shots))
  {
    LoadedAt(cfg, log, shots);
    assert cfg.refs[..|shots|] == cfg.refs;
    forall k | 0 <= k < |shots|
      ensures AgreeOn(cfg.sem, Loaded(shots), At(cfg, log[..Max(0, shots[k].index)]), cfg.refs[k])
    {
      assert Exact(cfg, log, shots[k], cfg.refs[k]);
      assert AgreeOn(cfg.sem, Loaded(shots), shots[k].contents, cfg.refs[k]);
    }
  }

  /** Below the first anchor nothing has to be replayed. */
  lemma SkipReached<A(!new), V(!new)>(cfg: Config<A, V>, log: seq<Rec<A>>, shots: seq<Shot<A, V>>, i: nat, st: State<A, V>)
    requires Committed(cfg, log, shots) && shots != [] && i < shots[0].index && i < |log|
    requires (forall k | 0 <= k < |shots| :: shots[k].index <= |log|) && Reached(cfg, log, shots, i, st)
    ensures Reached(cfg, log, shots, i + 1, st)
  {
    forall k | 0 <= k < |shots|
      ensures AgreeOn(cfg.sem, st, At(cfg, log[..Max(i + 1, shots[k].index)]), cfg.refs[k])
    {
      assert shots[0].index <= shots[k].index;
      assert Max(i + 1, shots[k].index) == Max(i, shots[k].index);
    }
  }

  /** What a restore starts from. */
  ghost predicate Restorable<A(!new), V(!new)>(cfg: Config<A, V>, log: seq<Rec<A>>, shots: seq<Shot<A, V>>) {
    && ValidConfig(cfg) && GoodLog(cfg, log) && Committed(cfg, log, shots)
    && forall k | 0 <= k < |shots| :: shots[k].index <= |log|
  }

  /** What recovery makes of record i: nothing below the first anchor, else a filtered
      replay. */
  ghost function StepOn<A, V>(cfg: Config<A, V>, log: seq<Rec<A>>, shots: seq<Shot<A, V>>, i: nat, st: State<A, V>)
    : Option<State<A, V>>
    requires i < |log| && |shots| == |cfg.refs| && shots != []
  {
    if Off(log, i) < shots[0].anchor then Some(st) else ReplayOne(cfg.sem, AnchorsOf(cfg.refs, shots), Off(log, i), log[i], st)
  }

  lemma OneOn<A(!new), V(!new)>(cfg: Config<A, V>, log: seq<Rec<A>>, shots: seq<Shot<A, V>>, i: nat, st: State<A, V>)
    returns (next: State<A, V>)
    requires Restorable(cfg, log, shots) && i < |log| && Reached(cfg, log, shots, i, st)
    ensures StepOn(cfg, log, shots, i, st) == Some(next) && Reached(cfg, log, shots, i + 1, next)
  {
    assert Exact(cfg, log, shots[0], cfg.refs[0]);
    if i < shots[0].index {
      OffMonotone(log, i, shots[0].index);
      SkipReached(cfg, log, shots, i, st);
      next := st;
    } else {
      OffMonotone(log, shots[0].index, i);
      ReplayStep(cfg, log, shots, i, st);
      next := ReplayOne(cfg.sem, AnchorsOf(cfg.refs, shots), Off(log, i), log[i], st).value;
    }
  }

  lemma ReplayedOn<A, V>(cfg: Config<A, V>, log: seq<Rec<A>>, shots: seq<Shot<A, V>>, i: nat, first: State<A, V>,
                         st: State<A, V>, next: State<A, V>)
    requires i < |log| && |shots| == |cfg.refs| && shots != []
    requires Replayed(cfg.sem, AnchorsOf(cfg.refs, shots), shots[0].anchor, log, i, first) == Some(st)
    requires StepOn(cfg, log, shots, i, st) == Some(next)
    ensures Replayed(cfg.sem, AnchorsOf(cfg.refs, shots), shots[0].anchor, log, i + 1, first) == Some(next)
  {
  }

  /** Replay from `first` up to record e has succeeded, with every shard at e, or at its
      anchor if that lies beyond. */
  ghost predicate Carried<A(!new), V(!new)>(cfg: Config<A, V>, log: seq<Rec<A>>, shots: seq<Shot<A, V>>, first: State<A, V>, e: nat,
                                            st: State<A, V>)
    requires Restorable(cfg, log, shots) && e <= |log|
  {
    && Replayed(cfg.sem, AnchorsOf(cfg.refs, shots), shots[0].anchor, log, e, first) == Some(st)
    && Reached(cfg, log, shots, e, st)
  }

  lemma CarriedNext<A(!new), V(!new)>(cfg: Config<A, V>, log: seq<Rec<A>>, shots: seq<Shot<A, V>>, first: State<A, V>, e: nat,
                                      st: State<A, V>)
    returns (next: State<A, V>)
    requires Restorable(cfg, log, shots) && e < |log| && Carried(cfg, log, shots, first, e, st)
    ensures Carried(cfg, log, shots, first, e + 1, next)
  {
    next := OneOn(cfg, log, shots, e, st);
    ReplayedOn(cfg, log, shots, e, first, st, next);
  }

  lemma CarriedTo<A(!new), V(!new)>(cfg: Config<A, V>, log: seq<Rec<A>>, shots: seq<Shot<A, V>>, first: State<A, V>, e: nat)
    returns (out: State<A, V>)
    requires Restorable(cfg, log, shots) && e <= |log| && Carried(cfg, log, shots, first, 0, first)
    ensures Carried(cfg, log, shots, first, e, out)
  {
    out := first;
    for i := 0 to e
      invariant Carried(cfg, log, shots, first, i, out)
    {
      out := CarriedNext(cfg, log, shots, first, i, out);
    }
  }

  /** Replaying up to record e succeeds and brings every shard to e, or to its anchor if
      that lies beyond. */
  lemma ReplayReaches<A(!new), V(!new)>(cfg: Config<A, V>, log: seq<Rec<A>>, shots: seq<Shot<A, V>>, e: nat)
    returns (st: State<A, V>)
    requires Restorable(cfg, log, shots) && e <= |log|
    ensures Carried(cfg, log, shots, Loaded(shots), e, st)
  {
    LoadedReached(cfg, log, shots);
    st := CarriedTo(cfg, log, shots, Loaded(shots), e);
  }

  /** The main theorem, for one committed snapshot: loading it and replaying the
      filtered log up to any record boundary at or past the last anchor never
      fails, and gives exactly the state of the whole log prefix. */
  lemma RestoreExact<A(!new), V(!new)>(cfg: Config<A, V>, log: seq<Rec<A>>, shots: seq<Shot<A, V>>, e: nat)
    requires ValidConfig(cfg) && GoodLog(cfg, log) && Committed(cfg, log, shots)
    requires e <= |log| && Off(log, e) >= shots[|shots| - 1].anchor
    ensures Fold(cfg.sem, cfg.origin, log[..e]).Some?
    ensures Restored(cfg, shots, log[..e]) == Fold(cfg.sem, cfg.origin, log[..e])
  {
    var n := |shots| - 1;
    FoldPrefix(cfg.sem, cfg.origin, log, e);
    var cut := log[..e];
    assert Exact(cfg, log, shots[n], cfg.refs[n]);
    if e < shots[n].index {
      OffMonotone(log, e, shots[n].index);
    }
    CommittedCut(cfg, log, shots, e);
    CutOff(log, e, e);
    var out := ReplayReaches(cfg, cut, shots, e);
    assert cut[..e] == cut;
    forall ref | ref in cfg.refs ensures AgreeOn(cfg.sem, out, At(cfg, cut), ref) {
      var k :| 0 <= k < |cfg.refs| && cfg.refs[k] == ref;
      assert Max(e, shots[k].index) == e;
      assert AgreeOn(cfg.sem, out, At(cfg, cut[..Max(e, shots[k].index)]), cfg.refs[k]);
    }
    FoldInRange(cfg, cut, cfg.origin);
    SameInRange(cfg, out, At(cfg, cut));
  }

  lemma CommittedCut<A(!new), V(!new)>(cfg: Config<A, V>, log: seq<Rec<A>>, shots: seq<Shot<A, V>>, e: nat)
    requires ValidConfig(cfg) && GoodLog(cfg, log) && Committed(cfg, log, shots)
    requires e <= |log| && shots[|shots| - 1].index <= e
    ensures GoodLog(cfg, log[..e]) && Committed(cfg, log[..e], shots)
    ensures forall k | 0 <= k < |shots| :: shots[k].index <= e
  {
    FoldPrefix(cfg.sem, cfg.origin, log, e);
    forall k | 0 <= k < |shots| ensures Exact(cfg, log[..e], shots[k], cfg.refs[k]) {
      assert Exact(cfg, log, shots[k], cfg.refs[k]);
      CutOff(log, e, shots[k].index);
      assert log[..e][..shots[k].index] == log[..shots[k].index];
    }
    forall i | 0 <= i < |log[..e]| ensures RecIn(cfg, log[..e][i]) {
      assert log[..e][i] == log[i];
    }
  }

  /** The main theorem over whole runs: after any interleaving of ordered writes,
      guarded cross-shard writes, transactions and snapshot steps, the last committed
      snapshot and any log prefix restore to exactly what that prefix describes if it
      reaches the last anchor, and are refused if it does not; given, where transactions
      run cross-shard commands, that none of their records lies between the anchors. */
  lemma SnapshotRecovers<A(!new), V(!new)>(cfg: Config<A, V>, run: seq<World<A, V>>, steps: seq<Step<A>>, i: nat, e: nat)
    requires ValidConfig(cfg) && Reachable(cfg, run, steps) && i < |run|
    requires run[i].done.Some? && e <= |run[i].log|
    requires cfg.exec ==> Undisturbed(run[i].log, run[i].done.value)
    ensures run[i].done.value != [] && |run[i].done.value| == |cfg.refs|
    ensures Fold(cfg.sem, cfg.origin, run[i].log[..e]).Some?
    ensures Restored(cfg, run[i].done.value, run[i].log[..e])
         == if run[i].done.value[|cfg.refs| - 1].index <= e then Fold(cfg.sem, cfg.origin, run[i].log[..e]) else None
  {
    RunInv(cfg, run, steps, i);
    RestoresOrRefuses(cfg, run[i].log, run[i].done.value, e);
  }

  /** A log that ends before the last anchor is refused, whatever it holds. */
  lemma ShortLogRefused<A, V>(cfg: Config<A, V>, shots: seq<Shot<A, V>>, log: seq<Rec<A>>)
    requires |shots| == |cfg.refs| && shots != [] && Off(log, |log|) < shots[|shots| - 1].anchor
    ensures Restored(cfg, shots, log) == None
  {
  }

  /** For one committed snapshot and any prefix of the log: exact, or refused. */
  lemma RestoresOrRefuses<A(!new), V(!new)>(cfg: Config<A, V>, log: seq<Rec<A>>, shots: seq<Shot<A, V>>, e: nat)
    requires ValidConfig(cfg) && GoodLog(cfg, log) && Committed(cfg, log, shots) && e <= |log|
    ensures Fold(cfg.sem, cfg.origin, log[..e]).Some?
    ensures Restored(cfg, shots, log[..e])
         == if shots[|shots| - 1].index <= e then Fold(cfg.sem, cfg.origin, log[..e]) else None
  {
    var n := |shots| - 1;
    FoldPrefix(cfg.sem, cfg.origin, log, e);
    assert Exact(cfg, log, shots[n], cfg.refs[n]);
    OffBelow(log, shots[n].index, e);
    CutOff(log, e, e);
    if shots[n].index <= e {
      RestoreExact(cfg, log, shots, e);
    } else {
      ShortLogRefused(cfg, shots, log[..e]);
    }
  }

  /** What the refusal is for: replaying a shorter log would leave every shard at its own
      instant, one at the log's end, another at its anchor beyond it. */
  lemma ShortLogMixes<A(!new), V(!new)>(cfg: Config<A, V>, log: seq<Rec<A>>, shots: seq<Shot<A, V>>, e: nat)
    returns (st: State<A, V>)
    requires ValidConfig(cfg) && GoodLog(cfg, log) && Committed(cfg, log, shots) && e <= |log|
    ensures Replayed(cfg.sem, AnchorsOf(cfg.refs, shots), shots[0].anchor, log, e, Loaded(shots)) == Some(st)
    ensures forall k | 0 <= k < |shots| ::
              && shots[k].index <= |log|
              && AgreeOn(cfg.sem, st, At(cfg, log[..if e < shots[k].index then shots[k].index else e]), cfg.refs[k])
  {
    forall k | 0 <= k < |shots| ensures shots[k].index <= |log| {
      assert Exact(cfg, log, shots[k], cfg.refs[k]);
    }
    st := ReplayReaches(cfg, log, shots, e);
    forall k | 0 <= k < |shots|
      ensures AgreeOn(cfg.sem, st, At(cfg, log[..if e < shots[k].index then shots[k].index else e]), cfg.refs[k])
    {
      assert AgreeOn(cfg.sem, st, At(cfg, log[..Max(e, shots[k].index)]), cfg.refs[k]);
    }
  }

  /** In particular the snapshot and the whole log. */
  lemma RestoresLog<A(!new), V(!new)>(cfg: Config<A, V>, run: seq<World<A, V>>, steps: seq<Step<A>>, i: nat)
    requires ValidConfig(cfg) && Reachable(cfg, run, steps) && i < |run| && run[i].done.Some?
    requires cfg.exec ==> Undisturbed(run[i].log, run[i].done.value)
    ensures run[i].done.value != [] && |run[i].done.value| == |cfg.refs|
    ensures Fold(cfg.sem, cfg.origin, run[i].log).Some?
    ensures Restored(cfg, run[i].done.value, run[i].log) == Fold(cfg.sem, cfg.origin, run[i].log)
  {
    var w := run[i];
    RunInv(cfg, run, steps, i);
    var shots := w.done.value;
    assert Exact(cfg, w.log, shots[|shots| - 1], cfg.refs[|shots| - 1]);
    OffMonotone(w.log, shots[|shots| - 1].index, |w.log|);
    assert w.log[..|w.log|] == w.log;
    SnapshotRecovers(cfg, run, steps, i, |w.log|);
  }

  /** And when no write is in flight, restoring from the whole log gives back the
      live keyspace. */
  lemma RestoresLive<A(!new), V(!new)>(cfg: Config<A, V>, run: seq<World<A, V>>, steps: seq<Step<A>>, i: nat)
    requires ValidConfig(cfg) && Reachable(cfg, run, steps) && i < |run|
    requires run[i].done.Some? && run[i].writers == map[]
    requires cfg.exec ==> Undisturbed(run[i].log, run[i].done.value)
    ensures run[i].done.value != [] && |run[i].done.value| == |cfg.refs|
    ensures Restored(cfg, run[i].done.value, run[i].log) == Some(run[i].state)
  {
    RestoresLog(cfg, run, steps, i);
    LiveIsLog(cfg, run, steps, i);
  }

  lemma AnchorsOrdered<A, V>(log: seq<Rec<A>>, a: Shot<A, V>, b: Shot<A, V>)
    requires Sized(log) && a.index <= b.index <= |log| && a.anchor == Off(log, a.index) && b.anchor == Off(log, b.index)
    ensures a.anchor <= b.anchor <= Off(log, |log|)
  {
    OffMonotone(log, a.index, b.index);
    OffMonotone(log, b.index, |log|);
  }

  /** The anchors never go backwards, so SnapshotWriter.Anchor accepts each one. */
  lemma AnchorsAscend<A(!new), V(!new)>(cfg: Config<A, V>, run: seq<World<A, V>>, steps: seq<Step<A>>, i: nat, j: nat, k: nat)
    requires ValidConfig(cfg) && Reachable(cfg, run, steps) && i < |run|
    requires run[i].open && j <= k < |run[i].shots|
    ensures run[i].shots[j].anchor <= run[i].shots[k].anchor <= Off(run[i].log, |run[i].log|)
  {
    RunInv(cfg, run, steps, i);
    var log, shots := run[i].log, run[i].shots;
    assert Exact(cfg, log, shots[j], cfg.refs[j]) && Exact(cfg, log, shots[k], cfg.refs[k]);
    AnchorsOrdered(log, shots[j], shots[k]);
  }
}
