/** What the snapshot guard is for.  EXEC takes every ordering lock but not the guard
    (command/transaction.go), so a cross-shard effect of a transaction can land inside a
    snapshot window.  This module says exactly which histories that spoils. */
module Unguarded {
  import opened Options
  import opened Records
  import opened Stream
  import opened Replay
  import opened SnapshotProtocol
  import opened SnapshotProof
  import opened Recovery

  /** What a run leaves behind, whatever its commands do: the shards and the hash that
      spreads keys over them, the log, and how many records each shard's anchor covers. */
  datatype History<!A(==, !new)> = History(refs: seq<Ref>, shardOf: A -> nat, log: seq<Rec<A>>, at: seq<nat>) {
    ghost predicate Valid() {
      && refs != [] && |at| == |refs| && at[|at| - 1] <= |log|
      && (forall i, j | 0 <= i < j < |refs| :: refs[i] != refs[j] && at[i] <= at[j])
      && (forall i | 0 <= i < |log| :: Sound(log[i]))
      && (forall ref | ref in refs :: exists key: A :: shardOf(key) == ref.shard)
    }

    ghost predicate Sound(r: Rec<A>) {
      && WellFormed(r) && r.size > 0
      && (r.d.locality == ShardLocal ==>
            forall i | 0 <= i < |KeysOf(r.d, r.args)| :: Ref(r.db, shardOf(KeysOf(r.d, r.args)[i])) in refs)
    }
  }

  /** A command set under which this log is a good one. */
  ghost predicate Fits<A(!new), V(!new)>(h: History<A>, cfg: Config<A, V>) {
    && cfg.refs == h.refs && cfg.sem.shardOf == h.shardOf && cfg.exec && ValidConfig(cfg)
    && Fold(cfg.sem, cfg.origin, h.log).Some?
  }

  /** A state of the protocol with this log and a snapshot anchored there. */
  ghost predicate Shows<A(!new), V(!new)>(h: History<A>, w: World<A, V>) {
    && w.log == h.log && w.done.Some? && |w.done.value| == |h.at|
    && forall k | 0 <= k < |h.at| :: w.done.value[k].index == h.at[k]
  }

  ghost predicate Recovers<A(!new), V(!new)>(cfg: Config<A, V>, w: World<A, V>) {
    && w.done.Some? && w.done.value != [] && |w.done.value| == |cfg.refs|
    && Restored(cfg, w.done.value, w.log) == Fold(cfg.sem, cfg.origin, w.log)
  }

  /** Recovery is exact whatever the commands do, in every run that comes to this
      history. */
  ghost predicate AlwaysRecovers<A(!new)>(h: History<A>) {
    forall cfg: Config<A, nat>, run, steps ::
      Fits(h, cfg) && Reachable(cfg, run, steps) && Shows(h, run[|steps|]) ==> Recovers(cfg, run[|steps|])
  }

  // -------------------------------------------------------------- every history is met

  ghost predicate Got<A(!new), V(!new)>(cfg: Config<A, V>, w: World<A, V>) {
    exists run, steps :: Reachable(cfg, run, steps) && run[|steps|] == w
  }

  lemma Go<A(!new), V(!new)>(cfg: Config<A, V>, w: World<A, V>, w': World<A, V>, step: Step<A>)
    requires Got(cfg, w) && Next(cfg, w, w', step)
    ensures Got(cfg, w')
  {
    var run, steps :| Reachable(cfg, run, steps) && run[|steps|] == w;
    var run', steps' := run + [w'], steps + [step];
    forall i | 0 <= i < |steps'| ensures Next(cfg, run'[i], run'[i + 1], steps'[i]) {
      if i < |steps| {
        assert Next(cfg, run[i], run[i + 1], steps[i]);
      }
    }
    assert Reachable(cfg, run', steps');
  }

  /** Nobody is writing, and the snapshotter is between two shards. */
  ghost predicate Calm<A(!new), V(!new)>(w: World<A, V>) {
    w.prop == map[] && w.writers == map[] && w.phase == Resting && w.durable == |w.log|
  }

  function Locked(refs: seq<Ref>, n: nat): map<Ref, Holder>
    requires n <= |refs|
  {
    map ref | ref in refs[..n] :: ByWriter(0)
  }

  lemma LockedStep(refs: seq<Ref>, n: nat)
    requires n < |refs| && forall i, j | 0 <= i < j < |refs| :: refs[i] != refs[j]
    ensures refs[n] !in Locked(refs, n)
    ensures Locked(refs, n + 1) == Locked(refs, n)[refs[n] := ByWriter(0)]
    ensures Locked(refs, n) == Locked(refs, n + 1) - {refs[n]}
  {
    assert refs[..n + 1] == refs[..n] + [refs[n]];
  }

  function Exec<A, V>(cfg: Config<A, V>, pending: seq<Rec<A>>, waiting: Option<nat>, leaving: bool): Writer<A> {
    Writer(true, false, (set ref | ref in cfg.refs), pending, waiting, leaving)
  }

  /** The transaction holds the first `n` prop locks. */
  function Busy<A, V>(cfg: Config<A, V>, w: World<A, V>, n: nat, wr: Writer<A>): World<A, V>
    requires n <= |cfg.refs|
  {
    w.(prop := Locked(cfg.refs, n), writers := map[0 := wr])
  }

  /** EXEC takes every prop lock, one after the other. */
  lemma LockOne<A(!new), V(!new)>(cfg: Config<A, V>, w: World<A, V>, n: nat, wr: Writer<A>)
    requires ValidConfig(cfg) && n < |cfg.refs| && !wr.leaving && cfg.refs[n] in wr.needs && Got(cfg, Busy(cfg, w, n, wr))
    ensures Got(cfg, Busy(cfg, w, n + 1, wr))
  {
    LockedStep(cfg.refs, n);
    Go(cfg, Busy(cfg, w, n, wr), Busy(cfg, w, n + 1, wr), Acquire(0, cfg.refs[n]));
  }

  lemma LockAll<A(!new), V(!new)>(cfg: Config<A, V>, w: World<A, V>)
    requires ValidConfig(cfg) && cfg.exec && Got(cfg, w) && Calm(w)
    ensures Got(cfg, Busy(cfg, w, |cfg.refs|, Exec(cfg, [], None, false)))
  {
    var wr := Exec(cfg, [], None, false);
    assert Locked(cfg.refs, 0) == map[];
    Go(cfg, w, Busy(cfg, w, 0, wr), BeginExec(0));
    for n := 0 to |cfg.refs|
      invariant Got(cfg, Busy(cfg, w, n, wr))
    {
      LockOne(cfg, w, n, wr);
    }
  }

  /** And gives them back when it leaves. */
  lemma UnlockOne<A(!new), V(!new)>(cfg: Config<A, V>, w: World<A, V>, n: nat, wr: Writer<A>)
    requires ValidConfig(cfg) && n < |cfg.refs| && wr.leaving && Got(cfg, Busy(cfg, w, n + 1, wr))
    ensures Got(cfg, Busy(cfg, w, n, wr))
  {
    LockedStep(cfg.refs, n);
    Go(cfg, Busy(cfg, w, n + 1, wr), Busy(cfg, w, n, wr), Drop(0, cfg.refs[n]));
  }

  lemma UnlockAll<A(!new), V(!new)>(cfg: Config<A, V>, w: World<A, V>, wr: Writer<A>)
    requires ValidConfig(cfg) && wr.leaving && Got(cfg, Busy(cfg, w, |cfg.refs|, wr))
    ensures Got(cfg, w.(prop := map[], writers := map[]))
  {
    var n := |cfg.refs|;
    while n > 0
      invariant 0 <= n <= |cfg.refs| && Got(cfg, Busy(cfg, w, n, wr))
    {
      n := n - 1;
      UnlockOne(cfg, w, n, wr);
    }
    assert Locked(cfg.refs, 0) == map[] && map[0 := wr] - {0} == map[];
    Go(cfg, Busy(cfg, w, 0, wr), w.(prop := map[], writers := map[]), Exit(0));
  }

  lemma HoldsAll<A(!new), V(!new)>(cfg: Config<A, V>, ref: Ref)
    ensures Holds(Locked(cfg.refs, |cfg.refs|), 0)(ref) <==> ref in cfg.refs
  {
    assert cfg.refs[..|cfg.refs|] == cfg.refs;
  }

  lemma BusyRuns<A(!new), V(!new)>(cfg: Config<A, V>, w: World<A, V>, pending: seq<Rec<A>>)
    ensures Running(Busy(cfg, w, |cfg.refs|, Exec(cfg, pending, None, false)), 0)
  {
    forall ref | ref in cfg.refs ensures Holds(Locked(cfg.refs, |cfg.refs|), 0)(ref) {
      HoldsAll(cfg, ref);
    }
  }

  /** With all its locks held, the transaction applies one command... */
  lemma Applies<A(!new), V(!new)>(h: History<A>, cfg: Config<A, V>, w: World<A, V>, r: Rec<A>)
    requires cfg.refs == h.refs && cfg.sem.shardOf == h.shardOf
    requires h.Sound(r) && Run(cfg.sem, r, w.state).Some? && w.phase == Resting
    requires Got(cfg, Busy(cfg, w, |cfg.refs|, Exec(cfg, [], None, false)))
    ensures Got(cfg, Busy(cfg, w.(state := Run(cfg.sem, r, w.state).value), |cfg.refs|, Exec(cfg, [r], None, false)))
  {
    BusyRuns(cfg, w, []);
    var want := Holds(Locked(cfg.refs, |cfg.refs|), 0);
    if r.d.locality == ShardLocal {
      forall i | 0 <= i < |KeysOf(r.d, r.args)| ensures want(Ref(r.db, cfg.sem.shardOf(KeysOf(r.d, r.args)[i]))) {
        HoldsAll(cfg, Ref(r.db, cfg.sem.shardOf(KeysOf(r.d, r.args)[i])));
      }
    }
    var a := Busy(cfg, w, |cfg.refs|, Exec(cfg, [], None, false));
    var b := Busy(cfg, w.(state := Run(cfg.sem, r, w.state).value), |cfg.refs|, Exec(cfg, [r], None, false));
    assert [] + [r] == [r];
    Go(cfg, a, b, Mutate(0, r));
  }

  /** ... logs it... */
  lemma Logs<A(!new), V(!new)>(cfg: Config<A, V>, w: World<A, V>, r: Rec<A>)
    requires Got(cfg, Busy(cfg, w, |cfg.refs|, Exec(cfg, [r], None, false)))
    ensures Got(cfg, Busy(cfg, w.(log := w.log + [r], owner := w.owner + [0]), |cfg.refs|, Exec(cfg, [], Some(|w.log| + 1), false)))
  {
    BusyRuns(cfg, w, [r]);
    var a := Busy(cfg, w, |cfg.refs|, Exec(cfg, [r], None, false));
    var b := Busy(cfg, w.(log := w.log + [r], owner := w.owner + [0]), |cfg.refs|, Exec(cfg, [], Some(|w.log| + 1), false));
    assert [r][1..] == [];
    Go(cfg, a, b, Stage(0));
  }

  /** ... waits for the flush, and leaves. */
  lemma Settles<A(!new), V(!new)>(cfg: Config<A, V>, w: World<A, V>)
    requires ValidConfig(cfg) && w.durable + 1 == |w.log|
    requires Got(cfg, Busy(cfg, w, |cfg.refs|, Exec(cfg, [], Some(|w.log|), false)))
    ensures Got(cfg, w.(durable := |w.log|, prop := map[], writers := map[]))
  {
    var n, m := |w.log|, |cfg.refs|;
    var w' := w.(durable := n);
    Go(cfg, Busy(cfg, w, m, Exec(cfg, [], Some(n), false)), Busy(cfg, w', m, Exec(cfg, [], Some(n), false)), Flush(n));
    Go(cfg, Busy(cfg, w', m, Exec(cfg, [], Some(n), false)), Busy(cfg, w', m, Exec(cfg, [], None, false)), Resume(0));
    BusyRuns(cfg, w', []);
    Go(cfg, Busy(cfg, w', m, Exec(cfg, [], None, false)), Busy(cfg, w', m, Exec(cfg, [], None, true)), Leave(0));
    UnlockAll(cfg, w', Exec(cfg, [], None, true));
  }

  /** A transaction of one command, from taking its locks to giving them back; an open
      window does not stop it. */
  lemma Transact<A(!new), V(!new)>(h: History<A>, cfg: Config<A, V>, w: World<A, V>, r: Rec<A>) returns (w': World<A, V>)
    requires ValidConfig(cfg) && cfg.refs == h.refs && cfg.sem.shardOf == h.shardOf && cfg.exec
    requires Got(cfg, w) && Calm(w) && h.Sound(r) && Run(cfg.sem, r, w.state).Some?
    ensures Got(cfg, w') && Calm(w')
    ensures w'.state == Run(cfg.sem, r, w.state).value && w'.log == w.log + [r]
    ensures w'.open == w.open && w'.shots == w.shots && w'.done == w.done
  {
    LockAll(cfg, w);
    Applies(h, cfg, w, r);
    var w1 := w.(state := Run(cfg.sem, r, w.state).value);
    Logs(cfg, w1, r);
    var w2 := w1.(log := w.log + [r], owner := w.owner + [0]);
    Settles(cfg, w2);
    w' := w2.(durable := |w2.log|, prop := map[], writers := map[]);
  }

  /** The next shard is serialized. */
  lemma Capture<A(!new), V(!new)>(cfg: Config<A, V>, w: World<A, V>) returns (w': World<A, V>)
    requires Got(cfg, w) && Calm(w) && w.open && |w.shots| < |cfg.refs|
    ensures Got(cfg, w') && Calm(w') && |w'.shots| == |w.shots| + 1 && w'.shots[..|w.shots|] == w.shots
    ensures w'.shots[|w.shots|].index == |w.log|
    ensures w'.state == w.state && w'.log == w.log && w'.open && w'.done == w.done
  {
    var ref := cfg.refs[|w.shots|];
    var w1 := w.(phase := PropTaken, prop := map[ref := BySnapshotter]);
    Go(cfg, w, w1, TakeProp);
    var at := Off(w.log, w.durable);
    var w2 := w1.(phase := Anchored(at, w.durable));
    Go(cfg, w1, w2, ReadAnchor);
    var w3 := w2.(phase := Walking(at, w.durable), prop := map[]);
    assert w2.prop - {ref} == map[];
    Go(cfg, w2, w3, TakeMu);
    w' := w3.(phase := Resting, shots := w.shots + [Shot(at, w.durable, Restrict(cfg.sem, w.state, ref))]);
    Go(cfg, w3, w', Walk);
  }

  /** The run has logged the first `n` records and serialized the first `k` shards. */
  ghost predicate Reaches<A(!new), V(!new)>(h: History<A>, cfg: Config<A, V>, w: World<A, V>, n: nat, k: nat)
    requires n <= |h.log| && k <= |h.at|
  {
    && Got(cfg, w) && Calm(w) && w.log == h.log[..n]
    && Fold(cfg.sem, cfg.origin, w.log) == Some(w.state)
    && |w.shots| == k && forall j | 0 <= j < k :: w.shots[j].index == h.at[j]
  }

  /** One record more. */
  lemma WriteOne<A(!new), V(!new)>(h: History<A>, cfg: Config<A, V>, w: World<A, V>, n: nat, k: nat) returns (w': World<A, V>)
    requires h.Valid() && Fits(h, cfg) && n < |h.log| && k <= |h.at| && Reaches(h, cfg, w, n, k)
    ensures Reaches(h, cfg, w', n + 1, k) && w'.open == w.open && w'.shots == w.shots && w'.done == w.done
  {
    var r := h.log[n];
    FoldPrefix(cfg.sem, cfg.origin, h.log, n + 1);
    assert h.log[..n + 1] == h.log[..n] + [r];
    FoldSnoc(cfg.sem, cfg.origin, h.log[..n], r);
    w' := Transact(h, cfg, w, r);
  }

  lemma {:induction false} WriteUpTo<A(!new), V(!new)>(h: History<A>, cfg: Config<A, V>, w: World<A, V>, n: nat, m: nat, k: nat)
    returns (w': World<A, V>)
    requires h.Valid() && Fits(h, cfg) && n <= m <= |h.log| && k <= |h.at| && Reaches(h, cfg, w, n, k)
    ensures Reaches(h, cfg, w', m, k) && w'.open == w.open && w'.shots == w.shots && w'.done == w.done
    decreases m - n
  {
    w' := w;
    if n < m {
      w' := WriteOne(h, cfg, w, n, k);
      w' := WriteUpTo(h, cfg, w', n + 1, m, k);
    }
  }

  /** One shard more. */
  lemma CaptureOne<A(!new), V(!new)>(h: History<A>, cfg: Config<A, V>, w: World<A, V>, k: nat) returns (w': World<A, V>)
    requires h.Valid() && Fits(h, cfg) && k < |h.at| && h.at[k] <= |h.log| && Reaches(h, cfg, w, h.at[k], k) && w.open
    ensures Reaches(h, cfg, w', h.at[k], k + 1) && w'.open
  {
    w' := Capture(cfg, w);
    forall j | 0 <= j < k + 1 ensures w'.shots[j].index == h.at[j] {
      assert j < k ==> w'.shots[j] == w'.shots[..k][j];
    }
  }

  lemma Opened<A(!new), V(!new)>(h: History<A>, cfg: Config<A, V>) returns (w: World<A, V>)
    requires h.Valid() && Fits(h, cfg)
    ensures Reaches(h, cfg, w, 0, 0) && w.open
  {
    var w0 := World<A, V>.World(cfg.origin, [], [], 0, map[], map[], false, Resting, [], None);
    assert Reachable(cfg, [w0], []);
    w := w0.(open := true);
    Go(cfg, w0, w, OpenWindow);
    assert h.log[..0] == [];
  }

  /** The records up to the next anchor, and then that shard. */
  lemma CaptureNext<A(!new), V(!new)>(h: History<A>, cfg: Config<A, V>, w: World<A, V>, n: nat, k: nat) returns (w': World<A, V>)
    requires h.Valid() && Fits(h, cfg) && 0 < k <= |h.at| && n <= |h.log| && (if k == 1 then n == 0 else n == h.at[k - 2])
    requires Reaches(h, cfg, w, n, k - 1) && w.open
    ensures h.at[k - 1] <= |h.log| && Reaches(h, cfg, w', h.at[k - 1], k) && w'.open
  {
    assert n <= h.at[k - 1] <= h.at[|h.at| - 1];
    w' := WriteUpTo(h, cfg, w, n, h.at[k - 1], k - 1);
    w' := CaptureOne(h, cfg, w', k - 1);
  }

  /** The window is opened at the start, and the first `k` shards are serialized. */
  lemma {:induction false} CaptureUpTo<A(!new), V(!new)>(h: History<A>, cfg: Config<A, V>, k: nat) returns (w: World<A, V>, n: nat)
    requires h.Valid() && Fits(h, cfg) && k <= |h.at|
    ensures n <= |h.log| && (if k == 0 then n == 0 else n == h.at[k - 1]) && Reaches(h, cfg, w, n, k) && w.open
  {
    if k == 0 {
      w := Opened(h, cfg);
      n := 0;
    } else {
      w, n := CaptureUpTo(h, cfg, k - 1);
      w := CaptureNext(h, cfg, w, n, k);
      n := h.at[k - 1];
    }
  }

  /** Every history is met: whatever the commands do, there is a run that logs these
      records and anchors the snapshot at these places. */
  lemma RunExists<A(!new), V(!new)>(h: History<A>, cfg: Config<A, V>) returns (run: seq<World<A, V>>, steps: seq<Step<A>>)
    requires h.Valid() && Fits(h, cfg)
    ensures Reachable(cfg, run, steps) && Shows(h, run[|steps|])
  {
    var w, n := CaptureUpTo(h, cfg, |h.at|);
    var w' := w.(open := false, done := Some(w.shots));
    Go(cfg, w, w', CloseWindow);
    w' := WriteUpTo(h, cfg, w', n, |h.log|, |h.at|);
    assert h.log[..|h.log|] == h.log;
    run, steps :| Reachable(cfg, run, steps) && run[|steps|] == w';
  }

  // ------------------------------------------------------------------- the guard holds

  /** Without a cross-shard record between the anchors, transactions do no harm. */
  lemma QuietWindowRecovers<A(!new), V(!new)>(h: History<A>, cfg: Config<A, V>, run: seq<World<A, V>>, steps: seq<Step<A>>)
    requires h.Valid() && Fits(h, cfg) && Reachable(cfg, run, steps) && Shows(h, run[|steps|])
    requires NoCross(h.log, h.at[0], h.at[|h.at| - 1])
    ensures Recovers(cfg, run[|steps|])
  {
    RestoresLog(cfg, run, steps, |steps|);
  }

  // -------------------------------------------------------------- and it is needed

  /** Commands that notice a mixture: a cross-shard command counts both `p` and `q` up,
      and fails unless they are equal; shard-local commands change nothing. */
  function Counting<A(==)>(shardOf: A -> nat, p: Slot<A>, q: Slot<A>): Semantics<A, nat> {
    Semantics(
      shardOf,
      (d: Descriptor, args: seq<A>, old_: Option<nat>) => Some(old_),
      (r: Rec<A>, st: State<A, nat>) =>
        if p in st && q in st && st[p] == st[q] then Some(st[p := st[p] + 1][q := st[q] + 1]) else None)
  }

  lemma {:induction false} GroupsIdle<A>(shardOf: A -> nat, p: Slot<A>, q: Slot<A>, d: Descriptor, db: nat, name: A,
                                         gs: seq<Group<A>>, st: State<A, nat>)
    ensures ApplyGroups(Counting(shardOf, p, q), d, db, name, gs, st) == Some(st)
  {
    if gs != [] {
      assert Put(st, Slot(db, gs[0].key), Get(st, Slot(db, gs[0].key))) == st;
      GroupsIdle(shardOf, p, q, d, db, name, gs[1..], st);
    }
  }

  lemma LocalIdle<A>(shardOf: A -> nat, p: Slot<A>, q: Slot<A>, r: Rec<A>, st: State<A, nat>)
    requires r.d.locality == ShardLocal
    ensures Run(Counting(shardOf, p, q), r, st) == if WellFormed(r) then Some(st) else None
  {
    if WellFormed(r) {
      if GroupShaped(r.d) {
        GroupsIdle(shardOf, p, q, r.d, r.db, r.args[0], GroupsOf(r.d, r.args), st);
      } else {
        var slot := Slot(r.db, KeysOf(r.d, r.args)[0]);
        assert Put(st, slot, Get(st, slot)) == st;
      }
    }
  }

  function Crosses<A>(log: seq<Rec<A>>, n: nat): nat
    requires n <= |log|
  {
    if n == 0 then 0 else Crosses(log, n - 1) + (if log[n - 1].d.locality == CrossShard then 1 else 0)
  }

  lemma {:induction false} CrossesGrow<A>(log: seq<Rec<A>>, i: nat, j: nat)
    requires i <= j <= |log|
    ensures Crosses(log, i) <= Crosses(log, j)
    ensures Crosses(log, i) == Crosses(log, j) ==> NoCross(log, i, j)
  {
    if i < j {
      CrossesGrow(log, i, j - 1);
    }
  }

  /** Along the log both counters stay equal. */
  lemma {:induction false} CountsUp<A(!new)>(h: History<A>, p: Slot<A>, q: Slot<A>, n: nat)
    requires n <= |h.log| && p != q && forall i | 0 <= i < |h.log| :: h.Sound(h.log[i])
    ensures var c := Crosses(h.log, n);
            Fold(Counting(h.shardOf, p, q), map[p := 0, q := 0], h.log[..n]) == Some(map[p := c, q := c])
  {
    if n > 0 {
      var c, r := Crosses(h.log, n - 1), h.log[n - 1];
      CountsUp(h, p, q, n - 1);
      assert h.log[..n][..n - 1] == h.log[..n - 1];
      var st: State<A, nat> := map[p := c, q := c];
      if r.d.locality == ShardLocal {
        LocalIdle(h.shardOf, p, q, r, st);
      } else {
        assert st[p := c + 1][q := c + 1] == map[p := c + 1, q := c + 1];
      }
    }
  }

  /** A mixture of two instants never recovers: every replayed record fails or changes
      nothing. */
  lemma Stuck<A>(shardOf: A -> nat, p: Slot<A>, q: Slot<A>, anchors: Anchors, off: nat, r: Rec<A>, st: State<A, nat>)
    requires p in st && q in st && st[p] != st[q]
    ensures ReplayOne(Counting(shardOf, p, q), anchors, off, r, st) in {None, Some(st)}
  {
    var sem := Counting(shardOf, p, q);
    if r.args != [] && NarrowOf(sem, r, Wanted(anchors, off)).Keep? {
      var cut := r.(args := NarrowOf(sem, r, Wanted(anchors, off)).args);
      if r.d.locality == ShardLocal {
        LocalIdle(shardOf, p, q, cut, st);
      } else {
        assert Run(sem, cut, st) == None;
      }
    }
  }

  lemma {:induction false} StuckReplay<A>(shardOf: A -> nat, p: Slot<A>, q: Slot<A>, anchors: Anchors, from: nat,
                                          log: seq<Rec<A>>, e: nat, st: State<A, nat>)
    requires e <= |log| && p in st && q in st && st[p] != st[q]
    ensures Replayed(Counting(shardOf, p, q), anchors, from, log, e, st) in {None, Some(st)}
  {
    if e > 0 {
      StuckReplay(shardOf, p, q, anchors, from, log, e - 1, st);
      Stuck(shardOf, p, q, anchors, Off(log, e - 1), log[e - 1], st);
    }
  }

  function CountingConfig<A(==, !new)>(h: History<A>, p: Slot<A>, q: Slot<A>): Config<A, nat> {
    Config(Counting(h.shardOf, p, q), map[p := 0, q := 0], h.refs, true)
  }

  lemma CountingFits<A(!new)>(h: History<A>, p: Slot<A>, q: Slot<A>)
    requires h.Valid() && p != q
    requires Ref(p.db, h.shardOf(p.key)) in h.refs && Ref(q.db, h.shardOf(q.key)) in h.refs
    ensures Fits(h, CountingConfig(h, p, q))
  {
    assert h.log[..|h.log|] == h.log;
    CountsUp(h, p, q, |h.log|);
  }

  /** The slots of two shards whose anchors are apart. */
  lemma LoadedCounts<A(!new)>(h: History<A>, p: Slot<A>, q: Slot<A>, shots: seq<Shot<A, nat>>, k: nat, slot: Slot<A>)
    requires h.Valid() && p != q && Fits(h, CountingConfig(h, p, q)) && Serialized(CountingConfig(h, p, q), h.log, shots)
    requires k < |h.at| && shots[k].index == h.at[k] && slot in {p, q} && Ref(slot.db, h.shardOf(slot.key)) == h.refs[k]
    ensures slot in Loaded(shots) && h.at[k] <= |h.log| && Loaded(shots)[slot] == Crosses(h.log, h.at[k])
  {
    var cfg := CountingConfig(h, p, q);
    LoadedAt(cfg, h.log, shots);
    assert Exact(cfg, h.log, shots[k], cfg.refs[k]);
    CountsUp(h, p, q, h.at[k]);
    assert RefOf(cfg.sem, slot) == h.refs[k];
    assert AgreeOn(cfg.sem, Loaded(shots), shots[k].contents, h.refs[k]);
    assert Get(Loaded(shots), slot) == Get(shots[k].contents, slot) == Get(At(cfg, h.log[..h.at[k]]), slot);
  }

  lemma CountingFails<A(!new)>(h: History<A>, p: Slot<A>, q: Slot<A>, w: World<A, nat>)
    requires h.Valid() && Fits(h, CountingConfig(h, p, q)) && Shows(h, w)
    requires Serialized(CountingConfig(h, p, q), h.log, w.done.value)
    requires var n := |h.at| - 1;
             && Ref(p.db, h.shardOf(p.key)) == h.refs[0] && Ref(q.db, h.shardOf(q.key)) == h.refs[n]
             && h.at[0] <= h.at[n] <= |h.log| && Crosses(h.log, h.at[0]) < Crosses(h.log, h.at[n])
    ensures !Recovers(CountingConfig(h, p, q), w)
  {
    var cfg, shots, n := CountingConfig(h, p, q), w.done.value, |h.at| - 1;
    LoadedCounts(h, p, q, shots, 0, p);
    LoadedCounts(h, p, q, shots, n, q);
    StuckReplay(h.shardOf, p, q, AnchorsOf(cfg.refs, shots), shots[0].anchor, h.log, |h.log|, Loaded(shots));
    CountsUp(h, p, q, |h.log|);
    assert h.log[..|h.log|] == h.log;
    var c := Crosses(h.log, |h.log|);
    var end: State<A, nat> := map[p := c, q := c];
    assert end[p] == end[q] && Loaded(shots)[p] != Loaded(shots)[q];
  }

  /** With one, some command set loses data or fails to start. */
  lemma CrossSpoils<A(!new)>(h: History<A>)
    requires h.Valid() && !NoCross(h.log, h.at[0], h.at[|h.at| - 1])
    ensures !AlwaysRecovers(h)
  {
    var n := |h.at| - 1;
    var first :| h.shardOf(first) == h.refs[0].shard;
    var last :| h.shardOf(last) == h.refs[n].shard;
    var p, q := Slot(h.refs[0].db, first), Slot(h.refs[n].db, last);
    assert n > 0 && h.at[0] <= h.at[n];
    CountingFits(h, p, q);
    var cfg := CountingConfig(h, p, q);
    var run, steps := RunExists(h, cfg);
    var w := run[|steps|];
    RunInv(cfg, run, steps, |steps|);
    CrossesGrow(h.log, h.at[0], h.at[n]);
    CountingFails(h, p, q, w);
  }

  /** Exactly when the guard matters: recovery is exact for every command set and every
      run that comes to a history, if and only if no cross-shard record of that history
      lies between its first anchor and its last. */
  lemma GuardExactly<A(!new)>(h: History<A>)
    requires h.Valid()
    ensures AlwaysRecovers(h) <==> NoCross(h.log, h.at[0], h.at[|h.at| - 1])
  {
    if NoCross(h.log, h.at[0], h.at[|h.at| - 1]) {
      forall cfg: Config<A, nat>, run, steps | Fits(h, cfg) && Reachable(cfg, run, steps) && Shows(h, run[|steps|])
        ensures Recovers(cfg, run[|steps|])
      {
        QuietWindowRecovers(h, cfg, run, steps);
      }
    } else {
      CrossSpoils(h);
    }
  }

  // ---------------------------------------------------------------- how it goes wrong

  /** Some of the record's shards already have it and some do not. */
  ghost predicate Straddles<A, V>(cfg: Config<A, V>, shots: seq<Shot<A, V>>, off: nat, r: Rec<A>)
    requires |shots| == |cfg.refs|
  {
    var keys := KeysOf(r.d, r.args);
    0 < CountWanted(cfg.sem, r.db, keys, Wanted(AnchorsOf(cfg.refs, shots), off)) < |keys|
  }

  lemma StraddlingFails<A, V>(cfg: Config<A, V>, shots: seq<Shot<A, V>>, off: nat, r: Rec<A>, st: State<A, V>)
    requires |shots| == |cfg.refs| && r.args != [] && !GroupShaped(r.d)
    requires Straddles(cfg, shots, off, r)
    ensures ReplayOne(cfg.sem, AnchorsOf(cfg.refs, shots), off, r, st) == None
  {
    var want := Wanted(AnchorsOf(cfg.refs, shots), off);
    assert SplitOf(cfg.sem, r, want) == Refuse;
    assert NarrowOf(cfg.sem, r, want) == Refuse;
  }

  lemma StopsAt<A, V>(sem: Semantics<A, V>, anchors: Anchors, from: nat, log: seq<Rec<A>>, i: nat, st: State<A, V>)
    requires i < |log| && Off(log, i) >= from
    requires var prev := Replayed(sem, anchors, from, log, i, st);
             prev.Some? ==> ReplayOne(sem, anchors, Off(log, i), log[i], prev.value) == None
    ensures Replayed(sem, anchors, from, log, |log|, st) == None
  {
    assert Replayed(sem, anchors, from, log, i + 1, st) == None;
    FailedStays(sem, anchors, from, log, i + 1, |log|, st);
  }

  /** A record that straddles the anchors and is not made of key groups makes recovery
      refuse the whole log, wherever it stands past the first anchor. */
  lemma StraddlingRefused<A, V>(cfg: Config<A, V>, shots: seq<Shot<A, V>>, log: seq<Rec<A>>, i: nat)
    requires |shots| == |cfg.refs| && shots != [] && i < |log|
    requires Off(log, i) >= shots[0].anchor && log[i].args != [] && !GroupShaped(log[i].d)
    requires Straddles(cfg, shots, Off(log, i), log[i])
    ensures Restored(cfg, shots, log) == None
  {
    var anchors, from := AnchorsOf(cfg.refs, shots), shots[0].anchor;
    var prev := Replayed(cfg.sem, anchors, from, log, i, Loaded(shots));
    if prev.Some? {
      StraddlingFails(cfg, shots, Off(log, i), log[i], prev.value);
    }
    StopsAt(cfg.sem, anchors, from, log, i, Loaded(shots));
  }

  /** A record that names no keys is never filtered: it is run whole, on shards that
      have it and on shards that do not. */
  lemma KeylessUnfiltered<A, V>(sem: Semantics<A, V>, anchors: Anchors, off: nat, r: Rec<A>, st: State<A, V>)
    requires KeysOf(r.d, r.args) == [] && r.args != []
    ensures ReplayOne(sem, anchors, off, r, st) == Run(sem, r, st)
  {
    assert NarrowOf(sem, r, Wanted(anchors, off)) == Keep(r.args);
  }

  const SetCmd := Descriptor("set", 1, 1, 1, ShardLocal)
  const RenameCmd := Descriptor("rename", 1, 2, 1, CrossShard)
  const FlushCmd := Descriptor("flushall", 0, 0, 0, CrossShard)

  /** SET stores its second argument, RENAME moves a value, FLUSHALL empties. */
  function Handlers(): Semantics<nat, nat> {
    Semantics(
      (key: nat) => key % 2,
      (d: Descriptor, args: seq<nat>, old_: Option<nat>) => if |args| == 3 then Some(Some(args[2])) else None,
      (r: Rec<nat>, st: State<nat, nat>) =>
        if r.d == FlushCmd then Some(map[])
        else if Slot(0, 0) in st then Some(map[Slot(0, 1) := st[Slot(0, 0)]])
        else None)
  }

  function Two(): Config<nat, nat> {
    Config(Handlers(), map[], [Ref(0, 0), Ref(0, 1)], true)
  }

  function Example(log: seq<Rec<nat>>, first: nat): History<nat> {
    History([Ref(0, 0), Ref(0, 1)], Handlers().shardOf, log, [first, |log|])
  }

  /** Any good log of these commands is met by a run whose first shard is serialized
      after `first` records and whose second after all of them. */
  lemma ExampleRun(log: seq<Rec<nat>>, first: nat) returns (run: seq<World<nat, nat>>, steps: seq<Step<nat>>)
    requires first <= |log| && forall i | 0 <= i < |log| :: Example(log, first).Sound(log[i])
    requires Fold(Handlers(), map[], log).Some?
    ensures Reachable(Two(), run, steps) && Shows(Example(log, first), run[|steps|])
    ensures Serialized(Two(), log, run[|steps|].done.value) && ValidConfig(Two())
  {
    var h := Example(log, first);
    assert h.shardOf(0) == h.refs[0].shard && h.shardOf(1) == h.refs[1].shard;
    assert Fits(h, Two());
    run, steps := RunExists(h, Two());
    RunInv(Two(), run, steps, |steps|);
  }

  /** Which of two shards still wants record i. */
  lemma ExampleWants(log: seq<Rec<nat>>, first: nat, shots: seq<Shot<nat, nat>>, i: nat)
    requires ValidConfig(Two()) && Serialized(Two(), log, shots) && Sized(log) && i < |log|
    requires shots[0].index == first && shots[1].index == |log|
    ensures var want := Wanted(AnchorsOf(Two().refs, shots), Off(log, i));
            (want(Ref(0, 0)) <==> first <= i) && !want(Ref(0, 1))
    ensures first <= i ==> Off(log, i) >= shots[0].anchor
    ensures Off(log, |log|) == shots[1].anchor
  {
    WantedIs(Two(), log, shots, i, 0);
    WantedIs(Two(), log, shots, i, 1);
    assert Exact(Two(), log, shots[0], Two().refs[0]) && Exact(Two(), log, shots[1], Two().refs[1]);
    if first <= i {
      OffMonotone(log, first, i);
    }
  }

  lemma SetRuns(key: nat, st: State<nat, nat>)
    ensures KeysOf(SetCmd, [9, key, 7]) == [key]
    ensures Run(Handlers(), Rec(0, SetCmd, [9, key, 7], 10), st) == Some(st[Slot(0, key) := 7])
  {
    assert KeysFrom([9, key, 7], 1, 1, 1) == [key] + KeysFrom([9, key, 7], 2, 1, 1);
  }

  /** SET 0 7, and RENAME 0 1 inside the window: recovery refuses to start. */
  lemma RenameRefused() returns (run: seq<World<nat, nat>>, steps: seq<Step<nat>>)
    ensures Reachable(Two(), run, steps)
    ensures var w := run[|steps|];
            && w.done.Some? && |w.done.value| == |Two().refs|
            && Fold(Two().sem, Two().origin, w.log) == Some(map[Slot(0, 1) := 7])
            && Restored(Two(), w.done.value, w.log) == None
  {
    var log := [Rec(0, SetCmd, [9, 0, 7], 10), Rec(0, RenameCmd, [8, 0, 1], 10)];
    SetRuns(0, map[]);
    RenameKeys();
    assert log[..1] == [log[0]] && log[..1][..0] == [] && log[..|log| - 1] == log[..1];
    assert Fold(Handlers(), map[], log[..1]) == Some(map[Slot(0, 0) := 7]);
    run, steps := ExampleRun(log, 1);
    var shots := run[|steps|].done.value;
    ExampleWants(log, 1, shots, 1);
    var want := Wanted(AnchorsOf(Two().refs, shots), Off(log, 1));
    assert [0, 1][..1] == [0] && [0][..0] == [];
    assert CountWanted(Handlers(), 0, [0], want) == 1;
    assert CountWanted(Handlers(), 0, [0, 1], want) == 1;
    StraddlingRefused(Two(), shots, log, 1);
  }

  lemma RenameKeys()
    ensures KeysOf(RenameCmd, [8, 0, 1]) == [0, 1]
  {
    assert KeysFrom([8, 0, 1], 1, 2, 1) == [0] + KeysFrom([8, 0, 1], 2, 2, 1);
    assert KeysFrom([8, 0, 1], 2, 2, 1) == [1] + KeysFrom([8, 0, 1], 3, 2, 1);
  }

  /** FLUSHALL inside the window, and SET 1 7 after it: recovery starts, and the key
      that was set is gone. */
  lemma FlushLoses() returns (run: seq<World<nat, nat>>, steps: seq<Step<nat>>)
    ensures Reachable(Two(), run, steps)
    ensures var w := run[|steps|];
            && w.done.Some? && |w.done.value| == |Two().refs|
            && Fold(Two().sem, Two().origin, w.log) == Some(map[Slot(0, 1) := 7])
            && Restored(Two(), w.done.value, w.log) == Some(map[])
  {
    var log := [Rec(0, FlushCmd, [6], 10), Rec(0, SetCmd, [9, 1, 7], 10)];
    SetRuns(1, map[]);
    assert log[..1] == [log[0]] && log[..1][..0] == [] && log[..|log| - 1] == log[..1];
    assert Fold(Handlers(), map[], log[..1]) == Some(map[]);
    run, steps := ExampleRun(log, 0);
    var shots := run[|steps|].done.value;
    ExampleWants(log, 0, shots, 0);
    ExampleWants(log, 0, shots, 1);
    var anchors, from, st := AnchorsOf(Two().refs, shots), shots[0].anchor, Loaded(shots);
    KeylessUnfiltered(Handlers(), anchors, Off(log, 0), log[0], st);
    assert Replayed(Handlers(), anchors, from, log, 1, st) == Some(map[]);
    assert [1][..0] == [];
    assert CountWanted(Handlers(), 0, [1], Wanted(anchors, Off(log, 1))) == 0;
    assert NarrowOf(Handlers(), log[1], Wanted(anchors, Off(log, 1))) == Skip;
    assert Replayed(Handlers(), anchors, from, log, 2, st) == Some(map[]);
  }
}
