/** Every interleaving of the protocol keeps its invariant. */
module SnapshotProof {
  import opened Options
  import opened Records
  import opened Stream
  import opened SnapshotProtocol

  // --------------------------------------------------------------- folding the log

  lemma FoldSnoc<A, V>(sem: Semantics<A, V>, o: State<A, V>, log: seq<Rec<A>>, r: Rec<A>)
    ensures Fold(sem, o, log + [r])
         == match Fold(sem, o, log) case None => None case Some(st) => Run(sem, r, st)
  {
    assert (log + [r])[..|log|] == log;
  }

  lemma {:induction false} FoldCons<A, V>(sem: Semantics<A, V>, o: State<A, V>, recs: seq<Rec<A>>)
    requires recs != []
    ensures Fold(sem, o, recs)
         == match Run(sem, recs[0], o) case None => None case Some(st) => Fold(sem, st, recs[1..])
  {
    if |recs| == 1 {
      assert recs[..0] == [] && recs[1..] == [];
    } else {
      var init := recs[..|recs| - 1];
      FoldCons(sem, o, init);
      assert init[1..] == recs[1..][..|recs| - 2];
    }
  }

  lemma {:induction false} FoldPrefix<A, V>(sem: Semantics<A, V>, o: State<A, V>, log: seq<Rec<A>>, i: nat)
    requires i <= |log| && Fold(sem, o, log).Some?
    ensures Fold(sem, o, log[..i]).Some?
  {
    if i < |log| {
      var init := log[..|log| - 1];
      FoldPrefix(sem, o, init, i);
      assert init[..i] == log[..i];
    } else {
      assert log[..i] == log;
    }
  }

  lemma {:induction false} FilterEvery<A, V>(sem: Semantics<A, V>, db: nat, gs: seq<Group<A>>, want: Ref -> bool)
    requires forall i | 0 <= i < |gs| :: want(Ref(db, sem.shardOf(gs[i].key)))
    ensures Filter(sem, db, gs, want) == gs
  {
    if gs != [] {
      FilterEvery(sem, db, gs[1..], want);
    }
  }

  lemma {:induction false} GroupKeys<A>(args: seq<A>, i: nat, step: int)
    requires 1 <= i <= |args| && step > 0 && Whole(|args| - i, step)
    ensures |KeysFrom(args, i, |args| - 1, step)| == |Chop(args[i..], step)|
    ensures forall j | 0 <= j < |Chop(args[i..], step)| ::
              KeysFrom(args, i, |args| - 1, step)[j] == Chop(args[i..], step)[j].key
    decreases |args| - i
  {
    if i < |args| {
      assert args[i..][step..] == args[i + step..];
      GroupKeys(args, i + step, step);
    }
  }

  /** A shard-local record reads and writes only the shards of its keys. */
  lemma RunLocal<A(!new), V>(sem: Semantics<A, V>, r: Rec<A>, want: Ref -> bool, s: State<A, V>, t: State<A, V>)
    requires r.d.locality == ShardLocal && Within(sem, r, want)
    requires Agree(sem, s, t, want)
    requires Run(sem, r, s).Some?
    ensures Run(sem, r, t).Some?
    ensures Agree(sem, Run(sem, r, s).value, Run(sem, r, t).value, want)
    ensures forall ref: Ref | !want(ref) :: AgreeOn(sem, t, Run(sem, r, t).value, ref)
  {
    var keys := KeysOf(r.d, r.args);
    if GroupShaped(r.d) {
      var gs := GroupsOf(r.d, r.args);
      GroupKeys(r.args, 1, StepOf(r.d));
      assert forall i | 0 <= i < |gs| :: gs[i].key == keys[i];
      FilterEvery(sem, r.db, gs, want);
      FilteredGroups(sem, r.d, r.db, r.args[0], gs, want, s, t);
    } else {
      assert want(Ref(r.db, sem.shardOf(keys[0])));
      GroupAgree(sem, r.d, r.db, r.args, keys[0], want, s, t);
    }
  }

  ghost predicate AllLocal<A(!new), V>(sem: Semantics<A, V>, recs: seq<Rec<A>>, want: Ref -> bool) {
    forall i | 0 <= i < |recs| :: recs[i].d.locality == ShardLocal && Within(sem, recs[i], want)
  }

  lemma {:induction false} FoldLocal<A(!new), V>(sem: Semantics<A, V>, recs: seq<Rec<A>>, want: Ref -> bool,
                                                 s: State<A, V>, t: State<A, V>)
    requires AllLocal(sem, recs, want)
    requires Agree(sem, s, t, want)
    requires Fold(sem, s, recs).Some?
    ensures Fold(sem, t, recs).Some?
    ensures Agree(sem, Fold(sem, s, recs).value, Fold(sem, t, recs).value, want)
    ensures forall ref: Ref | !want(ref) :: AgreeOn(sem, t, Fold(sem, t, recs).value, ref)
  {
    if recs != [] {
      var init, last := recs[..|recs| - 1], recs[|recs| - 1];
      FoldLocal(sem, init, want, s, t);
      assert last == recs[|recs| - 1];
      RunLocal(sem, last, want, Fold(sem, s, init).value, Fold(sem, t, init).value);
    }
  }

  /** Records that stay off a shard do not change it. */
  lemma {:induction false} FoldOff<A(!new), V>(sem: Semantics<A, V>, o: State<A, V>, log: seq<Rec<A>>, i: nat, ref: Ref)
    requires i <= |log| && Fold(sem, o, log).Some?
    requires forall j | i <= j < |log| ::
               log[j].d.locality == ShardLocal && Within(sem, log[j], (r: Ref) => r != ref)
    ensures Fold(sem, o, log[..i]).Some?
    ensures AgreeOn(sem, Fold(sem, o, log[..i]).value, Fold(sem, o, log).value, ref)
  {
    if i == |log| {
      assert log[..i] == log;
    } else {
      var init, last := log[..|log| - 1], log[|log| - 1];
      FoldOff(sem, o, init, i, ref);
      assert init[..i] == log[..i];
      var st := Fold(sem, o, init).value;
      assert last == log[|log| - 1];
      var want := (r: Ref) => r != ref;
      RunLocal(sem, last, want, st, st);
      assert !want(ref);
    }
  }

  // ------------------------------------------------------------- states stay in range

  lemma RunInRange<A(!new), V(!new)>(cfg: Config<A, V>, r: Rec<A>, st: State<A, V>)
    requires ValidConfig(cfg) && InRange(cfg, st) && Run(cfg.sem, r, st).Some?
    requires RecIn(cfg, r)
    ensures InRange(cfg, Run(cfg.sem, r, st).value)
  {
    if r.d.locality == ShardLocal {
      var want := (ref: Ref) => ref in cfg.refs;
      RunLocal(cfg.sem, r, want, st, st);
      var st' := Run(cfg.sem, r, st).value;
      forall slot: Slot<A> | !want(RefOf(cfg.sem, slot)) ensures Get(st, slot) == Get(st', slot) {
        assert AgreeOn(cfg.sem, st, st', RefOf(cfg.sem, slot));
      }
      forall slot | slot in st' ensures want(RefOf(cfg.sem, slot)) {
        assert Get(st', slot).Some?;
        assert !want(RefOf(cfg.sem, slot)) ==> Get(st, slot).Some?;
      }
    }
  }

  lemma {:induction false} FoldInRange<A(!new), V(!new)>(cfg: Config<A, V>, recs: seq<Rec<A>>, st: State<A, V>)
    requires ValidConfig(cfg) && InRange(cfg, st) && Fold(cfg.sem, st, recs).Some?
    requires forall i | 0 <= i < |recs| :: RecIn(cfg, recs[i])
    ensures InRange(cfg, Fold(cfg.sem, st, recs).value)
  {
    if recs != [] {
      var init := recs[..|recs| - 1];
      FoldInRange(cfg, init, st);
      assert RecIn(cfg, recs[|recs| - 1]);
      RunInRange(cfg, recs[|recs| - 1], Fold(cfg.sem, st, init).value);
    }
  }

  lemma SameInRange<A(!new), V(!new)>(cfg: Config<A, V>, s: State<A, V>, t: State<A, V>)
    requires InRange(cfg, s) && InRange(cfg, t)
    requires forall ref | ref in cfg.refs :: AgreeOn(cfg.sem, s, t, ref)
    ensures s == t
  {
    forall ref: Ref ensures AgreeOn(cfg.sem, s, t, ref) {
      if ref !in cfg.refs {
        forall slot: Slot<A> | RefOf(cfg.sem, slot) == ref ensures Get(s, slot) == Get(t, slot) {
          assert slot !in s && slot !in t;
        }
      }
    }
    AgreeEverywhere(cfg.sem, s, t);
  }

  // ------------------------------------------------------------ steps of a writer

  /** What a writer's own lock set looks like to `Expected`. */
  lemma ExpectedHeld<A(!new), V(!new)>(cfg: Config<A, V>, w: World<A, V>, id: nat, ref: Ref)
    requires LockInv(cfg, w) && id in w.writers && Holds(w.prop, id)(ref)
    ensures Fold(cfg.sem, At(cfg, w.log), w.writers[id].pending).Some?
    ensures Expected(cfg, w, ref) == Fold(cfg.sem, At(cfg, w.log), w.writers[id].pending).value
  {
    assert WriterInv(cfg, w, id);
  }

  /** A writer running a cross-shard record holds every shard, so the keyspace is
      exactly the log and its own pending records. */
  lemma CrossSeesAll<A(!new), V(!new)>(cfg: Config<A, V>, w: World<A, V>, id: nat)
    requires ValidConfig(cfg) && LogInv(cfg, w) && LockInv(cfg, w) && StateInv(cfg, w)
    requires Running(w, id) && w.writers[id].cross
    ensures Fold(cfg.sem, At(cfg, w.log), w.writers[id].pending) == Some(w.state)
  {
    assert WriterInv(cfg, w, id);
    var cur, pend := At(cfg, w.log), w.writers[id].pending;
    FoldInRange(cfg, w.log, cfg.origin);
    FoldInRange(cfg, pend, cur);
    var s := Fold(cfg.sem, cur, pend).value;
    forall ref | ref in cfg.refs ensures AgreeOn(cfg.sem, w.state, s, ref) {
      assert Holds(w.prop, id)(ref);
      ExpectedHeld(cfg, w, id, ref);
    }
    SameInRange(cfg, w.state, s);
  }

  /** Applying a record: the writer's own shards follow its pending records, and
      no other shard moves. */
  lemma MutateEffect<A(!new), V(!new)>(cfg: Config<A, V>, w: World<A, V>, id: nat, r: Rec<A>)
    requires ValidConfig(cfg) && Inv(cfg, w) && CanMutate(cfg, w, id, r)
    ensures RecIn(cfg, r)
    ensures var cur, pend := At(cfg, w.log), w.writers[id].pending;
            var st' := Run(cfg.sem, r, w.state).value;
            && Fold(cfg.sem, cur, pend + [r]).Some?
            && (forall ref: Ref | Holds(w.prop, id)(ref) :: AgreeOn(cfg.sem, st', Fold(cfg.sem, cur, pend + [r]).value, ref))
            && (forall ref: Ref | !Holds(w.prop, id)(ref) && ref in cfg.refs :: AgreeOn(cfg.sem, w.state, st', ref))
            && InRange(cfg, st')
  {
    var cur, pend := At(cfg, w.log), w.writers[id].pending;
    assert WriterInv(cfg, w, id);
    FoldSnoc(cfg.sem, cur, pend, r);
    if r.d.locality == CrossShard {
      CrossSeesAll(cfg, w, id);
    } else {
      var want := Holds(w.prop, id);
      var s := Fold(cfg.sem, cur, pend).value;
      forall ref: Ref | want(ref) ensures AgreeOn(cfg.sem, w.state, s, ref) {
        ExpectedHeld(cfg, w, id, ref);
      }
      RunLocal(cfg.sem, r, want, w.state, s);
      RunLocal(cfg.sem, r, want, w.state, w.state);
      assert forall ref: Ref | want(ref) :: ref in cfg.refs;
    }
    RunInRange(cfg, r, w.state);
  }

  lemma MutateInv<A(!new), V(!new)>(cfg: Config<A, V>, w: World<A, V>, w': World<A, V>, id: nat, r: Rec<A>)
    requires ValidConfig(cfg) && Inv(cfg, w) && Next(cfg, w, w', Mutate(id, r))
    ensures Inv(cfg, w')
  {
    MutateLog(cfg, w, w', id, r);
    MutateLock(cfg, w, w', id, r);
    MutateState(cfg, w, w', id, r);
    MutateWindow(cfg, w, w', id, r);
  }

  lemma MutateLog<A(!new), V(!new)>(cfg: Config<A, V>, w: World<A, V>, w': World<A, V>, id: nat, r: Rec<A>)
    requires ValidConfig(cfg) && Inv(cfg, w) && Next(cfg, w, w', Mutate(id, r))
    ensures LogInv(cfg, w')
  {
    MutateEffect(cfg, w, id, r);
    forall i | w'.durable <= i < |w'.log| ensures Owned(cfg, w', i) {
      assert Owned(cfg, w, i);
    }
  }

  lemma MutateLock<A(!new), V(!new)>(cfg: Config<A, V>, w: World<A, V>, w': World<A, V>, id: nat, r: Rec<A>)
    requires ValidConfig(cfg) && Inv(cfg, w) && Next(cfg, w, w', Mutate(id, r))
    ensures LockInv(cfg, w')
  {
    MutateEffect(cfg, w, id, r);
    MutateLockOf(cfg, w, w', id, r);
  }

  lemma MutateLockOf<A(!new), V(!new)>(cfg: Config<A, V>, w: World<A, V>, w': World<A, V>, id: nat, r: Rec<A>)
    requires LockInv(cfg, w) && Next(cfg, w, w', Mutate(id, r))
    requires Fold(cfg.sem, At(cfg, w.log), w.writers[id].pending + [r]).Some? && RecIn(cfg, r)
    ensures LockInv(cfg, w')
  {
    forall j | j in w'.writers ensures WriterInv(cfg, w', j) {
      assert WriterInv(cfg, w, j);
    }
  }

  lemma AgreeTrans<A(!new), V>(sem: Semantics<A, V>, s: State<A, V>, t: State<A, V>, u: State<A, V>, ref: Ref)
    requires AgreeOn(sem, s, t, ref) && AgreeOn(sem, s, u, ref)
    ensures AgreeOn(sem, t, u, ref)
  {
  }

  lemma MutateStateAt<A(!new), V(!new)>(cfg: Config<A, V>, w: World<A, V>, w': World<A, V>, id: nat, r: Rec<A>, ref: Ref)
    requires id in w.writers
    requires w'.log == w.log && w'.prop == w.prop
    requires w'.writers == w.writers[id := w.writers[id].(pending := w.writers[id].pending + [r])]
    requires AgreeOn(cfg.sem, w.state, Expected(cfg, w, ref), ref)
    requires var f := Fold(cfg.sem, At(cfg, w.log), w.writers[id].pending + [r]);
             if Holds(w.prop, id)(ref) then f.Some? && AgreeOn(cfg.sem, w'.state, f.value, ref)
             else AgreeOn(cfg.sem, w.state, w'.state, ref)
    ensures AgreeOn(cfg.sem, w'.state, Expected(cfg, w', ref), ref)
  {
    if !Holds(w.prop, id)(ref) {
      assert Expected(cfg, w', ref) == Expected(cfg, w, ref);
      AgreeTrans(cfg.sem, w.state, w'.state, Expected(cfg, w, ref), ref);
    }
  }

  lemma MutateState<A(!new), V(!new)>(cfg: Config<A, V>, w: World<A, V>, w': World<A, V>, id: nat, r: Rec<A>)
    requires ValidConfig(cfg) && Inv(cfg, w) && Next(cfg, w, w', Mutate(id, r))
    ensures StateInv(cfg, w')
  {
    MutateEffect(cfg, w, id, r);
    forall ref | ref in cfg.refs ensures AgreeOn(cfg.sem, w'.state, Expected(cfg, w', ref), ref) {
      MutateStateAt(cfg, w, w', id, r, ref);
    }
  }

  lemma MutateWindow<A(!new), V(!new)>(cfg: Config<A, V>, w: World<A, V>, w': World<A, V>, id: nat, r: Rec<A>)
    requires ValidConfig(cfg) && Inv(cfg, w) && Next(cfg, w, w', Mutate(id, r))
    ensures WindowInv(cfg, w')
  {
    assert WriterInv(cfg, w, id);
    if w.open && (w.phase.Anchored? || w.phase.Walking?) {
      var ref := cfg.refs[|w.shots|];
      assert w.phase.Anchored? ==> !Holds(w.prop, id)(ref);
      if r.d.locality == ShardLocal {
        var want := (x: Ref) => x != ref;
        assert Within(cfg.sem, r, want);
        RunLocal(cfg.sem, r, want, w.state, w.state);
        assert !want(ref);
      }
    }
  }

  /** While one writer has an unstaged record, every other writer's unstaged
      records are shard-local. */
  lemma OthersLocal<A(!new), V(!new)>(cfg: Config<A, V>, w: World<A, V>, id: nat, j: nat)
    requires ValidConfig(cfg) && LockInv(cfg, w)
    requires Running(w, id) && w.writers[id].pending != []
    requires j in w.writers && j != id
    ensures AllLocal(cfg.sem, w.writers[j].pending, Holds(w.prop, j))
  {
    assert WriterInv(cfg, w, id) && WriterInv(cfg, w, j);
    var r := w.writers[id].pending[0];
    FoldCons(cfg.sem, At(cfg, w.log), w.writers[id].pending);
    var key := if r.d.locality == CrossShard then cfg.refs[0]
               else Ref(r.db, cfg.sem.shardOf(KeysOf(r.d, r.args)[0]));
    assert key in cfg.refs;
    assert Holds(w.prop, id)(key);
    if i :| 0 <= i < |w.writers[j].pending| && w.writers[j].pending[i].d.locality == CrossShard {
      assert false;
    }
  }

  lemma StageCur<A(!new), V(!new)>(cfg: Config<A, V>, w: World<A, V>, id: nat)
    requires ValidConfig(cfg) && LogInv(cfg, w) && LockInv(cfg, w) && Running(w, id) && w.writers[id].pending != []
    ensures var pend := w.writers[id].pending;
            var log' := w.log + [pend[0]];
            && Fold(cfg.sem, cfg.origin, log').Some?
            && Fold(cfg.sem, At(cfg, log'), pend[1..]) == Fold(cfg.sem, At(cfg, w.log), pend)
            && (forall ref | ref in cfg.refs && !Holds(w.prop, id)(ref) ::
                  AgreeOn(cfg.sem, At(cfg, w.log), At(cfg, log'), ref))
  {
    assert WriterInv(cfg, w, id);
    var cur, pend := At(cfg, w.log), w.writers[id].pending;
    FoldCons(cfg.sem, cur, pend);
    FoldSnoc(cfg.sem, cfg.origin, w.log, pend[0]);
    if pend[0].d.locality == ShardLocal {
      RunLocal(cfg.sem, pend[0], Holds(w.prop, id), cur, cur);
    }
  }

  lemma StageOther<A(!new), V(!new)>(cfg: Config<A, V>, w: World<A, V>, id: nat, j: nat)
    requires ValidConfig(cfg) && LogInv(cfg, w) && LockInv(cfg, w) && Running(w, id) && w.writers[id].pending != []
    requires j in w.writers && j != id
    ensures var cur, cur' := At(cfg, w.log), At(cfg, w.log + [w.writers[id].pending[0]]);
            var pend := w.writers[j].pending;
            && Fold(cfg.sem, cur, pend).Some?
            && Fold(cfg.sem, cur', pend).Some?
            && Agree(cfg.sem, Fold(cfg.sem, cur, pend).value, Fold(cfg.sem, cur', pend).value, Holds(w.prop, j))
  {
    var cur, cur' := At(cfg, w.log), At(cfg, w.log + [w.writers[id].pending[0]]);
    StageCur(cfg, w, id);
    OthersLocal(cfg, w, id, j);
    assert WriterInv(cfg, w, j);
    var want := Holds(w.prop, j);
    forall ref: Ref | want(ref) ensures AgreeOn(cfg.sem, cur, cur', ref) {
      assert !Holds(w.prop, id)(ref);
    }
    FoldLocal(cfg.sem, w.writers[j].pending, want, cur, cur');
  }

  lemma StageStateAt<A(!new), V(!new)>(cfg: Config<A, V>, w: World<A, V>, w': World<A, V>, id: nat, ref: Ref)
    requires ValidConfig(cfg) && LogInv(cfg, w) && LockInv(cfg, w) && Next(cfg, w, w', Stage(id))
    requires ref in cfg.refs && AgreeOn(cfg.sem, w.state, Expected(cfg, w, ref), ref)
    ensures AgreeOn(cfg.sem, w'.state, Expected(cfg, w', ref), ref)
  {
    StageCur(cfg, w, id);
    if ref in w.prop && w.prop[ref].ByWriter? {
      var j := w.prop[ref].id;
      if j == id {
        assert WriterInv(cfg, w, id);
        assert Expected(cfg, w', ref) == Expected(cfg, w, ref);
      } else {
        StageOther(cfg, w, id, j);
        assert Holds(w.prop, j)(ref);
        assert AgreeOn(cfg.sem, Expected(cfg, w, ref), Expected(cfg, w', ref), ref);
      }
    } else {
      assert !Holds(w.prop, id)(ref);
      assert AgreeOn(cfg.sem, Expected(cfg, w, ref), Expected(cfg, w', ref), ref);
    }
  }

  lemma StageLock<A(!new), V(!new)>(cfg: Config<A, V>, w: World<A, V>, w': World<A, V>, id: nat)
    requires ValidConfig(cfg) && LogInv(cfg, w) && LockInv(cfg, w) && Next(cfg, w, w', Stage(id))
    ensures LockInv(cfg, w')
  {
    forall j | j in w'.writers ensures WriterInv(cfg, w', j) {
      assert WriterInv(cfg, w, j);
      if j == id {
        StageCur(cfg, w, id);
      } else {
        StageOther(cfg, w, id, j);
      }
    }
  }

  lemma StageOwned<A(!new), V(!new)>(cfg: Config<A, V>, w: World<A, V>, w': World<A, V>, id: nat, i: nat)
    requires LogInv(cfg, w) && id in w.writers && WriterInv(cfg, w, id) && Next(cfg, w, w', Stage(id))
    requires w'.durable <= i < |w'.log|
    ensures |w'.owner| == |w'.log| && Owned(cfg, w', i)
  {
    if i < |w.log| {
      assert Owned(cfg, w, i);
    }
  }

  lemma StageLog<A(!new), V(!new)>(cfg: Config<A, V>, w: World<A, V>, w': World<A, V>, id: nat)
    requires ValidConfig(cfg) && LogInv(cfg, w) && LockInv(cfg, w) && Next(cfg, w, w', Stage(id))
    ensures LogInv(cfg, w')
  {
    StageCur(cfg, w, id);
    assert WriterInv(cfg, w, id);
    StageLogOf(cfg, w, w', id);
  }

  lemma StageLogOf<A(!new), V(!new)>(cfg: Config<A, V>, w: World<A, V>, w': World<A, V>, id: nat)
    requires LogInv(cfg, w) && id in w.writers && WriterInv(cfg, w, id) && Next(cfg, w, w', Stage(id))
    requires Fold(cfg.sem, cfg.origin, w'.log).Some?
    ensures LogInv(cfg, w')
  {
    forall i | w'.durable <= i < |w'.log| ensures Owned(cfg, w', i) {
      StageOwned(cfg, w, w', id, i);
    }
    forall i | 0 <= i < |w'.log| ensures RecIn(cfg, w'.log[i]) && w'.log[i].size > 0 {
      assert i < |w.log| ==> RecIn(cfg, w.log[i]);
    }
  }

  lemma ExactGrows<A(!new), V(!new)>(cfg: Config<A, V>, log: seq<Rec<A>>, r: Rec<A>, shot: Shot<A, V>, ref: Ref)
    requires Exact(cfg, log, shot, ref)
    ensures Exact(cfg, log + [r], shot, ref)
  {
    OffPrefix(log, [r], shot.index);
    assert (log + [r])[..shot.index] == log[..shot.index];
  }

  lemma ShotsGrow<A(!new), V(!new)>(cfg: Config<A, V>, log: seq<Rec<A>>, r: Rec<A>, shots: seq<Shot<A, V>>)
    requires ShotsInv(cfg, log, shots)
    ensures ShotsInv(cfg, log + [r], shots)
  {
    forall i | 0 <= i < |shots| ensures Exact(cfg, log + [r], shots[i], cfg.refs[i]) {
      ExactGrows(cfg, log, r, shots[i], cfg.refs[i]);
    }
  }

  lemma StagePhase<A(!new), V(!new)>(cfg: Config<A, V>, w: World<A, V>, w': World<A, V>, id: nat)
    requires w.open && PhaseInv(cfg, w) && Next(cfg, w, w', Stage(id))
    requires cfg.exec || w.writers[id].pending[0].d.locality == ShardLocal
    ensures PhaseInv(cfg, w')
  {
    if w.phase.Anchored? || w.phase.Walking? {
      var r := w.writers[id].pending[0];
      OffPrefix(w.log, [r], w.phase.index);
      assert w'.log[..w.phase.index] == w.log[..w.phase.index];
    }
  }

  lemma SerializedGrows<A(!new), V(!new)>(cfg: Config<A, V>, log: seq<Rec<A>>, r: Rec<A>, shots: seq<Shot<A, V>>)
    requires Serialized(cfg, log, shots)
    ensures Serialized(cfg, log + [r], shots)
    ensures Undisturbed(log + [r], shots) <==> Undisturbed(log, shots)
  {
    ShotsGrow(cfg, log, r, shots);
    if shots != [] {
      assert Exact(cfg, log, shots[|shots| - 1], cfg.refs[|shots| - 1]);
      if NoCross(log + [r], shots[0].index, shots[|shots| - 1].index) {
        forall i | shots[0].index <= i < shots[|shots| - 1].index && i < |log| ensures log[i].d.locality == ShardLocal {
          assert (log + [r])[i] == log[i];
        }
      }
    }
  }

  lemma StageWindow<A(!new), V(!new)>(cfg: Config<A, V>, w: World<A, V>, w': World<A, V>, id: nat)
    requires ValidConfig(cfg) && LockInv(cfg, w) && WindowInv(cfg, w) && Next(cfg, w, w', Stage(id))
    ensures WindowInv(cfg, w')
  {
    var r := w.writers[id].pending[0];
    if w.open {
      assert WriterInv(cfg, w, id);
      assert cfg.exec || r.d.locality == ShardLocal;
      ShotsGrow(cfg, w.log, r, w.shots);
      StagePhase(cfg, w, w', id);
    }
    if w.done.Some? {
      SerializedGrows(cfg, w.log, r, w.done.value);
    }
  }

  lemma StageInv<A(!new), V(!new)>(cfg: Config<A, V>, w: World<A, V>, w': World<A, V>, id: nat)
    requires ValidConfig(cfg) && Inv(cfg, w) && Next(cfg, w, w', Stage(id))
    ensures Inv(cfg, w')
  {
    StageLog(cfg, w, w', id);
    StageLock(cfg, w, w', id);
    StageWindow(cfg, w, w', id);
    forall ref | ref in cfg.refs ensures AgreeOn(cfg.sem, w'.state, Expected(cfg, w', ref), ref) {
      StageStateAt(cfg, w, w', id, ref);
    }
  }

  // --------------------------------------------- steps that leave log and keyspace

  /** A step that changes neither the log, the keyspace, nor who holds a lock that
      matters keeps the log and state invariants. */
  ghost predicate Quiet<A(!new), V(!new)>(cfg: Config<A, V>, w: World<A, V>, w': World<A, V>) {
    && w'.state == w.state && w'.log == w.log && w'.owner == w.owner
    && w.durable <= w'.durable <= |w.log|
    && (forall i | w'.durable <= i < |w.log| && i < |w.owner| && w.owner[i] in w.writers
                   && w.writers[w.owner[i]].waiting == Some(i + 1) ::
          && w.owner[i] in w'.writers
          && w'.writers[w.owner[i]].waiting == Some(i + 1)
          && w'.writers[w.owner[i]].cross == w.writers[w.owner[i]].cross
          && forall ref: Ref | Holds(w.prop, w.owner[i])(ref) :: Holds(w'.prop, w.owner[i])(ref))
    && (forall ref | ref in cfg.refs :: Expected(cfg, w', ref) == Expected(cfg, w, ref))
  }

  lemma WithinMono<A(!new), V>(sem: Semantics<A, V>, r: Rec<A>, want: Ref -> bool, want': Ref -> bool)
    requires Within(sem, r, want) && forall ref: Ref | want(ref) :: want'(ref)
    ensures Within(sem, r, want')
  {
  }

  lemma QuietInv<A(!new), V(!new)>(cfg: Config<A, V>, w: World<A, V>, w': World<A, V>)
    requires LogInv(cfg, w) && StateInv(cfg, w) && Quiet(cfg, w, w')
    ensures LogInv(cfg, w') && StateInv(cfg, w')
  {
    forall i | w'.durable <= i < |w'.log| ensures Owned(cfg, w', i) {
      assert Owned(cfg, w, i);
      if w.log[i].d.locality == ShardLocal {
        WithinMono(cfg.sem, w.log[i], Holds(w.prop, w.owner[i]), Holds(w'.prop, w.owner[i]));
      }
    }
    forall ref | ref in cfg.refs ensures AgreeOn(cfg.sem, w'.state, Expected(cfg, w', ref), ref) {
      assert AgreeOn(cfg.sem, w.state, Expected(cfg, w, ref), ref);
    }
  }

  lemma WriterKeeps<A(!new), V(!new)>(cfg: Config<A, V>, w: World<A, V>, w': World<A, V>, id: nat)
    requires id in w.writers && WriterInv(cfg, w, id)
    requires w'.log == w.log && (w'.open ==> w.open)
    requires id in w'.writers && w'.writers[id] == w.writers[id]
    requires forall ref: Ref | Holds(w.prop, id)(ref) :: Holds(w'.prop, id)(ref)
    ensures WriterInv(cfg, w', id)
  {
    var wr := w.writers[id];
    forall i | 0 <= i < |wr.pending| && wr.pending[i].d.locality == ShardLocal
      ensures Within(cfg.sem, wr.pending[i], Holds(w'.prop, id))
    {
      WithinMono(cfg.sem, wr.pending[i], Holds(w.prop, id), Holds(w'.prop, id));
    }
  }

  /** A step that leaves the snapshot alone keeps what holds of it. */
  lemma WindowSame<A(!new), V(!new)>(cfg: Config<A, V>, w: World<A, V>, w': World<A, V>)
    requires WindowInv(cfg, w) && w'.log == w.log && w'.state == w.state && w.durable <= w'.durable <= |w.log|
    requires w'.open == w.open && w'.phase == w.phase && w'.shots == w.shots && w'.done == w.done
    ensures WindowInv(cfg, w')
  {
  }

  lemma BeginLock<A(!new), V(!new)>(cfg: Config<A, V>, w: World<A, V>, w': World<A, V>, step: Step<A>)
    requires LockInv(cfg, w) && (step.BeginLocal? || step.BeginCross? || step.BeginExec?) && Next(cfg, w, w', step)
    ensures LockInv(cfg, w')
  {
    forall j | j in w'.writers ensures WriterInv(cfg, w', j) {
      if j != step.id {
        WriterKeeps(cfg, w, w', j);
      }
    }
  }

  lemma BeginQuiet<A(!new), V(!new)>(cfg: Config<A, V>, w: World<A, V>, w': World<A, V>, step: Step<A>)
    requires LogInv(cfg, w) && LockInv(cfg, w) && (step.BeginLocal? || step.BeginCross? || step.BeginExec?) && Next(cfg, w, w', step)
    ensures Quiet(cfg, w, w')
  {
    forall ref | ref in cfg.refs ensures Expected(cfg, w', ref) == Expected(cfg, w, ref) {}
  }

  lemma BeginInv<A(!new), V(!new)>(cfg: Config<A, V>, w: World<A, V>, w': World<A, V>, step: Step<A>)
    requires Inv(cfg, w) && (step.BeginLocal? || step.BeginCross? || step.BeginExec?) && Next(cfg, w, w', step)
    ensures Inv(cfg, w')
  {
    BeginQuiet(cfg, w, w', step);
    QuietInv(cfg, w, w');
    BeginLock(cfg, w, w', step);
    WindowSame(cfg, w, w');
  }

  lemma AcquireLock<A(!new), V(!new)>(cfg: Config<A, V>, w: World<A, V>, w': World<A, V>, id: nat, ref: Ref)
    requires LockInv(cfg, w) && Next(cfg, w, w', Acquire(id, ref))
    ensures LockInv(cfg, w')
  {
    forall j | j in w'.writers ensures WriterInv(cfg, w', j) {
      WriterKeeps(cfg, w, w', j);
    }
  }

  lemma AcquireQuiet<A(!new), V(!new)>(cfg: Config<A, V>, w: World<A, V>, w': World<A, V>, id: nat, ref: Ref)
    requires LogInv(cfg, w) && id in w.writers && WriterInv(cfg, w, id) && Next(cfg, w, w', Acquire(id, ref))
    ensures Quiet(cfg, w, w')
  {
    assert w.writers[id].pending == [] && !Holds(w.prop, id)(ref);
    forall x | x in cfg.refs ensures Expected(cfg, w', x) == Expected(cfg, w, x) {
      if x == ref {
        assert Fold(cfg.sem, At(cfg, w.log), []) == Some(At(cfg, w.log));
      }
    }
  }

  lemma AcquireInv<A(!new), V(!new)>(cfg: Config<A, V>, w: World<A, V>, w': World<A, V>, id: nat, ref: Ref)
    requires Inv(cfg, w) && Next(cfg, w, w', Acquire(id, ref))
    ensures Inv(cfg, w')
  {
    AcquireQuiet(cfg, w, w', id, ref);
    QuietInv(cfg, w, w');
    AcquireLock(cfg, w, w', id, ref);
    WindowSame(cfg, w, w');
  }

  lemma FlushLock<A(!new), V(!new)>(cfg: Config<A, V>, w: World<A, V>, w': World<A, V>, n: nat)
    requires LockInv(cfg, w) && Next(cfg, w, w', Flush(n))
    ensures LockInv(cfg, w')
  {
    forall j | j in w'.writers ensures WriterInv(cfg, w', j) {
      WriterKeeps(cfg, w, w', j);
    }
  }

  lemma FlushQuiet<A(!new), V(!new)>(cfg: Config<A, V>, w: World<A, V>, w': World<A, V>, n: nat)
    requires LogInv(cfg, w) && Next(cfg, w, w', Flush(n))
    ensures Quiet(cfg, w, w')
  {
  }

  lemma FlushInv<A(!new), V(!new)>(cfg: Config<A, V>, w: World<A, V>, w': World<A, V>, n: nat)
    requires Inv(cfg, w) && Next(cfg, w, w', Flush(n))
    ensures Inv(cfg, w')
  {
    FlushQuiet(cfg, w, w', n);
    QuietInv(cfg, w, w');
    FlushLock(cfg, w, w', n);
    WindowSame(cfg, w, w');
  }

  /** A writer goes on, or starts to leave. */
  lemma FlagLock<A(!new), V(!new)>(cfg: Config<A, V>, w: World<A, V>, w': World<A, V>, step: Step<A>)
    requires LockInv(cfg, w) && (step.Resume? || step.Leave?) && Next(cfg, w, w', step)
    ensures LockInv(cfg, w')
  {
    forall j | j in w'.writers ensures WriterInv(cfg, w', j) {
      if j != step.id {
        WriterKeeps(cfg, w, w', j);
      } else {
        assert WriterInv(cfg, w, j);
      }
    }
  }

  lemma ResumeInv<A(!new), V(!new)>(cfg: Config<A, V>, w: World<A, V>, w': World<A, V>, id: nat)
    requires Inv(cfg, w) && Next(cfg, w, w', Resume(id))
    ensures Inv(cfg, w')
  {
    QuietFlag(cfg, w, w', id);
    QuietInv(cfg, w, w');
    FlagLock(cfg, w, w', Resume(id));
    WindowSame(cfg, w, w');
  }

  lemma LeaveInv<A(!new), V(!new)>(cfg: Config<A, V>, w: World<A, V>, w': World<A, V>, id: nat)
    requires Inv(cfg, w) && Next(cfg, w, w', Leave(id))
    ensures Inv(cfg, w')
  {
    QuietFlag(cfg, w, w', id);
    QuietInv(cfg, w, w');
    FlagLock(cfg, w, w', Leave(id));
    WindowSame(cfg, w, w');
  }

  /** One writer that no unflushed record belongs to changes a flag of its own. */
  lemma QuietFlag<A(!new), V(!new)>(cfg: Config<A, V>, w: World<A, V>, w': World<A, V>, id: nat)
    requires id in w.writers && w.durable <= |w.log| && id in w'.writers
    requires w' == w.(writers := w.writers[id := w'.writers[id]])
    requires w'.writers[id].pending == w.writers[id].pending
    requires w.writers[id].waiting.Some? ==> w.writers[id].waiting.value <= w.durable
    ensures Quiet(cfg, w, w')
  {
  }

  lemma DropLock<A(!new), V(!new)>(cfg: Config<A, V>, w: World<A, V>, w': World<A, V>, id: nat, ref: Ref)
    requires LockInv(cfg, w) && Next(cfg, w, w', Drop(id, ref))
    ensures LockInv(cfg, w')
  {
    forall j | j in w'.writers ensures WriterInv(cfg, w', j) {
      assert WriterInv(cfg, w, j);
      if j != id {
        WriterKeeps(cfg, w, w', j);
      }
    }
  }

  lemma DropQuiet<A(!new), V(!new)>(cfg: Config<A, V>, w: World<A, V>, w': World<A, V>, id: nat, ref: Ref)
    requires LogInv(cfg, w) && id in w.writers && WriterInv(cfg, w, id) && Next(cfg, w, w', Drop(id, ref))
    ensures Quiet(cfg, w, w')
  {
    forall x | x in cfg.refs ensures Expected(cfg, w', x) == Expected(cfg, w, x) {
      if x == ref {
        assert Fold(cfg.sem, At(cfg, w.log), []) == Some(At(cfg, w.log));
      }
    }
  }

  lemma DropInv<A(!new), V(!new)>(cfg: Config<A, V>, w: World<A, V>, w': World<A, V>, id: nat, ref: Ref)
    requires Inv(cfg, w) && Next(cfg, w, w', Drop(id, ref))
    ensures Inv(cfg, w')
  {
    DropQuiet(cfg, w, w', id, ref);
    QuietInv(cfg, w, w');
    DropLock(cfg, w, w', id, ref);
    WindowSame(cfg, w, w');
  }

  lemma ExitLock<A(!new), V(!new)>(cfg: Config<A, V>, w: World<A, V>, w': World<A, V>, id: nat)
    requires LockInv(cfg, w) && Next(cfg, w, w', Exit(id))
    ensures LockInv(cfg, w')
  {
    forall j | j in w'.writers ensures WriterInv(cfg, w', j) {
      WriterKeeps(cfg, w, w', j);
    }
  }

  lemma ExitQuiet<A(!new), V(!new)>(cfg: Config<A, V>, w: World<A, V>, w': World<A, V>, id: nat)
    requires LogInv(cfg, w) && id in w.writers && WriterInv(cfg, w, id) && Next(cfg, w, w', Exit(id))
    ensures Quiet(cfg, w, w')
  {
  }

  lemma ExitInv<A(!new), V(!new)>(cfg: Config<A, V>, w: World<A, V>, w': World<A, V>, id: nat)
    requires Inv(cfg, w) && Next(cfg, w, w', Exit(id))
    ensures Inv(cfg, w')
  {
    ExitQuiet(cfg, w, w', id);
    QuietInv(cfg, w, w');
    ExitLock(cfg, w, w', id);
    WindowSame(cfg, w, w');
  }

  // --------------------------------------------------------- steps of the snapshotter

  lemma OpenInv<A(!new), V(!new)>(cfg: Config<A, V>, w: World<A, V>, w': World<A, V>)
    requires ValidConfig(cfg) && Inv(cfg, w) && Next(cfg, w, w', OpenWindow)
    ensures Inv(cfg, w')
  {
    QuietInv(cfg, w, w');
    forall j | j in w'.writers ensures WriterInv(cfg, w', j) {
      assert WriterInv(cfg, w, j);
    }
  }

  /** A step of the snapshotter that touches no writer and no lock of one. */
  lemma SnapLock<A(!new), V(!new)>(cfg: Config<A, V>, w: World<A, V>, w': World<A, V>, step: Step<A>)
    requires LockInv(cfg, w) && (step.TakeProp? || step.ReadAnchor? || step.TakeMu? || step.Walk?) && Next(cfg, w, w', step)
    ensures LockInv(cfg, w')
  {
    forall j | j in w'.writers ensures WriterInv(cfg, w', j) {
      WriterKeeps(cfg, w, w', j);
    }
  }

  lemma TakePropInv<A(!new), V(!new)>(cfg: Config<A, V>, w: World<A, V>, w': World<A, V>)
    requires Inv(cfg, w) && Next(cfg, w, w', TakeProp)
    ensures Inv(cfg, w')
  {
    QuietSnap(cfg, w, w', cfg.refs[|w.shots|]);
    QuietInv(cfg, w, w');
    SnapLock(cfg, w, w', TakeProp);
  }

  lemma TakeMuInv<A(!new), V(!new)>(cfg: Config<A, V>, w: World<A, V>, w': World<A, V>)
    requires Inv(cfg, w) && Next(cfg, w, w', TakeMu)
    ensures Inv(cfg, w')
  {
    QuietSnap(cfg, w, w', cfg.refs[|w.shots|]);
    QuietInv(cfg, w, w');
    SnapLock(cfg, w, w', TakeMu);
  }

  /** The snapshotter takes or gives back a prop lock no writer holds. */
  lemma QuietSnap<A(!new), V(!new)>(cfg: Config<A, V>, w: World<A, V>, w': World<A, V>, ref: Ref)
    requires w.durable <= |w.log|
    requires w' == w.(phase := w'.phase, prop := w'.prop)
    requires ref in w.prop ==> w.prop[ref] == BySnapshotter
    requires w'.prop == w.prop - {ref} || w'.prop == w.prop[ref := BySnapshotter]
    ensures Quiet(cfg, w, w')
    ensures forall id: nat, x: Ref | Holds(w.prop, id)(x) :: Holds(w'.prop, id)(x)
  {
    forall x | x in cfg.refs ensures Expected(cfg, w', x) == Expected(cfg, w, x) {}
  }

  /** Reading the offset under prop is exact: nobody holds the shard, so every
      record that touches it has been flushed. */
  lemma AnchorExact<A(!new), V(!new)>(cfg: Config<A, V>, w: World<A, V>, ref: Ref)
    requires LogInv(cfg, w) && LockInv(cfg, w) && StateInv(cfg, w)
    requires w.open && ref in cfg.refs && (ref in w.prop ==> w.prop[ref] == BySnapshotter)
    ensures NoCross(w.log, w.durable, |w.log|)
    ensures AgreeOn(cfg.sem, w.state, At(cfg, w.log[..w.durable]), ref)
  {
    forall i | w.durable <= i < |w.log|
      ensures w.log[i].d.locality == ShardLocal && Within(cfg.sem, w.log[i], (x: Ref) => x != ref)
    {
      assert Owned(cfg, w, i);
      assert WriterInv(cfg, w, w.owner[i]);
      WithinMono(cfg.sem, w.log[i], Holds(w.prop, w.owner[i]), (x: Ref) => x != ref);
    }
    FoldOff(cfg.sem, cfg.origin, w.log, w.durable, ref);
    assert Expected(cfg, w, ref) == At(cfg, w.log);
  }

  lemma ReadAnchorInv<A(!new), V(!new)>(cfg: Config<A, V>, w: World<A, V>, w': World<A, V>)
    requires ValidConfig(cfg) && Inv(cfg, w) && Next(cfg, w, w', ReadAnchor)
    ensures Inv(cfg, w')
  {
    QuietInv(cfg, w, w');
    AnchorExact(cfg, w, cfg.refs[|w.shots|]);
    SnapLock(cfg, w, w', ReadAnchor);
  }

  lemma WalkInv<A(!new), V(!new)>(cfg: Config<A, V>, w: World<A, V>, w': World<A, V>)
    requires ValidConfig(cfg) && Inv(cfg, w) && Next(cfg, w, w', Walk)
    ensures Inv(cfg, w')
  {
    QuietInv(cfg, w, w');
    SnapLock(cfg, w, w', Walk);
    WalkTaken(cfg, w, w');
  }

  /** What is serialized under mu is the shard at its anchor. */
  lemma WalkTaken<A(!new), V(!new)>(cfg: Config<A, V>, w: World<A, V>, w': World<A, V>)
    requires TakenInv(cfg, w) && PhaseInv(cfg, w) && Next(cfg, w, w', Walk)
    ensures TakenInv(cfg, w')
  {
    var ref := cfg.refs[|w.shots|];
    var shot := w'.shots[|w.shots|];
    forall slot: Slot<A> | RefOf(cfg.sem, slot) == ref
      ensures Get(shot.contents, slot) == Get(At(cfg, w.log[..shot.index]), slot)
    {
      assert Get(w.state, slot) == Get(At(cfg, w.log[..shot.index]), slot);
    }
    assert Exact(cfg, w.log, shot, ref);
  }

  lemma SameWriters<A(!new), V(!new)>(cfg: Config<A, V>, w: World<A, V>, w': World<A, V>)
    requires LogInv(cfg, w) && LockInv(cfg, w) && StateInv(cfg, w)
    requires w' == w.(open := false, done := w'.done)
    ensures LogInv(cfg, w') && LockInv(cfg, w') && StateInv(cfg, w')
  {
    assert forall ref :: Expected(cfg, w', ref) == Expected(cfg, w, ref);
    QuietInv(cfg, w, w');
    forall j | j in w'.writers ensures WriterInv(cfg, w', j) {
      WriterKeeps(cfg, w, w', j);
    }
  }

  lemma CloseInv<A(!new), V(!new)>(cfg: Config<A, V>, w: World<A, V>, w': World<A, V>, step: Step<A>)
    requires ValidConfig(cfg) && Inv(cfg, w) && (step.CloseWindow? || step.AbortWindow?) && Next(cfg, w, w', step)
    ensures Inv(cfg, w')
  {
    SameWriters(cfg, w, w');
    if step.CloseWindow? {
      TakenCommitted(cfg, w);
    }
  }

  lemma TakenCommitted<A(!new), V(!new)>(cfg: Config<A, V>, w: World<A, V>)
    requires TakenInv(cfg, w) && |w.shots| == |cfg.refs|
    ensures Serialized(cfg, w.log, w.shots) && (cfg.exec || Undisturbed(w.log, w.shots))
  {
    if w.shots != [] && !cfg.exec {
      var n := |w.shots|;
      assert Exact(cfg, w.log, w.shots[n - 1], cfg.refs[n - 1]);
      assert NoCross(w.log, w.shots[0].index, |w.log|);
    }
  }

  // ------------------------------------------------------------------ whole runs

  predicate OfSnapshotter<A>(step: Step<A>) {
    step.OpenWindow? || step.TakeProp? || step.ReadAnchor? || step.TakeMu? || step.Walk? || step.CloseWindow? || step.AbortWindow?
  }

  lemma SnapshotterInv<A(!new), V(!new)>(cfg: Config<A, V>, w: World<A, V>, w': World<A, V>, step: Step<A>)
    requires ValidConfig(cfg) && Inv(cfg, w) && Next(cfg, w, w', step) && OfSnapshotter(step)
    ensures Inv(cfg, w')
  {
    match step
    case OpenWindow => OpenInv(cfg, w, w');
    case TakeProp => TakePropInv(cfg, w, w');
    case ReadAnchor => ReadAnchorInv(cfg, w, w');
    case TakeMu => TakeMuInv(cfg, w, w');
    case Walk => WalkInv(cfg, w, w');
    case CloseWindow => CloseInv(cfg, w, w', step);
    case AbortWindow => CloseInv(cfg, w, w', step);
  }

  predicate OfLocks<A>(step: Step<A>) {
    step.Acquire? || step.Leave? || step.Drop? || step.Exit?
  }

  lemma LocksInv<A(!new), V(!new)>(cfg: Config<A, V>, w: World<A, V>, w': World<A, V>, step: Step<A>)
    requires Inv(cfg, w) && Next(cfg, w, w', step) && OfLocks(step)
    ensures Inv(cfg, w')
  {
    match step
    case Acquire(id, ref) => AcquireInv(cfg, w, w', id, ref);
    case Leave(id) => LeaveInv(cfg, w, w', id);
    case Drop(id, ref) => DropInv(cfg, w, w', id, ref);
    case Exit(id) => ExitInv(cfg, w, w', id);
  }

  lemma WritesInv<A(!new), V(!new)>(cfg: Config<A, V>, w: World<A, V>, w': World<A, V>, step: Step<A>)
    requires ValidConfig(cfg) && Inv(cfg, w) && Next(cfg, w, w', step)
    requires step.Mutate? || step.Stage? || step.Flush? || step.Resume?
    ensures Inv(cfg, w')
  {
    match step
    case Mutate(id, r) => MutateInv(cfg, w, w', id, r);
    case Stage(id) => StageInv(cfg, w, w', id);
    case Flush(n) => FlushInv(cfg, w, w', n);
    case Resume(id) => ResumeInv(cfg, w, w', id);
  }

  /** Every step of the protocol keeps the invariant. */
  lemma StepInv<A(!new), V(!new)>(cfg: Config<A, V>, w: World<A, V>, w': World<A, V>, step: Step<A>)
    requires ValidConfig(cfg) && Inv(cfg, w) && Next(cfg, w, w', step)
    ensures Inv(cfg, w')
  {
    if step.BeginLocal? || step.BeginCross? || step.BeginExec? {
      BeginInv(cfg, w, w', step);
    } else if OfLocks(step) {
      LocksInv(cfg, w, w', step);
    } else if OfSnapshotter(step) {
      SnapshotterInv(cfg, w, w', step);
    } else {
      WritesInv(cfg, w, w', step);
    }
  }

  lemma {:induction false} RunInv<A(!new), V(!new)>(cfg: Config<A, V>, run: seq<World<A, V>>, steps: seq<Step<A>>, i: nat)
    requires ValidConfig(cfg) && Reachable(cfg, run, steps) && i < |run|
    ensures Inv(cfg, run[i])
  {
    if i > 0 {
      RunInv(cfg, run, steps, i - 1);
      StepInv(cfg, run[i - 1], run[i], steps[i - 1]);
    }
  }

  /** Whenever no write is in flight, the live keyspace is exactly what replaying
      the whole log builds. */
  lemma LiveIsLog<A(!new), V(!new)>(cfg: Config<A, V>, run: seq<World<A, V>>, steps: seq<Step<A>>, i: nat)
    requires ValidConfig(cfg) && Reachable(cfg, run, steps) && i < |run|
    requires run[i].writers == map[]
    ensures Fold(cfg.sem, cfg.origin, run[i].log) == Some(run[i].state)
  {
    var w := run[i];
    RunInv(cfg, run, steps, i);
    FoldInRange(cfg, w.log, cfg.origin);
    forall ref | ref in cfg.refs ensures AgreeOn(cfg.sem, w.state, At(cfg, w.log), ref) {
      assert Expected(cfg, w, ref) == At(cfg, w.log);
    }
    SameInRange(cfg, w.state, At(cfg, w.log));
  }
}
