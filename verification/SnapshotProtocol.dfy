/** Writers, the log and the fuzzy snapshot as one interleaved protocol
    (command/dispatch.go, engine/order.go, engine/snapshot.go, persist/log.go).

    Writers take the `prop` lock of each shard they need, one at a time, change
    the keyspace, stage the record in the log, and go on only once it has been
    flushed.  The snapshotter walks the shards in ascending order: under `prop`
    it reads the log offset, which covers flushed records only, then takes the
    shard's `mu`, releases `prop` and serializes.  A cross-shard command that comes
    through Execute and the snapshot window exclude each other; one inside EXEC takes
    every `prop` lock and ignores the window (command/transaction.go). */
module SnapshotProtocol {
  import opened Options
  import opened Records
  import opened Stream

  datatype Holder = ByWriter(id: nat) | BySnapshotter

  /** A write in flight.  `pending` has been applied to the keyspace and not yet
      staged; `waiting` is the log length that must be flushed before it may go
      on; `guarded` says that it holds the snapshot guard. */
  datatype Writer<A> = Writer(cross: bool, guarded: bool, needs: set<Ref>, pending: seq<Rec<A>>, waiting: Option<nat>, leaving: bool)

  /** One serialized shard: the offset it was anchored at, the number of records
      before that offset, and its contents. */
  datatype Shot<A, V> = Shot(anchor: nat, index: nat, contents: State<A, V>)

  datatype Phase = Resting | PropTaken | Anchored(anchor: nat, index: nat) | Walking(anchor: nat, index: nat)

  /** `origin` is the state the log starts from, `refs` every shard in the order
      it is serialized, `exec` whether clients run cross-shard commands inside EXEC. */
  datatype Config<!A(==), !V> = Config(sem: Semantics<A, V>, origin: State<A, V>, refs: seq<Ref>, exec: bool)

  datatype World<A, V> = World(
    state: State<A, V>,
    log: seq<Rec<A>>,
    owner: seq<nat>,
    durable: nat,
    prop: map<Ref, Holder>,
    writers: map<nat, Writer<A>>,
    open: bool,
    phase: Phase,
    shots: seq<Shot<A, V>>,
    done: Option<seq<Shot<A, V>>>)

  datatype Step<A> =
    | BeginLocal(id: nat, needs: set<Ref>)
    | BeginCross(id: nat)
    | BeginExec(id: nat)
    | Acquire(id: nat, ref: Ref)
    | Mutate(id: nat, r: Rec<A>)
    | Stage(id: nat)
    | Flush(n: nat)
    | Resume(id: nat)
    | Leave(id: nat)
    | Drop(id: nat, ref: Ref)
    | Exit(id: nat)
    | OpenWindow
    | TakeProp
    | ReadAnchor
    | TakeMu
    | Walk
    | CloseWindow
    | AbortWindow

  // -------------------------------------------------------------- configuration

  ghost predicate InRange<A(!new), V>(cfg: Config<A, V>, st: State<A, V>) {
    forall slot | slot in st :: RefOf(cfg.sem, slot) in cfg.refs
  }

  ghost predicate ValidConfig<A(!new), V(!new)>(cfg: Config<A, V>) {
    && cfg.refs != []
    && (forall i, j | 0 <= i < j < |cfg.refs| :: cfg.refs[i] != cfg.refs[j])
    && InRange(cfg, cfg.origin)
    && (forall r: Rec<A>, st: State<A, V> {:trigger cfg.sem.whole(r, st)} ::
          InRange(cfg, st) && cfg.sem.whole(r, st).Some? ==> InRange(cfg, cfg.sem.whole(r, st).value))
  }

  function Holds(prop: map<Ref, Holder>, id: nat): Ref -> bool {
    (ref: Ref) => ref in prop && prop[ref] == ByWriter(id)
  }

  ghost predicate Within<A(!new), V>(sem: Semantics<A, V>, r: Rec<A>, want: Ref -> bool) {
    forall i | 0 <= i < |KeysOf(r.d, r.args)| :: want(Ref(r.db, sem.shardOf(KeysOf(r.d, r.args)[i])))
  }

  /** The record's keys live in configured shards. */
  ghost predicate RecIn<A(!new), V(!new)>(cfg: Config<A, V>, r: Rec<A>) {
    r.d.locality == ShardLocal ==> Within(cfg.sem, r, (ref: Ref) => ref in cfg.refs)
  }

  ghost predicate Running<A, V>(w: World<A, V>, id: nat) {
    && id in w.writers
    && !w.writers[id].leaving
    && w.writers[id].waiting.None?
    && forall ref | ref in w.writers[id].needs :: Holds(w.prop, id)(ref)
  }

  function Restrict<A(==), V>(sem: Semantics<A, V>, st: State<A, V>, ref: Ref): State<A, V> {
    map slot | slot in st && RefOf(sem, slot) == ref :: st[slot]
  }

  // ------------------------------------------------------------------- the steps

  ghost predicate Init<A(!new), V(!new)>(cfg: Config<A, V>, w: World<A, V>) {
    w == World(cfg.origin, [], [], 0, map[], map[], false, Resting, [], None)
  }

  ghost predicate CanMutate<A(!new), V(!new)>(cfg: Config<A, V>, w: World<A, V>, id: nat, r: Rec<A>) {
    && Running(w, id)
    && WellFormed(r)
    && r.size > 0
    && (r.d.locality == CrossShard ==> w.writers[id].cross)
    && (r.d.locality == ShardLocal ==> Within(cfg.sem, r, Holds(w.prop, id)))
    // the snapshotter holds mu while it walks a shard, so that shard cannot change
    && (w.phase.Walking? && r.d.locality == ShardLocal && |w.shots| < |cfg.refs| ==>
          Within(cfg.sem, r, (ref: Ref) => ref != cfg.refs[|w.shots|]))
    && Run(cfg.sem, r, w.state).Some?
    && (w.phase.Walking? && r.d.locality == CrossShard && |w.shots| < |cfg.refs| ==>
          AgreeOn(cfg.sem, w.state, Run(cfg.sem, r, w.state).value, cfg.refs[|w.shots|]))
  }

  ghost predicate Next<A(!new), V(!new)>(cfg: Config<A, V>, w: World<A, V>, w': World<A, V>, step: Step<A>) {
    match step
    case BeginLocal(id, needs) =>
      && id !in w.writers
      && (forall ref | ref in needs :: ref in cfg.refs)
      && w' == w.(writers := w.writers[id := Writer(false, false, needs, [], None, false)])
    case BeginCross(id) =>
      && id !in w.writers
      && !w.open
      && w' == w.(writers := w.writers[id := Writer(true, true, set ref | ref in cfg.refs, [], None, false)])
    case BeginExec(id) =>
      && cfg.exec && id !in w.writers
      && w' == w.(writers := w.writers[id := Writer(true, false, set ref | ref in cfg.refs, [], None, false)])
    case Acquire(id, ref) =>
      && id in w.writers && !w.writers[id].leaving
      && ref in w.writers[id].needs
      && ref !in w.prop
      && w' == w.(prop := w.prop[ref := ByWriter(id)])
    case Mutate(id, r) =>
      && CanMutate(cfg, w, id, r)
      && var wr := w.writers[id];
         w' == w.(state := Run(cfg.sem, r, w.state).value,
                  writers := w.writers[id := wr.(pending := wr.pending + [r])])
    case Stage(id) =>
      && Running(w, id)
      && w.writers[id].pending != []
      && var wr := w.writers[id];
         w' == w.(log := w.log + [wr.pending[0]],
                  owner := w.owner + [id],
                  writers := w.writers[id := wr.(pending := wr.pending[1..], waiting := Some(|w.log| + 1))])
    case Flush(n) =>
      && w.durable < n <= |w.log|
      && w' == w.(durable := n)
    case Resume(id) =>
      && id in w.writers && w.writers[id].waiting.Some?
      && w.writers[id].waiting.value <= w.durable
      && w' == w.(writers := w.writers[id := w.writers[id].(waiting := None)])
    case Leave(id) =>
      && Running(w, id)
      && w.writers[id].pending == []
      && w' == w.(writers := w.writers[id := w.writers[id].(leaving := true)])
    case Drop(id, ref) =>
      && id in w.writers && w.writers[id].leaving
      && Holds(w.prop, id)(ref)
      && w' == w.(prop := w.prop - {ref})
    case Exit(id) =>
      && id in w.writers && w.writers[id].leaving
      && (forall ref | ref in w.prop :: w.prop[ref] != ByWriter(id))
      && w' == w.(writers := w.writers - {id})
    case OpenWindow =>
      && !w.open
      && (forall id | id in w.writers :: !w.writers[id].guarded)
      && w' == w.(open := true, phase := Resting, shots := [])
    case TakeProp =>
      && w.open && w.phase == Resting && |w.shots| < |cfg.refs|
      && cfg.refs[|w.shots|] !in w.prop
      && w' == w.(phase := PropTaken, prop := w.prop[cfg.refs[|w.shots|] := BySnapshotter])
    case ReadAnchor =>
      && w.open && w.phase == PropTaken
      && w.durable <= |w.log|
      && w' == w.(phase := Anchored(Off(w.log, w.durable), w.durable))
    case TakeMu =>
      && w.open && w.phase.Anchored? && |w.shots| < |cfg.refs|
      && w' == w.(phase := Walking(w.phase.anchor, w.phase.index), prop := w.prop - {cfg.refs[|w.shots|]})
    case Walk =>
      && w.open && w.phase.Walking? && |w.shots| < |cfg.refs|
      && w' == w.(phase := Resting,
                  shots := w.shots + [Shot(w.phase.anchor, w.phase.index,
                                           Restrict(cfg.sem, w.state, cfg.refs[|w.shots|]))])
    case CloseWindow =>
      && w.open && w.phase == Resting && |w.shots| == |cfg.refs|
      && w' == w.(open := false, done := Some(w.shots))
    case AbortWindow =>
      && w.open && w.phase == Resting
      && w' == w.(open := false)
  }

  ghost predicate Reachable<A(!new), V(!new)>(cfg: Config<A, V>, run: seq<World<A, V>>, steps: seq<Step<A>>) {
    && |run| == |steps| + 1
    && Init(cfg, run[0])
    && forall i | 0 <= i < |steps| :: Next(cfg, run[i], run[i + 1], steps[i])
  }

  // ----------------------------------------------------------------- the invariant

  ghost function At<A, V>(cfg: Config<A, V>, log: seq<Rec<A>>): State<A, V> {
    match Fold(cfg.sem, cfg.origin, log)
    case Some(st) => st
    case None => cfg.origin
  }

  /** What the keyspace should hold in a shard: the log, plus whatever the writer
      holding that shard has applied and not yet staged. */
  ghost function Expected<A, V>(cfg: Config<A, V>, w: World<A, V>, ref: Ref): State<A, V> {
    var cur := At(cfg, w.log);
    if ref in w.prop && w.prop[ref].ByWriter? && w.prop[ref].id in w.writers then
      match Fold(cfg.sem, cur, w.writers[w.prop[ref].id].pending)
      case Some(st) => st
      case None => cur
    else cur
  }

  ghost predicate LogInv<A(!new), V(!new)>(cfg: Config<A, V>, w: World<A, V>) {
    && Fold(cfg.sem, cfg.origin, w.log).Some?
    && Sized(w.log)
    && |w.owner| == |w.log|
    && w.durable <= |w.log|
    && InRange(cfg, w.state)
    && (forall i | 0 <= i < |w.log| :: RecIn(cfg, w.log[i]))
    && forall i {:trigger Owned(cfg, w, i)} | w.durable <= i < |w.log| :: Owned(cfg, w, i)
  }

  /** A staged record that is not flushed yet belongs to a writer that waits for
      it with its locks held. */
  ghost predicate Owned<A(!new), V(!new)>(cfg: Config<A, V>, w: World<A, V>, i: nat)
    requires i < |w.log| && i < |w.owner|
  {
    && w.owner[i] in w.writers
    && w.writers[w.owner[i]].waiting == Some(i + 1)
    && (w.log[i].d.locality == CrossShard ==> w.writers[w.owner[i]].cross)
    && (w.log[i].d.locality == ShardLocal ==> Within(cfg.sem, w.log[i], Holds(w.prop, w.owner[i])))
  }

  /** What holds of one writer. */
  ghost predicate WriterInv<A(!new), V(!new)>(cfg: Config<A, V>, w: World<A, V>, id: nat)
    requires id in w.writers
  {
    var wr := w.writers[id];
    && (forall ref | ref in wr.needs :: ref in cfg.refs)
    && (wr.guarded ==> !w.open)
    && (wr.cross ==> (wr.guarded || cfg.exec) && forall ref | ref in cfg.refs :: ref in wr.needs)
    && (wr.pending != [] || wr.waiting.Some? ==> forall ref | ref in wr.needs :: Holds(w.prop, id)(ref))
    && (wr.leaving ==> wr.pending == [] && wr.waiting.None?)
    && Fold(cfg.sem, At(cfg, w.log), wr.pending).Some?
    && (forall i | 0 <= i < |wr.pending| ::
          && wr.pending[i].size > 0
          && RecIn(cfg, wr.pending[i])
          && (wr.pending[i].d.locality == CrossShard ==> wr.cross)
          && (wr.pending[i].d.locality == ShardLocal ==> Within(cfg.sem, wr.pending[i], Holds(w.prop, id))))
  }

  ghost predicate LockInv<A(!new), V(!new)>(cfg: Config<A, V>, w: World<A, V>) {
    && (forall id {:trigger WriterInv(cfg, w, id)} | id in w.writers :: WriterInv(cfg, w, id))
    && (forall ref | ref in w.prop && w.prop[ref].ByWriter? ::
          w.prop[ref].id in w.writers && ref in w.writers[w.prop[ref].id].needs)
    && (w.open && (w.phase.PropTaken? || w.phase.Anchored?) ==>
          && |w.shots| < |cfg.refs|
          && cfg.refs[|w.shots|] in w.prop
          && w.prop[cfg.refs[|w.shots|]] == BySnapshotter)
  }

  ghost predicate StateInv<A(!new), V(!new)>(cfg: Config<A, V>, w: World<A, V>) {
    forall ref {:trigger Expected(cfg, w, ref)} | ref in cfg.refs :: AgreeOn(cfg.sem, w.state, Expected(cfg, w, ref), ref)
  }

  /** A shot is exact: it is the shard after precisely the records its anchor
      covers. */
  ghost predicate Exact<A(!new), V(!new)>(cfg: Config<A, V>, log: seq<Rec<A>>, shot: Shot<A, V>, ref: Ref) {
    && shot.index <= |log|
    && shot.anchor == Off(log, shot.index)
    && AgreeOn(cfg.sem, shot.contents, At(cfg, log[..shot.index]), ref)
    && forall slot | slot in shot.contents :: RefOf(cfg.sem, slot) == ref
  }

  ghost predicate ShotsInv<A(!new), V(!new)>(cfg: Config<A, V>, log: seq<Rec<A>>, shots: seq<Shot<A, V>>) {
    && |shots| <= |cfg.refs|
    && (forall i {:trigger Exact(cfg, log, shots[i], cfg.refs[i])} | 0 <= i < |shots| :: Exact(cfg, log, shots[i], cfg.refs[i]))
    && (forall i, j | 0 <= i < j < |shots| :: shots[i].index <= shots[j].index)
  }

  /** No cross-shard record among log[lo..hi]. */
  ghost predicate NoCross<A>(log: seq<Rec<A>>, lo: nat, hi: nat) {
    forall i | lo <= i < hi && i < |log| :: log[i].d.locality == ShardLocal
  }

  /** The shards serialized so far in an open window. */
  ghost predicate TakenInv<A(!new), V(!new)>(cfg: Config<A, V>, w: World<A, V>) {
    && ShotsInv(cfg, w.log, w.shots)
    && forall i | 0 <= i < |w.shots| ::
         w.shots[i].index <= w.durable && (cfg.exec || NoCross(w.log, w.shots[i].index, |w.log|))
  }

  /** The shard being serialized has not moved since its anchor was read. */
  ghost predicate PhaseInv<A(!new), V(!new)>(cfg: Config<A, V>, w: World<A, V>) {
    w.phase.Anchored? || w.phase.Walking? ==>
      && |w.shots| < |cfg.refs|
      && w.phase.index <= w.durable <= |w.log|
      && w.phase.anchor == Off(w.log, w.phase.index)
      && (forall i | 0 <= i < |w.shots| :: w.shots[i].index <= w.phase.index)
      && (cfg.exec || NoCross(w.log, w.phase.index, |w.log|))
      && AgreeOn(cfg.sem, w.state, At(cfg, w.log[..w.phase.index]), cfg.refs[|w.shots|])
  }

  ghost predicate WindowInv<A(!new), V(!new)>(cfg: Config<A, V>, w: World<A, V>) {
    && (w.open ==> TakenInv(cfg, w) && PhaseInv(cfg, w))
    && (w.done.Some? ==> Serialized(cfg, w.log, w.done.value) && (cfg.exec || Undisturbed(w.log, w.done.value)))
  }

  /** Every shard has been serialized, each exactly at its anchor. */
  ghost predicate Serialized<A(!new), V(!new)>(cfg: Config<A, V>, log: seq<Rec<A>>, shots: seq<Shot<A, V>>) {
    |shots| == |cfg.refs| && ShotsInv(cfg, log, shots)
  }

  /** No cross-shard record between the first anchor and the last. */
  ghost predicate Undisturbed<A, V>(log: seq<Rec<A>>, shots: seq<Shot<A, V>>) {
    shots != [] ==> NoCross(log, shots[0].index, shots[|shots| - 1].index)
  }

  ghost predicate Committed<A(!new), V(!new)>(cfg: Config<A, V>, log: seq<Rec<A>>, shots: seq<Shot<A, V>>) {
    Serialized(cfg, log, shots) && Undisturbed(log, shots)
  }

  ghost predicate Inv<A(!new), V(!new)>(cfg: Config<A, V>, w: World<A, V>) {
    LogInv(cfg, w) && LockInv(cfg, w) && StateInv(cfg, w) && WindowInv(cfg, w)
  }
}
