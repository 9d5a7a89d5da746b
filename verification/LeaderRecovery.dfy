/** The effect theorem and the snapshot theorem together: the handlers of `Commands`, run
    in loading mode, are one of the command sets the snapshot protocol is proved for, so
    what recovery rebuilds from a leader's snapshot and log is the leader. */
module LeaderRecovery {
  import opened Options
  import R = Records
  import P = SnapshotProtocol
  import SP = SnapshotProof
  import V = Recovery
  import S = CrashSafety
  import C = Commands
  import E = Effects

  /** An argument of a logged record, after parsing: the command with its options, a key
      in the place the key specification says, or a value paired with a key. */
  datatype Arg = Word(cmd: C.Command) | Key(key: C.Bytes) | Val(val: C.Bytes)

  type Keyspace = R.State<Arg, C.Object>

  /** The same keyspace, under the protocol's slots. */
  function Lift(st: C.State): Keyspace {
    map s | s in st :: R.Slot(s.db, Key(s.key)) := st[s]
  }

  function Lower(st: Keyspace): C.State {
    map s | s in st && s.key.Key? :: C.Slot(s.db, s.key.key) := st[s]
  }

  lemma LiftAt(st: C.State, db: nat, key: C.Bytes)
    ensures R.Get(Lift(st), R.Slot(db, Key(key))) == (if C.Slot(db, key) in st then Some(st[C.Slot(db, key)]) else None)
  {
    var slot: R.Slot<Arg> := R.Slot(db, Key(key));
    if C.Slot(db, key) in st {
      assert slot in Lift(st);
    }
  }

  lemma LowerLift(st: C.State)
    ensures Lower(Lift(st)) == st
  {
    forall s: C.Slot ensures s in Lower(Lift(st)) <==> s in st {
      if s in st {
        assert R.Slot(s.db, Key(s.key)) in Lift(st);
      }
    }
  }

  lemma LiftInjective(s: C.State, t: C.State)
    requires Lift(s) == Lift(t)
    ensures s == t
  {
    LowerLift(s);
    LowerLift(t);
  }

  lemma LiftPut(st: C.State, db: nat, key: C.Bytes, v: Option<C.Object>)
    ensures R.Put(Lift(st), R.Slot(db, Key(key)), v)
         == Lift(if v.Some? then st[C.Slot(db, key) := v.value] else st - {C.Slot(db, key)})
  {
    var slot, at: R.Slot<Arg> := C.Slot(db, key), R.Slot(db, Key(key));
    var st' := if v.Some? then st[slot := v.value] else st - {slot};
    forall x: R.Slot<Arg> ensures R.Get(R.Put(Lift(st), at, v), x) == R.Get(Lift(st'), x) {
      if x.key.Key? {
        LiftAt(st, x.db, x.key.key);
        LiftAt(st', x.db, x.key.key);
      }
    }
    SameState(R.Put(Lift(st), at, v), Lift(st'));
  }

  lemma SameState(s: Keyspace, t: Keyspace)
    requires forall x: R.Slot<Arg> :: R.Get(s, x) == R.Get(t, x)
    ensures s == t
  {
    forall x: R.Slot<Arg> ensures (x in s <==> x in t) && (x in s ==> s[x] == t[x]) {
      assert R.Get(s, x) == R.Get(t, x);
    }
  }

  // ------------------------------------------------------------------- logged records

  function KeyArgs(keys: seq<C.Bytes>): seq<R.Group<Arg>> {
    seq(|keys|, i requires 0 <= i < |keys| => R.Group(Key(keys[i]), []))
  }

  function PairArgs(pairs: seq<(C.Bytes, C.Bytes)>): seq<R.Group<Arg>> {
    seq(|pairs|, i requires 0 <= i < |pairs| => R.Group(Key(pairs[i].0), [Val(pairs[i].1)]))
  }

  predicate Cross(c: C.Command) {
    c.MSetNX? || c.LMove? || c.Rename? || c.Copy?
  }

  /** One effect as the record that is logged, `size` bytes long. */
  function RecOf(e: C.Effect, size: nat): R.Rec<Arg> {
    match e.cmd
    case Del(keys) =>
      R.Rec(e.db, R.Descriptor("del", 1, -1, 1, R.ShardLocal), [Word(C.Del([]))] + R.Flatten(KeyArgs(keys)), size)
    case MSet(pairs) =>
      R.Rec(e.db, R.Descriptor("mset", 1, -1, 2, R.ShardLocal), [Word(C.MSet([]))] + R.Flatten(PairArgs(pairs)), size)
    case MSetNX(pairs) => R.Rec(e.db, R.Descriptor("msetnx", 1, -1, 2, R.CrossShard), [Word(e.cmd)] + R.Flatten(PairArgs(pairs)), size)
    case LMove(src, dst, _, _) => R.Rec(e.db, R.Descriptor("lmove", 1, 2, 1, R.CrossShard), [Word(e.cmd), Key(src), Key(dst)], size)
    case Rename(src, dst, _) => R.Rec(e.db, R.Descriptor("rename", 1, 2, 1, R.CrossShard), [Word(e.cmd), Key(src), Key(dst)], size)
    case Copy(src, dst, _, _) => R.Rec(e.db, R.Descriptor("copy", 1, 2, 1, R.CrossShard), [Word(e.cmd), Key(src), Key(dst)], size)
    case _ => R.Rec(e.db, R.Descriptor("one", 1, 1, 1, R.ShardLocal), [Word(e.cmd), Key(e.cmd.key)], size)
  }

  function RecsOf(effects: seq<C.Effect>, size: C.Effect -> nat): seq<R.Rec<Arg>> {
    seq(|effects|, i requires 0 <= i < |effects| => RecOf(effects[i], size(effects[i])))
  }

  // --------------------------------------------------------------------- the handlers

  /** One key's old value as a keyspace of its own. */
  function Alone(key: C.Bytes, old_: Option<C.Object>): C.State {
    if old_.Some? then map[C.Slot(0, key) := old_.value] else map[]
  }

  function Value(st: C.State, slot: C.Slot): Option<C.Object> {
    if slot in st then Some(st[slot]) else None
  }

  /** A command on one key, in loading mode. */
  function UpdateOne(h: C.Host, now: int, c: C.Command, key: C.Bytes, old_: Option<C.Object>): Option<Option<C.Object>> {
    var o := C.Exec(h, C.Env(now, true), Alone(key, old_), 0, c);
    if o.ok then Some(Value(o.state, C.Slot(0, key))) else None
  }

  function Update(h: C.Host, now: int, args: seq<Arg>, old_: Option<C.Object>): Option<Option<C.Object>> {
    if |args| < 2 || !args[0].Word? || !args[1].Key? then None
    else if args[0].cmd.Del? then Some(None)
    else if args[0].cmd.MSet? then
      if |args| == 3 && args[2].Val? then Some(Some(C.Object(C.Str(args[2].val), 0))) else None
    else UpdateOne(h, now, args[0].cmd, args[1].key, old_)
  }

  /** Databases are numbered below `dbs`. */
  predicate InDbs(st: C.State, dbs: nat) {
    forall s | s in st :: s.db < dbs
  }

  function RunCross(h: C.Host, now: int, dbs: nat, r: R.Rec<Arg>, st: Keyspace): Option<Keyspace> {
    if r.args == [] || !r.args[0].Word? then None
    else
      var o := C.Exec(h, C.Env(now, true), Lower(st), r.db, r.args[0].cmd);
      if o.ok && InDbs(o.state, dbs) then Some(Lift(o.state)) else None
  }

  /** The handlers, with the keys spread by `hash`; the clock stands wherever it is when
      the log is replayed. */
  function Handlers(h: C.Host, now: int, dbs: nat, hash: C.Bytes -> nat): R.Semantics<Arg, C.Object> {
    R.Semantics(
      (a: Arg) => if a.Key? then hash(a.key) else 0,
      (d: R.Descriptor, args: seq<Arg>, old_: Option<C.Object>) => Update(h, now, args, old_),
      (r: R.Rec<Arg>, st: Keyspace) => RunCross(h, now, dbs, r, st))
  }

  /** Every shard of every database. */
  ghost predicate Shards(refs: seq<R.Ref>, dbs: nat, shards: nat, hash: C.Bytes -> nat) {
    && refs != [] && (forall i, j | 0 <= i < j < |refs| :: refs[i] != refs[j])
    && (forall ref :: ref in refs <==> ref.db < dbs && ref.shard < shards)
    && (forall key :: hash(key) < shards)
  }

  function Setup(h: C.Host, now: int, dbs: nat, hash: C.Bytes -> nat, refs: seq<R.Ref>): P.Config<Arg, C.Object> {
    P.Config(Handlers(h, now, dbs, hash), map[], refs, false)
  }

  lemma SetupValid(h: C.Host, now: int, dbs: nat, shards: nat, hash: C.Bytes -> nat, refs: seq<R.Ref>)
    requires Shards(refs, dbs, shards, hash)
    ensures P.ValidConfig(Setup(h, now, dbs, hash, refs))
  {
    var cfg := Setup(h, now, dbs, hash, refs);
    forall r: R.Rec<Arg>, st: Keyspace | P.InRange(cfg, st) && cfg.sem.whole(r, st).Some?
      ensures P.InRange(cfg, cfg.sem.whole(r, st).value)
    {
      var o := C.Exec(h, C.Env(now, true), Lower(st), r.db, r.args[0].cmd);
      forall slot | slot in Lift(o.state) ensures R.RefOf(cfg.sem, slot) in refs {
        assert C.Slot(slot.db, slot.key.key) in o.state;
      }
    }
  }

  // -------------------------------------------------- a record does what its effect does

  /** A command on one key reads and writes that key only. */
  ghost predicate Touches(h: C.Host, now: int, st: C.State, db: nat, c: C.Command)
    requires !Cross(c) && !c.Del? && !c.MSet?
  {
    var slot := C.Slot(db, c.key);
    var o := C.Exec(h, C.Env(now, true), st, db, c);
    var u := UpdateOne(h, now, c, c.key, Value(st, slot));
    && o.ok == u.Some?
    && (o.ok ==> o.state == if u.value.Some? then st[slot := u.value.value] else st - {slot})
  }

  /** It does if it gives the key the same value whether other keys are there or not, and
      leaves those. */
  lemma TouchesIf(h: C.Host, now: int, st: C.State, db: nat, c: C.Command)
    requires !Cross(c) && !c.Del? && !c.MSet?
    requires var slot, one := C.Slot(db, c.key), Alone(c.key, Value(st, C.Slot(db, c.key)));
             var o, p := C.Exec(h, C.Env(now, true), st, db, c), C.Exec(h, C.Env(now, true), one, 0, c);
             o.ok == p.ok && (o.ok ==> Value(o.state, slot) == Value(p.state, C.Slot(0, c.key)) && o.state - {slot} == st - {slot})
    ensures Touches(h, now, st, db, c)
  {
    var slot, o := C.Slot(db, c.key), C.Exec(h, C.Env(now, true), st, db, c);
    if o.ok {
      assert o.state == if slot in o.state then (st - {slot})[slot := o.state[slot]] else st - {slot};
      assert slot in o.state ==> (st - {slot})[slot := o.state[slot]] == st[slot := o.state[slot]];
    }
  }

  lemma OneString(h: C.Host, now: int, st: C.State, db: nat, c: C.Command)
    requires c.Set? || c.IncrBy? || c.IncrByFloat? || c.Append?
    ensures Touches(h, now, st, db, c)
  {
    E.LoadingLookup(now, st, C.Slot(db, c.key));
    E.LoadingLookup(now, Alone(c.key, Value(st, C.Slot(db, c.key))), C.Slot(0, c.key));
    TouchesIf(h, now, st, db, c);
  }

  lemma OneList(h: C.Host, now: int, st: C.State, db: nat, c: C.Command)
    requires c.Push? || c.Pop?
    ensures Touches(h, now, st, db, c)
  {
    E.LoadingLookup(now, st, C.Slot(db, c.key));
    E.LoadingLookup(now, Alone(c.key, Value(st, C.Slot(db, c.key))), C.Slot(0, c.key));
    TouchesIf(h, now, st, db, c);
  }

  lemma OneDeadline(h: C.Host, now: int, st: C.State, db: nat, c: C.Command)
    requires c.GetDel? || c.GetEx? || c.Expire? || c.Persist?
    ensures Touches(h, now, st, db, c)
  {
    E.LoadingLookup(now, st, C.Slot(db, c.key));
    E.LoadingLookup(now, Alone(c.key, Value(st, C.Slot(db, c.key))), C.Slot(0, c.key));
    TouchesIf(h, now, st, db, c);
  }

  lemma OneKey(h: C.Host, now: int, st: C.State, db: nat, c: C.Command)
    requires !Cross(c) && !c.Del? && !c.MSet?
    ensures Touches(h, now, st, db, c)
  {
    if c.Push? || c.Pop? {
      OneList(h, now, st, db, c);
    } else if c.GetDel? || c.GetEx? || c.Expire? || c.Persist? {
      OneDeadline(h, now, st, db, c);
    } else {
      OneString(h, now, st, db, c);
    }
  }

  lemma DelGroup(h: C.Host, now: int, dbs: nat, hash: C.Bytes -> nat, d: R.Descriptor, db: nat, key: C.Bytes, st: C.State)
    ensures R.ApplyGroup(Handlers(h, now, dbs, hash), d, db, [Word(C.Del([]))] + R.Group(Key(key), []).Args(), Key(key), Lift(st))
         == Some(Lift(st - {C.Slot(db, key)}))
  {
    LiftPut(st, db, key, None);
  }

  lemma {:induction false} DelGroups(h: C.Host, now: int, dbs: nat, hash: C.Bytes -> nat, d: R.Descriptor, db: nat,
                                     keys: seq<C.Bytes>, st: C.State)
    ensures R.ApplyGroups(Handlers(h, now, dbs, hash), d, db, Word(C.Del([])), KeyArgs(keys), Lift(st))
         == Some(Lift(E.Without(st, db, keys)))
    decreases |keys|
  {
    if keys == [] {
      assert E.Without(st, db, keys) == st;
    } else {
      var slot := C.Slot(db, keys[0]);
      DelGroup(h, now, dbs, hash, d, db, keys[0], st);
      DelGroups(h, now, dbs, hash, d, db, keys[1..], st - {slot});
      assert E.Without(st - {slot}, db, keys[1..]) == E.Without(st, db, keys);
      assert KeyArgs(keys)[0] == R.Group(Key(keys[0]), []) && KeyArgs(keys)[1..] == KeyArgs(keys[1..]);
    }
  }

  lemma MSetGroup(h: C.Host, now: int, dbs: nat, hash: C.Bytes -> nat, d: R.Descriptor, db: nat, key: C.Bytes, val: C.Bytes, st: C.State)
    ensures R.ApplyGroup(Handlers(h, now, dbs, hash), d, db, [Word(C.MSet([]))] + R.Group(Key(key), [Val(val)]).Args(), Key(key), Lift(st))
         == Some(Lift(st[C.Slot(db, key) := C.Object(C.Str(val), 0)]))
  {
    LiftPut(st, db, key, Some(C.Object(C.Str(val), 0)));
  }

  lemma {:induction false} MSetGroups(h: C.Host, now: int, dbs: nat, hash: C.Bytes -> nat, d: R.Descriptor, db: nat,
                                      pairs: seq<(C.Bytes, C.Bytes)>, st: C.State)
    ensures R.ApplyGroups(Handlers(h, now, dbs, hash), d, db, Word(C.MSet([])), PairArgs(pairs), Lift(st))
         == Some(Lift(C.StoreAll(st, db, pairs)))
    decreases |pairs|
  {
    if pairs != [] {
      var (key, val) := pairs[0];
      MSetGroup(h, now, dbs, hash, d, db, key, val, st);
      MSetGroups(h, now, dbs, hash, d, db, pairs[1..], st[C.Slot(db, key) := C.Object(C.Str(val), 0)]);
      assert PairArgs(pairs)[0] == R.Group(Key(key), [Val(val)]) && PairArgs(pairs)[1..] == PairArgs(pairs[1..]);
    }
  }

  /** What replaying one effect gives. */
  function Replayed(h: C.Host, now: int, st: C.State, e: C.Effect): Option<C.State> {
    var o := C.Exec(h, C.Env(now, true), st, e.db, e.cmd);
    if o.ok then Some(o.state) else None
  }

  lemma DelRuns(h: C.Host, now: int, dbs: nat, hash: C.Bytes -> nat, e: C.Effect, size: nat, st: C.State)
    requires e.cmd.Del? && R.Run(Handlers(h, now, dbs, hash), RecOf(e, size), Lift(st)).Some?
    ensures Replayed(h, now, st, e).Some?
    ensures R.Run(Handlers(h, now, dbs, hash), RecOf(e, size), Lift(st)) == Some(Lift(Replayed(h, now, st, e).value))
  {
    var r, gs := RecOf(e, size), KeyArgs(e.cmd.keys);
    assert r.args[1..] == R.Flatten(gs);
    R.ChopFlatten(gs, 1);
    DelGroups(h, now, dbs, hash, r.d, e.db, e.cmd.keys, st);
    E.DelAllState(C.Env(now, true), st, e.db, e.cmd.keys);
  }

  lemma MSetRuns(h: C.Host, now: int, dbs: nat, hash: C.Bytes -> nat, e: C.Effect, size: nat, st: C.State)
    requires e.cmd.MSet? && R.Run(Handlers(h, now, dbs, hash), RecOf(e, size), Lift(st)).Some?
    ensures Replayed(h, now, st, e).Some?
    ensures R.Run(Handlers(h, now, dbs, hash), RecOf(e, size), Lift(st)) == Some(Lift(Replayed(h, now, st, e).value))
  {
    var r, gs := RecOf(e, size), PairArgs(e.cmd.pairs);
    assert r.args[1..] == R.Flatten(gs);
    R.ChopFlatten(gs, 2);
    MSetGroups(h, now, dbs, hash, r.d, e.db, e.cmd.pairs, st);
  }

  lemma OneRuns(h: C.Host, now: int, dbs: nat, hash: C.Bytes -> nat, e: C.Effect, size: nat, st: C.State)
    requires !Cross(e.cmd) && !e.cmd.Del? && !e.cmd.MSet?
    requires R.Run(Handlers(h, now, dbs, hash), RecOf(e, size), Lift(st)).Some?
    ensures Replayed(h, now, st, e).Some?
    ensures R.Run(Handlers(h, now, dbs, hash), RecOf(e, size), Lift(st)) == Some(Lift(Replayed(h, now, st, e).value))
  {
    var r, key, slot := RecOf(e, size), e.cmd.key, C.Slot(e.db, e.cmd.key);
    assert r.args == [Word(e.cmd), Key(key)] && !R.GroupShaped(r.d);
    assert R.KeysFrom(r.args, 1, 1, 1) == [Key(key)] + R.KeysFrom(r.args, 2, 1, 1);
    LiftAt(st, e.db, key);
    OneKey(h, now, st, e.db, e.cmd);
    var u := UpdateOne(h, now, e.cmd, key, Value(st, slot));
    LiftPut(st, e.db, key, if u.Some? then u.value else None);
  }

  lemma CrossRec(e: C.Effect, size: nat)
    requires Cross(e.cmd)
    ensures var r := RecOf(e, size); r.d.locality == R.CrossShard && r.db == e.db && r.args != [] && r.args[0] == Word(e.cmd)
  {
  }

  lemma CrossRun(h: C.Host, now: int, dbs: nat, r: R.Rec<Arg>, st: C.State, o: C.Outcome)
    requires r.args != [] && r.args[0].Word? && o == C.Exec(h, C.Env(now, true), st, r.db, r.args[0].cmd)
    requires RunCross(h, now, dbs, r, Lift(st)).Some?
    ensures o.ok && RunCross(h, now, dbs, r, Lift(st)) == Some(Lift(o.state))
  {
    LowerLift(st);
  }

  lemma CrossRuns(h: C.Host, now: int, dbs: nat, hash: C.Bytes -> nat, e: C.Effect, size: nat, st: C.State)
    requires Cross(e.cmd) && R.Run(Handlers(h, now, dbs, hash), RecOf(e, size), Lift(st)).Some?
    ensures Replayed(h, now, st, e).Some?
    ensures R.Run(Handlers(h, now, dbs, hash), RecOf(e, size), Lift(st)) == Some(Lift(Replayed(h, now, st, e).value))
  {
    CrossRec(e, size);
    CrossRun(h, now, dbs, RecOf(e, size), st, C.Exec(h, C.Env(now, true), st, e.db, e.cmd));
  }

  /** A record that runs does to the keyspace what its effect does in loading mode. */
  lemma RunIs(h: C.Host, now: int, dbs: nat, hash: C.Bytes -> nat, e: C.Effect, size: nat, st: C.State)
    requires R.Run(Handlers(h, now, dbs, hash), RecOf(e, size), Lift(st)).Some?
    ensures Replayed(h, now, st, e).Some?
    ensures R.Run(Handlers(h, now, dbs, hash), RecOf(e, size), Lift(st)) == Some(Lift(Replayed(h, now, st, e).value))
  {
    if Cross(e.cmd) {
      CrossRuns(h, now, dbs, hash, e, size, st);
    } else if e.cmd.Del? {
      DelRuns(h, now, dbs, hash, e, size, st);
    } else if e.cmd.MSet? {
      MSetRuns(h, now, dbs, hash, e, size, st);
    } else {
      OneRuns(h, now, dbs, hash, e, size, st);
    }
  }

  /** So folding the records of a log that folds is replaying its effects. */
  lemma {:induction false} FoldIsReplay(h: C.Host, now: int, dbs: nat, hash: C.Bytes -> nat, effects: seq<C.Effect>,
                                        size: C.Effect -> nat, st: C.State, i: nat)
    requires R.Fold(Handlers(h, now, dbs, hash), Lift(st), RecsOf(effects, size)).Some?
    ensures C.Replay(h, st, effects, _ => now, i).Some?
    ensures R.Fold(Handlers(h, now, dbs, hash), Lift(st), RecsOf(effects, size))
         == Some(Lift(C.Replay(h, st, effects, _ => now, i).value))
    decreases |effects|
  {
    var sem, recs, clock := Handlers(h, now, dbs, hash), RecsOf(effects, size), (_: nat) => now;
    if effects != [] {
      SP.FoldCons(sem, Lift(st), recs);
      RunIs(h, now, dbs, hash, effects[0], size(effects[0]), st);
      assert recs[0] == RecOf(effects[0], size(effects[0]));
      var next := Replayed(h, now, st, effects[0]).value;
      assert recs[1..] == RecsOf(effects[1..], size);
      FoldIsReplay(h, now, dbs, hash, effects[1..], size, next, i + 1);
      assert C.ReplayOne(h, clock)(i, st, effects[0]) == Some(next);
    }
  }

  // ----------------------------------------------------------------------- the leader

  /** A leader whose log is that of a run of the protocol: the snapshot and the log give
      back exactly its values and absolute deadlines, wherever the clock stands then. */
  lemma LeaderRecovers(h: C.Host, now: int, dbs: nat, shards: nat, hash: C.Bytes -> nat, refs: seq<R.Ref>,
                       events: seq<E.Event>, size: C.Effect -> nat,
                       run: seq<P.World<Arg, C.Object>>, steps: seq<P.Step<Arg>>)
    requires Shards(refs, dbs, shards, hash) && E.Runnable(events)
    requires P.Reachable(Setup(h, now, dbs, hash, refs), run, steps)
    requires run[|steps|].log == RecsOf(E.Leader(h, map[], events).1, size) && run[|steps|].done.Some?
    ensures var shots := run[|steps|].done.value;
            && shots != [] && |shots| == |refs|
            && V.Restored(Setup(h, now, dbs, hash, refs), shots, run[|steps|].log) == Some(Lift(E.Leader(h, map[], events).0))
  {
    SetupValid(h, now, dbs, shards, hash, refs);
    V.RestoresLog(Setup(h, now, dbs, hash, refs), run, steps, |steps|);
    LogIsLeader(h, now, dbs, hash, events, size);
  }

  /** The log of a leader, if it can be replayed at all, stands for the leader's state. */
  lemma LogIsLeader(h: C.Host, now: int, dbs: nat, hash: C.Bytes -> nat, events: seq<E.Event>, size: C.Effect -> nat)
    requires E.Runnable(events)
    requires R.Fold(Handlers(h, now, dbs, hash), map[], RecsOf(E.Leader(h, map[], events).1, size)).Some?
    ensures R.Fold(Handlers(h, now, dbs, hash), map[], RecsOf(E.Leader(h, map[], events).1, size))
         == Some(Lift(E.Leader(h, map[], events).0))
  {
    var nothing: C.State := map[];
    assert Lift(nothing) == map[];
    FoldIsReplay(h, now, dbs, hash, E.Leader(h, map[], events).1, size, nothing, 0);
    E.RunReplays(h, nothing, events, _ => now, 0);
  }

  /** And after a crash at any point of the protocol, with the leader's whole log in the
      files, recovery from the disk gives the leader. */
  lemma LeaderSurvives(h: C.Host, now: int, dbs: nat, shards: nat, hash: C.Bytes -> nat, refs: seq<R.Ref>,
                       events: seq<E.Event>, size: C.Effect -> nat, n: nat, s: S.System<Arg, C.Object>)
    requires Shards(refs, dbs, shards, hash) && E.Runnable(events)
    requires S.Reaches(Setup(h, now, dbs, hash, refs), n, s)
    requires s.written <= |s.w.log| && s.w.log[..s.written] == RecsOf(E.Leader(h, map[], events).1, size)
    ensures S.Loadable(Setup(h, now, dbs, hash, refs), s.disk)
    ensures S.Recovered(Setup(h, now, dbs, hash, refs), S.PolicyTruncate, s.disk) == Some(Lift(E.Leader(h, map[], events).0))
  {
    SetupValid(h, now, dbs, shards, hash, refs);
    S.CrashAnywhere(Setup(h, now, dbs, hash, refs), S.PolicyTruncate, n, s);
    LogIsLeader(h, now, dbs, hash, events, size);
  }
}
