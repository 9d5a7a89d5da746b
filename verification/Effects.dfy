/** Replaying what the leader logged rebuilds what the leader holds. */
module Effects {
  import opened Options
  import opened Commands

  lemma {:induction false} RunsConcat<S, E>(step: (nat, S, E) -> Option<S>, st: S, a: seq<E>, b: seq<E>, i: nat)
    ensures Runs(step, st, a + b, i)
         == match Runs(step, st, a, i)
            case None => None
            case Some(mid) => Runs(step, mid, b, i + |a|)
    decreases |a|
  {
    if a == [] {
      assert a + b == b;
    } else {
      assert (a + b)[1..] == a[1..] + b;
      var next := step(i, st, a[0]);
      if next.Some? {
        RunsConcat(step, next.value, a[1..], b, i + 1);
      }
    }
  }

  lemma ReplayConcat(h: Host, st: State, a: seq<Effect>, b: seq<Effect>, clock: nat -> int, i: nat)
    ensures Replay(h, st, a + b, clock, i)
         == match Replay(h, st, a, clock, i)
            case None => None
            case Some(mid) => Replay(h, mid, b, clock, i + |a|)
  {
    RunsConcat(ReplayOne(h, clock), st, a, b, i);
  }

  lemma ReplaySingle(h: Host, st: State, e: Effect, clock: nat -> int, i: nat)
    ensures var o := Exec(h, Env(clock(i), true), st, e.db, e.cmd);
            Replay(h, st, [e], clock, i) == if o.ok then Some(o.state) else None
  {
    var step := ReplayOne(h, clock);
    assert [e][1..] == [];
    assert step(i, st, e).Some? ==> Runs(step, step(i, st, e).value, [], i + 1) == step(i, st, e);
  }

  /** While a log is loading nothing expires: a lookup finds what is stored. */
  lemma LoadingLookup(now: int, st: State, slot: Slot)
    ensures Lookup(Env(now, true), st, slot)
         == Found(st, if slot in st then Some(st[slot]) else None, [])
  {
  }

  /** One DEL of one key, replayed. */
  lemma ReplayDel(h: Host, now: int, st: State, slot: Slot)
    ensures Exec(h, Env(now, true), st, slot.db, Del([slot.key])).ok
    ensures Exec(h, Env(now, true), st, slot.db, Del([slot.key])).state == st - {slot}
  {
    var st' := st - {slot};
    assert [slot.key][1..] == [];
    assert DelAll(Env(now, true), st', slot.db, []) == Deleted(st', 0, []);
  }

  /** What a lookup logs is exactly what it did. */
  lemma LookupReplays(h: Host, env: Env, st: State, slot: Slot, clock: nat -> int, i: nat)
    ensures Replay(h, st, Lookup(env, st, slot).effects, clock, i) == Some(Lookup(env, st, slot).state)
  {
    var f := Lookup(env, st, slot);
    if f.effects != [] {
      ReplayDel(h, clock(i), st, slot);
      ReplaySingle(h, st, f.effects[0], clock, i);
      assert f.effects == [f.effects[0]];
    }
  }

  /** Reaps first, then one effect. */
  lemma ThenReplays(h: Host, st: State, f: Found, e: Effect, out: State, clock: nat -> int, i: nat)
    requires Replay(h, st, f.effects, clock, i) == Some(f.state)
    requires forall now :: Exec(h, Env(now, true), f.state, e.db, e.cmd).ok
                        && Exec(h, Env(now, true), f.state, e.db, e.cmd).state == out
    ensures Replay(h, st, f.effects + [e], clock, i) == Some(out)
  {
    ReplayConcat(h, st, f.effects, [e], clock, i);
    ReplaySingle(h, f.state, e, clock, i + |f.effects|);
  }

  ghost predicate Faithful(h: Host, st: State, o: Outcome, clock: nat -> int, i: nat) {
    Replay(h, st, o.effects, clock, i) == Some(o.state)
  }

  lemma SetReplays(h: Host, env: Env, st: State, db: nat, c: Command, clock: nat -> int, i: nat)
    requires c.Set?
    ensures Faithful(h, st, ExecSet(h, env, st, db, c), clock, i)
  {
    var o := ExecSet(h, env, st, db, c);
    var slot := Slot(db, c.key);
    var f := Lookup(env, st, slot);
    LookupReplays(h, env, st, slot, clock, i);
    var at := if c.exp.Some? then Absolute(c.exp.value, env.now) else Some(0);
    if o.effects != [] && o.effects != f.effects {
      var e := Effect(db, SetEffect(c.key, c.val, at.value, c.keepTTL));
      forall now ensures Exec(h, Env(now, true), f.state, db, e.cmd).ok
                      && Exec(h, Env(now, true), f.state, db, e.cmd).state == o.state
      {
        LoadingLookup(now, f.state, slot);
      }
      ThenReplays(h, st, f, e, o.state, clock, i);
    }
  }

  lemma GetDelReplays(h: Host, env: Env, st: State, db: nat, key: Bytes, clock: nat -> int, i: nat)
    ensures Faithful(h, st, ExecGetDel(env, st, db, key), clock, i)
  {
    var slot := Slot(db, key);
    var f := Lookup(env, st, slot);
    LookupReplays(h, env, st, slot, clock, i);
    if f.obj.Some? && !WrongType(f) {
      forall now ensures Exec(h, Env(now, true), f.state, db, Del([key])).ok
                      && Exec(h, Env(now, true), f.state, db, Del([key])).state == f.state - {slot}
      {
        ReplayDel(h, now, f.state, slot);
      }
      ThenReplays(h, st, f, Effect(db, Del([key])), f.state - {slot}, clock, i);
    }
  }

  lemma GetExReplays(h: Host, env: Env, st: State, db: nat, c: Command, clock: nat -> int, i: nat)
    requires c.GetEx?
    ensures Faithful(h, st, ExecGetEx(env, env.now, st, db, c), clock, i)
  {
    var o := ExecGetEx(env, env.now, st, db, c);
    var slot := Slot(db, c.key);
    var f := Lookup(env, st, slot);
    LookupReplays(h, env, st, slot, clock, i);
    if |o.effects| > |f.effects| {
      var e := o.effects[|o.effects| - 1];
      assert o.effects == f.effects + [e];
      forall now ensures Exec(h, Env(now, true), f.state, e.db, e.cmd).ok
                      && Exec(h, Env(now, true), f.state, e.db, e.cmd).state == o.state
      {
        LoadingLookup(now, f.state, slot);
        ReplayDel(h, now, f.state, slot);
      }
      ThenReplays(h, st, f, e, o.state, clock, i);
    }
  }

  lemma {:induction false} NoneExistReplays(h: Host, env: Env, st: State, db: nat, pairs: seq<(Bytes, Bytes)>,
                                            clock: nat -> int, i: nat)
    ensures Replay(h, st, NoneExist(env, st, db, pairs).effects, clock, i)
         == Some(NoneExist(env, st, db, pairs).state)
    decreases |pairs|
  {
    if pairs != [] {
      var f := Lookup(env, st, Slot(db, pairs[0].0));
      LookupReplays(h, env, st, Slot(db, pairs[0].0), clock, i);
      if f.obj.None? {
        var g := NoneExist(env, f.state, db, pairs[1..]);
        NoneExistReplays(h, env, f.state, db, pairs[1..], clock, i + |f.effects|);
        ReplayConcat(h, st, f.effects, g.effects, clock, i);
      }
    }
  }

  lemma MSetNXReplays(h: Host, env: Env, st: State, db: nat, pairs: seq<(Bytes, Bytes)>, clock: nat -> int, i: nat)
    ensures Faithful(h, st, ExecMSetNX(env, st, db, pairs), clock, i)
  {
    var f := NoneExist(env, st, db, pairs);
    NoneExistReplays(h, env, st, db, pairs, clock, i);
    if f.obj.None? {
      ThenReplays(h, st, f, Effect(db, MSet(pairs)), StoreAll(f.state, db, pairs), clock, i);
    }
  }

  /** INCRBY, APPEND, PUSH, POP and PERSIST are logged as they are: replayed on the
      state after the reap they do the same again. */
  lemma VerbatimReplays(h: Host, env: Env, st: State, db: nat, c: Command, clock: nat -> int, i: nat)
    requires c.IncrBy? || c.Append? || (c.Push? && Arity(c)) || c.Pop? || c.Persist?
    ensures Faithful(h, st, Exec(h, env, st, db, c), clock, i)
  {
    var o := Exec(h, env, st, db, c);
    var slot := Slot(db, c.key);
    var f := Lookup(env, st, slot);
    LookupReplays(h, env, st, slot, clock, i);
    if |o.effects| > |f.effects| {
      assert o.effects == f.effects + [Effect(db, c)];
      forall now ensures Exec(h, Env(now, true), f.state, db, c).ok
                      && Exec(h, Env(now, true), f.state, db, c).state == o.state
      {
        LoadingLookup(now, f.state, slot);
      }
      ThenReplays(h, st, f, Effect(db, c), o.state, clock, i);
    } else if c.Push? && !NotList(f) {
      PushedNonEmpty(if f.obj.Some? then f.obj.value.value.elems else [], c.vals, c.front);
    }
  }

  lemma {:induction false} PushedNonEmpty(l: seq<Bytes>, vals: seq<Bytes>, front: bool)
    requires l != [] || vals != []
    ensures Pushed(l, vals, front) != []
    decreases |vals|
  {
    if vals != [] {
      PushedNonEmpty(if front then [vals[0]] + l else l + [vals[0]], vals[1..], front);
    }
  }

  /** The number INCRBYFLOAT would store, if it gets that far: the key holds a string
      that parses, or nothing, and the sum is finite. */
  function FloatSum(h: Host, env: Env, st: State, db: nat, key: Bytes, amount: real): Option<real> {
    var o := Peek(env, st, Slot(db, key));
    if o.None? then h.addFloat(0.0, amount)
    else if !o.value.value.Str? then None
    else
      match h.parseFloat(o.value.value.bytes)
      case None => None
      case Some(cur) => h.addFloat(cur, amount)
  }

  predicate FloatFits(h: Host, env: Env, st: State, db: nat, key: Bytes, amount: real) {
    var sum := FloatSum(h, env, st, db, key, amount);
    sum.Some? ==> |h.renderFloat(sum.value)| <= h.maxLen
  }

  /** INCRBYFLOAT is logged as a SET of the result that keeps the TTL.  SET checks
      the length limit and INCRBYFLOAT does not, so the log replays exactly when
      the rendered result fits, and otherwise fails. */
  lemma IncrByFloatReplays(h: Host, env: Env, st: State, db: nat, key: Bytes, amount: real, clock: nat -> int, i: nat)
    ensures var o := ExecIncrByFloat(h, env, st, db, key, amount);
            Replay(h, st, o.effects, clock, i) == if FloatFits(h, env, st, db, key, amount) then Some(o.state) else None
  {
    var o := ExecIncrByFloat(h, env, st, db, key, amount);
    var slot := Slot(db, key);
    var f := Lookup(env, st, slot);
    var sum := FloatSum(h, env, st, db, key, amount);
    LookupReplays(h, env, st, slot, clock, i);
    assert o.ok == sum.Some?;
    if sum.Some? {
      var rendered := h.renderFloat(sum.value);
      var e := Effect(db, SetEffect(key, rendered, 0, true));
      assert o.effects == f.effects + [e];
      forall now ensures var x := Exec(h, Env(now, true), f.state, db, e.cmd);
                         x.ok == (|rendered| <= h.maxLen) && (x.ok ==> x.state == o.state)
      {
        LoadingLookup(now, f.state, slot);
      }
      if |rendered| <= h.maxLen {
        ThenReplays(h, st, f, e, o.state, clock, i);
      } else {
        ReplayConcat(h, st, f.effects, [e], clock, i);
        ReplaySingle(h, f.state, e, clock, i + |f.effects|);
      }
    }
  }

  /** Such an input: a limit of two bytes, and INCRBYFLOAT k 1.5 on an empty keyspace. */
  lemma FloatTooLong(clock: nat -> int)
    ensures var h := Host(2, _ => None, _ => [], _ => None, (x: real, y: real) => Some(x + y), _ => [49, 46, 53]);
            var o := ExecIncrByFloat(h, Env(0, false), map[], 0, [107], 1.5);
            o.ok && o.state == map[Slot(0, [107]) := Object(Str([49, 46, 53]), 0)] && Replay(h, map[], o.effects, clock, 0) == None
  {
    var h := Host(2, _ => None, _ => [], _ => None, (x: real, y: real) => Some(x + y), _ => [49, 46, 53]);
    IncrByFloatReplays(h, Env(0, false), map[], 0, [107], 1.5, clock, 0);
  }

  /** Two lookups in a row, as RENAMENX, COPY and LMOVE do. */
  lemma BothReplay(h: Host, env: Env, st: State, s: Slot, d: Slot, clock: nat -> int, i: nat)
    ensures var f := Lookup(env, st, s);
            var g := Lookup(env, f.state, d);
            Replay(h, st, f.effects + g.effects, clock, i) == Some(g.state)
  {
    var f := Lookup(env, st, s);
    var g := Lookup(env, f.state, d);
    LookupReplays(h, env, st, s, clock, i);
    LookupReplays(h, env, f.state, d, clock, i + |f.effects|);
    ReplayConcat(h, st, f.effects, g.effects, clock, i);
  }

  lemma LMoveReplays(h: Host, env: Env, st: State, db: nat, c: Command, clock: nat -> int, i: nat)
    requires c.LMove?
    ensures Faithful(h, st, ExecLMove(env, st, db, c), clock, i)
  {
    var o := ExecLMove(env, st, db, c);
    var s, d := Slot(db, c.src), Slot(db, c.dst);
    var f := Lookup(env, st, s);
    LookupReplays(h, env, st, s, clock, i);
    BothReplay(h, env, st, s, d, clock, i);
    if f.obj.Some? && !NotList(f) && f.obj.value.value.elems != [] {
      var g := if s == d then Found(f.state, None, []) else Lookup(env, f.state, d);
      var both := Found(g.state, g.obj, f.effects + g.effects);
      if s == d || !NotList(g) {
        assert f.effects + [] == f.effects;
        assert o.effects == both.effects + [Effect(db, c)];
        forall now ensures Exec(h, Env(now, true), both.state, db, c).ok
                        && Exec(h, Env(now, true), both.state, db, c).state == o.state
        {
          LoadingLookup(now, both.state, s);
          LoadingLookup(now, both.state, d);
        }
        ThenReplays(h, st, both, Effect(db, c), o.state, clock, i);
      }
    }
  }

  lemma RenameReplays(h: Host, env: Env, st: State, db: nat, c: Command, clock: nat -> int, i: nat)
    requires c.Rename?
    ensures Faithful(h, st, ExecRename(env, st, db, c), clock, i)
  {
    var o := ExecRename(env, st, db, c);
    var s, d := Slot(db, c.src), Slot(db, c.dst);
    var f := Lookup(env, st, s);
    LookupReplays(h, env, st, s, clock, i);
    BothReplay(h, env, st, s, d, clock, i);
    if f.obj.Some? {
      var g := if c.unless then Lookup(env, f.state, d) else Found(f.state, None, []);
      var both := Found(g.state, g.obj, f.effects + g.effects);
      assert f.effects + [] == f.effects;
      if !(c.unless && g.obj.Some?) {
        var e := Rename(c.src, c.dst, false);
        assert o.effects == both.effects + [Effect(db, e)];
        forall now ensures Exec(h, Env(now, true), both.state, db, e).ok
                        && Exec(h, Env(now, true), both.state, db, e).state == o.state
        {
          LoadingLookup(now, both.state, s);
        }
        ThenReplays(h, st, both, Effect(db, e), o.state, clock, i);
      }
    }
  }

  lemma CopyReplays(h: Host, env: Env, st: State, db: nat, c: Command, clock: nat -> int, i: nat)
    requires c.Copy?
    ensures Faithful(h, st, ExecCopy(env, st, db, c), clock, i)
  {
    var o := ExecCopy(env, st, db, c);
    var s, d := Slot(db, c.src), Slot(c.destDb, c.dst);
    var f := Lookup(env, st, s);
    LookupReplays(h, env, st, s, clock, i);
    BothReplay(h, env, st, s, d, clock, i);
    if s != d && f.obj.Some? {
      var g := if c.replace then Found(f.state, None, []) else Lookup(env, f.state, d);
      var both := Found(g.state, g.obj, f.effects + g.effects);
      assert f.effects + [] == f.effects;
      if c.replace || g.obj.None? {
        var e := c.(replace := true);
        assert o.effects == both.effects + [Effect(db, e)];
        forall now ensures Exec(h, Env(now, true), both.state, db, e).ok
                        && Exec(h, Env(now, true), both.state, db, e).state == o.state
        {
          LoadingLookup(now, both.state, s);
        }
        ThenReplays(h, st, both, Effect(db, e), o.state, clock, i);
      }
    }
  }

  lemma ExpireReplays(h: Host, env: Env, st: State, db: nat, c: Command, clock: nat -> int, i: nat)
    requires c.Expire?
    ensures Faithful(h, st, ExecExpire(env, st, db, c), clock, i)
  {
    var o := ExecExpire(env, st, db, c);
    var slot := Slot(db, c.key);
    var f := Lookup(env, st, slot);
    LookupReplays(h, env, st, slot, clock, i);
    if |o.effects| > |f.effects| {
      var e := o.effects[|o.effects| - 1];
      assert o.effects == f.effects + [e];
      forall now ensures Exec(h, Env(now, true), f.state, e.db, e.cmd).ok
                      && Exec(h, Env(now, true), f.state, e.db, e.cmd).state == o.state
      {
        LoadingLookup(now, f.state, slot);
        ReplayDel(h, now, f.state, slot);
      }
      ThenReplays(h, st, f, e, o.state, clock, i);
    }
  }

  function Without(st: State, db: nat, keys: seq<Bytes>): State {
    map slot | slot in st && !(slot.db == db && slot.key in keys) :: st[slot]
  }

  function DelOf(slot: Slot): Effect {
    Effect(slot.db, Del([slot.key]))
  }

  ghost predicate AllDels(effects: seq<Effect>, db: nat, keys: seq<Bytes>) {
    forall i | 0 <= i < |effects| :: exists k :: k in keys && effects[i] == DelOf(Slot(db, k))
  }

  /** Replaying single-key DELs removes exactly the keys they name. */
  lemma {:induction false} DelsReplay(h: Host, st: State, effects: seq<Effect>, db: nat, keys: seq<Bytes>, clock: nat -> int, i: nat)
    requires AllDels(effects, db, keys)
    ensures Replay(h, st, effects, clock, i)
         == Some(map slot | slot in st && DelOf(slot) !in effects :: st[slot])
    decreases |effects|
  {
    if effects == [] {
      assert (map slot | slot in st && DelOf(slot) !in effects :: st[slot]) == st;
    } else {
      assert exists k :: k in keys && effects[0] == DelOf(Slot(db, k));
      var k :| k in keys && effects[0] == DelOf(Slot(db, k));
      ReplayDel(h, clock(i), st, Slot(db, k));
      var st' := st - {Slot(db, k)};
      DelsReplay(h, st', effects[1..], db, keys, clock, i + 1);
      assert forall slot: Slot :: DelOf(slot) == effects[0] ==> slot == Slot(db, k) by {
        assert forall slot: Slot :: DelOf(slot).cmd.keys[0] == slot.key;
      }
      assert (map slot | slot in st' && DelOf(slot) !in effects[1..] :: st'[slot])
          == (map slot | slot in st && DelOf(slot) !in effects :: st[slot]);
    }
  }

  /** On the leader DEL removes the same keys, */
  lemma {:induction false} DelAllState(env: Env, st: State, db: nat, keys: seq<Bytes>)
    ensures DelAll(env, st, db, keys).state == Without(st, db, keys)
    decreases |keys|
  {
    if keys == [] {
      assert Without(st, db, keys) == st;
    } else {
      var slot := Slot(db, keys[0]);
      var f := Lookup(env, st, slot);
      DelAllState(env, f.state - {slot}, db, keys[1..]);
      assert Without(f.state - {slot}, db, keys[1..]) == Without(st, db, keys);
    }
  }

  /** having logged the expired ones one by one; */
  lemma {:induction false} DelAllLogs(env: Env, st: State, db: nat, keys: seq<Bytes>)
    ensures AllDels(DelAll(env, st, db, keys).effects, db, keys)
    decreases |keys|
  {
    if keys != [] {
      var slot := Slot(db, keys[0]);
      var f := Lookup(env, st, slot);
      var rest := DelAll(env, f.state - {slot}, db, keys[1..]);
      DelAllLogs(env, f.state - {slot}, db, keys[1..]);
      var all := f.effects + rest.effects;
      forall i | 0 <= i < |all| ensures exists k :: k in keys && all[i] == DelOf(Slot(db, k)) {
        if i < |f.effects| {
          assert keys[0] in keys && all[i] == DelOf(Slot(db, keys[0]));
        } else {
          assert all[i] == rest.effects[i - |f.effects|];
          var k :| k in keys[1..] && all[i] == DelOf(Slot(db, k));
          assert k in keys;
        }
      }
    }
  }

  /** when it counts none, it logged them all. */
  lemma {:induction false} DelAllNone(env: Env, st: State, db: nat, keys: seq<Bytes>, slot: Slot)
    requires DelAll(env, st, db, keys).count == 0 && slot in st && slot.db == db && slot.key in keys
    ensures DelOf(slot) in DelAll(env, st, db, keys).effects
    decreases |keys|
  {
    var first := Slot(db, keys[0]);
    var f := Lookup(env, st, first);
    if slot != first {
      DelAllNone(env, f.state - {first}, db, keys[1..], slot);
    }
  }

  lemma DelReplays(h: Host, env: Env, st: State, db: nat, keys: seq<Bytes>, clock: nat -> int, i: nat)
    ensures Faithful(h, st, ExecDel(env, st, db, keys), clock, i)
  {
    var d := DelAll(env, st, db, keys);
    DelAllState(env, st, db, keys);
    DelAllLogs(env, st, db, keys);
    DelsReplay(h, st, d.effects, db, keys, clock, i);
    var mid := Replay(h, st, d.effects, clock, i).value;
    forall slot: Slot | DelOf(slot) in d.effects ensures slot.db == db && slot.key in keys {
      var j :| 0 <= j < |d.effects| && d.effects[j] == DelOf(slot);
      var k :| k in keys && d.effects[j] == DelOf(Slot(db, k));
      assert DelOf(slot).cmd.keys[0] == DelOf(Slot(db, k)).cmd.keys[0];
    }
    assert Without(mid, db, keys) == Without(st, db, keys);
    if d.count == 0 {
      assert d.effects + [] == d.effects;
      forall slot | slot in st && slot.db == db && slot.key in keys ensures DelOf(slot) in d.effects {
        DelAllNone(env, st, db, keys, slot);
      }
      assert mid == Without(mid, db, keys);
    } else {
      forall now ensures Exec(h, Env(now, true), mid, db, Del(keys)).ok
                      && Exec(h, Env(now, true), mid, db, Del(keys)).state == d.state
      {
        DelAllState(Env(now, true), mid, db, keys);
      }
      ThenReplays(h, st, Found(mid, None, d.effects), Effect(db, Del(keys)), d.state, clock, i);
    }
  }

  // ------------------------------------------------------------------- every command

  /** What replay of a command's effects asks for: nothing, except that INCRBYFLOAT's
      result is within the limit. */
  predicate Fits(h: Host, env: Env, st: State, db: nat, c: Command) {
    c.IncrByFloat? ==> FloatFits(h, env, st, db, c.key, c.amount)
  }

  /** For every command, at any leader clock and any replay clocks, replaying what
      it logged onto the state before gives the state after, if its effect fits, and
      fails otherwise. */
  lemma ExecReplays(h: Host, env: Env, st: State, db: nat, c: Command, clock: nat -> int, i: nat)
    requires Arity(c)
    ensures var o := Exec(h, env, st, db, c);
            Replay(h, st, o.effects, clock, i) == if Fits(h, env, st, db, c) then Some(o.state) else None
  {
    match c
    case Set(_, _, _, _, _, _, _) => SetReplays(h, env, st, db, c, clock, i);
    case GetDel(key) => GetDelReplays(h, env, st, db, key, clock, i);
    case GetEx(_, _, _) => GetExReplays(h, env, st, db, c, clock, i);
    case MSet(pairs) =>
      var f := Found(st, None, []);
      ThenReplays(h, st, f, Effect(db, c), StoreAll(st, db, pairs), clock, i);
      assert f.effects + [Effect(db, c)] == [Effect(db, c)];
    case MSetNX(pairs) => MSetNXReplays(h, env, st, db, pairs, clock, i);
    case IncrByFloat(key, amount) => IncrByFloatReplays(h, env, st, db, key, amount, clock, i);
    case LMove(_, _, _, _) => LMoveReplays(h, env, st, db, c, clock, i);
    case Del(keys) => DelReplays(h, env, st, db, keys, clock, i);
    case Rename(_, _, _) => RenameReplays(h, env, st, db, c, clock, i);
    case Copy(_, _, _, _) => CopyReplays(h, env, st, db, c, clock, i);
    case Expire(_, _, _) => ExpireReplays(h, env, st, db, c, clock, i);
    case IncrBy(_, _) => VerbatimReplays(h, env, st, db, c, clock, i);
    case Append(_, _) => VerbatimReplays(h, env, st, db, c, clock, i);
    case Push(_, _, _, _) => VerbatimReplays(h, env, st, db, c, clock, i);
    case Pop(_, _, _) => VerbatimReplays(h, env, st, db, c, clock, i);
    case Persist(_) => VerbatimReplays(h, env, st, db, c, clock, i);
  }

  lemma {:induction false} ReapReplays(h: Host, env: Env, st: State, sample: seq<Slot>, clock: nat -> int, i: nat)
    ensures Replay(h, st, Reap(env, st, sample).1, clock, i) == Some(Reap(env, st, sample).0)
    decreases |sample|
  {
    if sample != [] {
      var f := Lookup(env, st, sample[0]);
      LookupReplays(h, env, st, sample[0], clock, i);
      ReapReplays(h, env, f.state, sample[1..], clock, i + |f.effects|);
      ReplayConcat(h, st, f.effects, Reap(env, f.state, sample[1..]).1, clock, i);
    }
  }

  // --------------------------------------------------------------------- whole runs

  /** What happens to a leader: a write at some clock reading, a pass of the active
      expiry cycle, an eviction, or a read. */
  datatype Event =
    | Write(now: int, db: nat, cmd: Command)
    | Sample(now: int, slots: seq<Slot>)
    | Eviction(slot: Slot)
    | Read(now: int, slot: Slot)

  function Happen(h: Host, st: State, e: Event): (State, seq<Effect>) {
    match e
    case Write(now, db, cmd) => var o := Exec(h, Env(now, false), st, db, cmd); (o.state, o.effects)
    case Sample(now, slots) => Reap(Env(now, false), st, slots)
    case Eviction(slot) => Evict(st, slot)
    case Read(now, slot) => (st, [])
  }

  function Leader(h: Host, st: State, events: seq<Event>): (State, seq<Effect>)
    decreases |events|
  {
    if events == [] then (st, [])
    else
      var (mid, effs) := Happen(h, st, events[0]);
      var (last, more) := Leader(h, mid, events[1..]);
      (last, effs + more)
  }

  ghost predicate Runnable(events: seq<Event>) {
    forall i | 0 <= i < |events| && events[i].Write? :: Arity(events[i].cmd)
  }

  predicate EventFits(h: Host, st: State, e: Event) {
    e.Write? ==> Fits(h, Env(e.now, false), st, e.db, e.cmd)
  }

  /** Every result in the run is within the limit when it is stored. */
  predicate AllFit(h: Host, st: State, events: seq<Event>)
    decreases |events|
  {
    events == [] || (EventFits(h, st, events[0]) && AllFit(h, Happen(h, st, events[0]).0, events[1..]))
  }

  lemma HappenReplays(h: Host, st: State, e: Event, clock: nat -> int, i: nat)
    requires e.Write? ==> Arity(e.cmd)
    ensures Replay(h, st, Happen(h, st, e).1, clock, i) == if EventFits(h, st, e) then Some(Happen(h, st, e).0) else None
  {
    match e
    case Write(now, db, cmd) => ExecReplays(h, Env(now, false), st, db, cmd, clock, i);
    case Sample(now, slots) => ReapReplays(h, Env(now, false), st, slots, clock, i);
    case Eviction(slot) =>
      if slot in st {
        ReplayDel(h, clock(i), st, slot);
        ReplaySingle(h, st, DelOf(slot), clock, i);
      }
    case Read(_, _) =>
  }

  lemma LeaderCons(h: Host, st: State, events: seq<Event>)
    requires events != []
    ensures var x := Happen(h, st, events[0]);
            var y := Leader(h, x.0, events[1..]);
            Leader(h, st, events) == (y.0, x.1 + y.1)
  {
  }

  /** Over any run of commands, expiry passes, evictions and reads, under any
      leader clock, replaying the whole log in loading mode at any replay clock
      rebuilds the leader's values and absolute expiries exactly; unless a rendered
      float was over the limit, which makes it fail. */
  lemma {:induction false} RunReplays(h: Host, st: State, events: seq<Event>, clock: nat -> int, i: nat)
    requires Runnable(events)
    ensures Replay(h, st, Leader(h, st, events).1, clock, i)
         == if AllFit(h, st, events) then Some(Leader(h, st, events).0) else None
    decreases |events|
  {
    if events != [] {
      var mid, effs := Happen(h, st, events[0]).0, Happen(h, st, events[0]).1;
      var last, more := Leader(h, mid, events[1..]).0, Leader(h, mid, events[1..]).1;
      HappenReplays(h, st, events[0], clock, i);
      RunReplays(h, mid, events[1..], clock, i + |effs|);
      LeaderCons(h, st, events);
      ReplayConcat(h, st, effs, more, clock, i);
    }
  }

  /** After recovery every read answers as the leader would at the same clock. */
  lemma RecoveredReads(h: Host, events: seq<Event>, clock: nat -> int, now: int, slot: Slot)
    requires Runnable(events) && AllFit(h, map[], events)
    ensures Replay(h, map[], Leader(h, map[], events).1, clock, 0).Some?
    ensures Peek(Env(now, false), Replay(h, map[], Leader(h, map[], events).1, clock, 0).value, slot)
         == Peek(Env(now, false), Leader(h, map[], events).0, slot)
  {
    RunReplays(h, map[], events, clock, 0);
  }

  // --------------------------------------------------------------- exact conditions

  /** GETEX reads the clock in the engine and again in the handler.  Its log is
      faithful exactly when no new expiry falls between the two readings. */
  lemma GetExTwoClocks(h: Host, env: Env, later: int, st: State, db: nat, c: Command, clock: nat -> int, i: nat)
    requires c.GetEx? && env.now <= later
    ensures var o := ExecGetEx(env, later, st, db, c);
            var slot := Slot(db, c.key);
            var at := if c.exp.Some? then Absolute(c.exp.value, env.now) else None;
            Faithful(h, st, o, clock, i)
            <==> !(&& !c.persist
                   && at.Some? && env.now < at.value <= later
                   && slot in st && !Expired(env, st[slot]) && st[slot].value.Str?)
  {
    var o := ExecGetEx(env, later, st, db, c);
    var slot := Slot(db, c.key);
    var f := Lookup(env, st, slot);
    LookupReplays(h, env, st, slot, clock, i);
    if |o.effects| > |f.effects| {
      var e := o.effects[|o.effects| - 1];
      assert o.effects == f.effects + [e];
      var once := ExecGetEx(env, env.now, st, db, c);
      GetExReplays(h, env, st, db, c, clock, i);
      if once.effects != o.effects {
        ReplayConcat(h, st, f.effects, [e], clock, i);
        ReplayDel(h, clock(i + |f.effects|), f.state, slot);
        ReplaySingle(h, f.state, e, clock, i + |f.effects|);
      }
    }
  }

  /** Such an input: GETEX k PX 10 read at 100 by the engine, which sets the deadline,
      and at 110 by the handler, which logs a DEL. */
  lemma GetExApart(h: Host, clock: nat -> int)
    ensures var st := map[Slot(0, [107]) := Object(Str([118]), 0)];
            var o := ExecGetEx(Env(100, false), 110, st, 0, GetEx([107], false, Some(PX(10))));
            && o.state == map[Slot(0, [107]) := Object(Str([118]), 110)]
            && Replay(h, st, o.effects, clock, 0) == Some(map[])
  {
    var st := map[Slot(0, [107]) := Object(Str([118]), 0)];
    var o := ExecGetEx(Env(100, false), 110, st, 0, GetEx([107], false, Some(PX(10))));
    var e := Effect(0, Del([[107]]));
    assert o.effects == [e];
    ReplayDel(h, clock(0), st, Slot(0, [107]));
    ReplaySingle(h, st, e, clock, 0);
    assert st - {Slot(0, [107])} == map[];
  }
}
