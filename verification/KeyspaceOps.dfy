/** The keyspace as the program updates it: the dictionary, the index of keys that
    carry a TTL, and the effect stream, each changed in place (engine/keyspace.go,
    engine/string.go, engine/list.go, engine/generic.go, engine/expire.go with the
    handlers of command/string.go, command/generic.go and command/list.go).

    Every method refines its value-level meaning in `Commands`, and keeps the TTL
    index exact; so a leader's log, replayed into a new keyspace, gives the leader's
    dictionary and index back. */
module KeyspaceOps {
  import opened Seqs
  import opened Options
  import opened Commands
  import opened Effects

  lemma PushedOne(l: seq<Bytes>, v: Bytes, front: bool)
    ensures Pushed(l, [v], front) == if front then [v] + l else l + [v]
  {
    var vals := [v];
    assert vals[1..] == [];
    assert vals[0] == v;
  }

  /** A check of some keys, given what the keys before them had reaped. */
  ghost predicate Checked(all: Found, reaped: seq<Effect>, rest: Found) {
    all == Found(rest.state, rest.obj, reaped + rest.effects)
  }

  lemma NoneExistCons(env: Env, st: State, db: nat, pairs: seq<(Bytes, Bytes)>, i: nat)
    requires i < |pairs|
    ensures var f := Commands.Lookup(env, st, Slot(db, pairs[i].0));
            var rest := NoneExist(env, f.state, db, pairs[i + 1..]);
            NoneExist(env, st, db, pairs[i..]) ==
            if f.obj.Some? then f else Found(rest.state, rest.obj, f.effects + rest.effects)
  {
    assert pairs[i..][1..] == pairs[i + 1..];
  }

  lemma CheckedOn(env: Env, all: Found, reaped: seq<Effect>, st: State, db: nat, pairs: seq<(Bytes, Bytes)>, i: nat)
    requires i < |pairs| && Checked(all, reaped, NoneExist(env, st, db, pairs[i..]))
    ensures var f := Commands.Lookup(env, st, Slot(db, pairs[i].0));
            if f.obj.Some? then all == Found(f.state, f.obj, reaped + f.effects)
            else Checked(all, reaped + f.effects, NoneExist(env, f.state, db, pairs[i + 1..]))
  {
    var f := Commands.Lookup(env, st, Slot(db, pairs[i].0));
    NoneExistCons(env, st, db, pairs, i);
    ConcatAssoc(reaped, f.effects, NoneExist(env, f.state, db, pairs[i + 1..]).effects);
  }

  /** The popping loop: one element at a time from one end, until enough or none is left. */
  method PopSome(l: seq<Bytes>, count: nat, front: bool) returns (rest: seq<Bytes>, n: nat)
    ensures rest == Popped(l, count, front) && n == if count < |l| then count else |l|
  {
    rest, n := l, 0;
    while n < count && rest != []
      invariant n <= count && n <= |l| && rest == if front then l[n..] else l[..|l| - n]
    {
      rest := if front then rest[1..] else rest[..|rest| - 1];
      n := n + 1;
    }
  }

  /** What is left of a deletion, given what the keys before had reaped. */
  ghost predicate Deleting(all: Deleted, n: nat, reaped: seq<Effect>, rest: Deleted) {
    all == Deleted(rest.state, n + rest.count, reaped + rest.effects)
  }

  lemma DelAllCons(env: Env, st: State, db: nat, keys: seq<Bytes>, i: nat)
    requires i < |keys|
    ensures var f := Commands.Lookup(env, st, Slot(db, keys[i]));
            var rest := DelAll(env, f.state - {Slot(db, keys[i])}, db, keys[i + 1..]);
            DelAll(env, st, db, keys[i..])
              == Deleted(rest.state, rest.count + (if f.obj.Some? then 1 else 0), f.effects + rest.effects)
  {
    assert keys[i..][1..] == keys[i + 1..];
  }

  lemma DeletingOn(env: Env, all: Deleted, n: nat, reaped: seq<Effect>, st: State, db: nat, keys: seq<Bytes>, i: nat)
    requires i < |keys| && Deleting(all, n, reaped, DelAll(env, st, db, keys[i..]))
    ensures var f := Commands.Lookup(env, st, Slot(db, keys[i]));
            Deleting(all, n + (if f.obj.Some? then 1 else 0), reaped + f.effects,
                     DelAll(env, f.state - {Slot(db, keys[i])}, db, keys[i + 1..]))
  {
    var f := Commands.Lookup(env, st, Slot(db, keys[i]));
    DelAllCons(env, st, db, keys, i);
    ConcatAssoc(reaped, f.effects, DelAll(env, f.state - {Slot(db, keys[i])}, db, keys[i + 1..]).effects);
  }

  /** What is left of a leader's life, given what it has logged. */
  ghost predicate Leading(all: (State, seq<Effect>), logged: seq<Effect>, rest: (State, seq<Effect>)) {
    all == (rest.0, logged + rest.1)
  }

  lemma LeadingOn(h: Host, all: (State, seq<Effect>), logged: seq<Effect>, st: State, events: seq<Event>, i: nat)
    requires i < |events| && Leading(all, logged, Leader(h, st, events[i..]))
    ensures var x := Happen(h, st, events[i]); Leading(all, logged + x.1, Leader(h, x.0, events[i + 1..]))
  {
    var x := Happen(h, st, events[i]);
    assert events[i..][1..] == events[i + 1..];
    LeaderCons(h, st, events[i..]);
    ConcatAssoc(logged, x.1, Leader(h, x.0, events[i + 1..]).1);
  }

  class Keyspace {
    const host: Host
    var dict: State
    var expires: set<Slot>
    var loading: bool
    var log: seq<Effect>

    /** The TTL index holds exactly the keys with an expiry. */
    ghost predicate Valid()
      reads this
    {
      && (forall s | s in dict :: dict[s].expireAt >= 0)
      && expires == set s | s in dict && dict[s].expireAt > 0
    }

    constructor (host: Host)
      ensures Valid() && dict == map[] && log == [] && !loading && this.host == host
    {
      this.host := host;
      dict, expires, loading, log := map[], {}, false, [];
    }

    method SetLoading(v: bool)
      modifies this`loading
      ensures loading == v
    {
      loading := v;
    }

    // ------------------------------------------------------------- accessors

    method Emit(db: nat, cmd: Command)
      modifies this`log
      ensures log == old(log) + [Effect(db, cmd)]
    {
      log := log + [Effect(db, cmd)];
    }

    method Store(slot: Slot, o: Object)
      requires Valid() && o.expireAt >= 0
      modifies this`dict, this`expires
      ensures Valid() && dict == old(dict)[slot := o]
    {
      if slot in dict && dict[slot].expireAt > 0 && o.expireAt == 0 {
        expires := expires - {slot};
      }
      dict := dict[slot := o];
      if o.expireAt > 0 {
        expires := expires + {slot};
      }
    }

    method Remove(slot: Slot)
      requires Valid()
      modifies this`dict, this`expires
      ensures Valid() && dict == old(dict) - {slot}
    {
      dict := dict - {slot};
      expires := expires - {slot};
    }

    method SetExpire(slot: Slot, at: int)
      requires Valid() && slot in dict && at >= 0
      modifies this`dict, this`expires
      ensures Valid() && dict == old(dict)[slot := old(dict)[slot].(expireAt := at)]
    {
      dict := dict[slot := dict[slot].(expireAt := at)];
      if at > 0 {
        expires := expires + {slot};
      } else {
        expires := expires - {slot};
      }
    }

    method Lookup(now: int, slot: Slot) returns (o: Option<Object>)
      requires Valid()
      modifies this`dict, this`expires, this`log
      ensures Valid()
      ensures var f := Commands.Lookup(Env(now, loading), old(dict), slot);
              dict == f.state && o == f.obj && log == old(log) + f.effects
    {
      if slot !in dict {
        return None;
      }
      var found := dict[slot];
      if !Expired(Env(now, loading), found) {
        return Some(found);
      }
      Remove(slot);
      Emit(slot.db, Del([slot.key]));
      return None;
    }

    /** peek hides an expired key and changes nothing. */
    method Read(now: int, slot: Slot) returns (o: Option<Object>)
      ensures o == Peek(Env(now, loading), dict, slot)
    {
      if slot in dict && !Expired(Env(now, loading), dict[slot]) {
        return Some(dict[slot]);
      }
      return None;
    }

    /** The outcome of a command, read off the fields. */
    ghost predicate Did(o: Outcome, ok: bool, before: seq<Effect>)
      reads this
    {
      Valid() && dict == o.state && ok == o.ok && log == before + o.effects
    }

    // --------------------------------------------------------- string commands

    method DoSet(now: int, db: nat, c: Command) returns (ok: bool)
      requires Valid() && c.Set?
      modifies this`dict, this`expires, this`log
      ensures Did(ExecSet(host, Env(now, loading), old(dict), db, c), ok, old(log))
    {
      if (c.nx && c.xx) || (c.keepTTL && c.exp.Some?) {
        return false;
      }
      var at := 0;
      if c.exp.Some? {
        var abs := Absolute(c.exp.value, now);
        if abs.None? {
          return false;
        }
        at := abs.value;
      }
      if |c.val| > host.maxLen {
        return false;
      }
      var slot := Slot(db, c.key);
      var prev := Lookup(now, slot);
      if c.get && prev.Some? && !prev.value.value.Str? {
        return false;
      }
      if (c.nx && prev.Some?) || (c.xx && prev.None?) {
        return true;
      }
      var ttl := 0;
      if at > 0 {
        ttl := at;
      } else if c.keepTTL && prev.Some? {
        ttl := prev.value.expireAt;
      }
      Store(slot, Object(Str(c.val), ttl));
      Emit(db, SetEffect(c.key, c.val, at, c.keepTTL));
      return true;
    }

    method DoGetDel(now: int, db: nat, key: Bytes) returns (ok: bool)
      requires Valid()
      modifies this`dict, this`expires, this`log
      ensures Did(ExecGetDel(Env(now, loading), old(dict), db, key), ok, old(log))
    {
      var prev := Lookup(now, Slot(db, key));
      if prev.None? {
        return true;
      }
      if !prev.value.value.Str? {
        return false;
      }
      Remove(Slot(db, key));
      Emit(db, Del([key]));
      return true;
    }

    /** `later` is the handler's own reading of the clock. */
    method DoGetEx(now: int, later: int, db: nat, c: Command) returns (ok: bool)
      requires Valid() && c.GetEx?
      modifies this`dict, this`expires, this`log
      ensures Did(ExecGetEx(Env(now, loading), later, old(dict), db, c), ok, old(log))
    {
      if c.persist && c.exp.Some? {
        return false;
      }
      var at := 0;
      if c.exp.Some? {
        var abs := Absolute(c.exp.value, now);
        if abs.None? {
          return false;
        }
        at := abs.value;
      }
      var slot := Slot(db, c.key);
      var prev := Lookup(now, slot);
      if prev.None? {
        return true;
      }
      if !prev.value.value.Str? {
        return false;
      }
      if c.persist && prev.value.expireAt != 0 {
        SetExpire(slot, 0);
      } else if at > 0 {
        if at <= now {
          Remove(slot);
        } else {
          SetExpire(slot, at);
        }
      }
      if c.persist {
        Emit(db, Persist(c.key));
      } else if at != 0 {
        if at <= later {
          Emit(db, Del([c.key]));
        } else {
          Emit(db, Expire(c.key, PXAT(at), Always));
        }
      }
      return true;
    }

    method StorePairs(db: nat, pairs: seq<(Bytes, Bytes)>)
      requires Valid()
      modifies this`dict, this`expires
      ensures Valid() && dict == StoreAll(old(dict), db, pairs)
    {
      var i := 0;
      while i < |pairs|
        invariant 0 <= i <= |pairs| && Valid()
        invariant StoreAll(dict, db, pairs[i..]) == StoreAll(old(dict), db, pairs)
      {
        assert pairs[i..][1..] == pairs[i + 1..];
        Store(Slot(db, pairs[i].0), Object(Str(pairs[i].1), 0));
        i := i + 1;
      }
    }

    method DoMSet(db: nat, pairs: seq<(Bytes, Bytes)>)
      requires Valid()
      modifies this`dict, this`expires, this`log
      ensures Valid() && dict == StoreAll(old(dict), db, pairs) && log == old(log) + [Effect(db, MSet(pairs))]
    {
      StorePairs(db, pairs);
      Emit(db, MSet(pairs));
    }

    /** The existence check of MSETNX, which stops at the first key that exists. */
    method AnyExists(now: int, db: nat, pairs: seq<(Bytes, Bytes)>) returns (found: Option<Object>)
      requires Valid()
      modifies this`dict, this`expires, this`log
      ensures Valid()
      ensures var f := NoneExist(Env(now, loading), old(dict), db, pairs);
              dict == f.state && found == f.obj && log == old(log) + f.effects
    {
      ghost var env := Env(now, loading);
      ghost var all := NoneExist(env, dict, db, pairs);
      ghost var reaped: seq<Effect> := [];
      var i := 0;
      assert pairs[0..] == pairs;
      while i < |pairs|
        invariant 0 <= i <= |pairs| && Valid() && log == old(log) + reaped
        invariant Checked(all, reaped, NoneExist(env, dict, db, pairs[i..]))
      {
        ghost var f := Commands.Lookup(env, dict, Slot(db, pairs[i].0));
        CheckedOn(env, all, reaped, dict, db, pairs, i);
        found := Lookup(now, Slot(db, pairs[i].0));
        ConcatAssoc(old(log), reaped, f.effects);
        if found.Some? {
          return;
        }
        reaped := reaped + f.effects;
        i := i + 1;
      }
      return None;
    }

    method DoMSetNX(now: int, db: nat, pairs: seq<(Bytes, Bytes)>) returns (ok: bool)
      requires Valid()
      modifies this`dict, this`expires, this`log
      ensures Did(ExecMSetNX(Env(now, loading), old(dict), db, pairs), ok, old(log))
    {
      var found := AnyExists(now, db, pairs);
      if found.None? {
        StorePairs(db, pairs);
        Emit(db, MSet(pairs));
      }
      return true;
    }

    method DoIncrBy(now: int, db: nat, key: Bytes, delta: int) returns (ok: bool)
      requires Valid()
      modifies this`dict, this`expires, this`log
      ensures Did(ExecIncrBy(host, Env(now, loading), old(dict), db, key, delta), ok, old(log))
    {
      var prev := Lookup(now, Slot(db, key));
      var cur, ttl := 0, 0;
      if prev.Some? {
        if !prev.value.value.Str? {
          return false;
        }
        var n := host.parseInt(prev.value.value.bytes);
        if n.None? {
          return false;
        }
        cur, ttl := n.value, prev.value.expireAt;
      }
      if (delta > 0 && cur > MaxInt64 - delta) || (delta < 0 && cur < MinInt64 - delta) {
        return false;
      }
      Store(Slot(db, key), Object(Str(host.renderInt(cur + delta)), ttl));
      Emit(db, IncrBy(key, delta));
      return true;
    }

    method DoIncrByFloat(now: int, db: nat, key: Bytes, amount: real) returns (ok: bool)
      requires Valid()
      modifies this`dict, this`expires, this`log
      ensures Did(ExecIncrByFloat(host, Env(now, loading), old(dict), db, key, amount), ok, old(log))
    {
      var prev := Lookup(now, Slot(db, key));
      var cur, ttl := 0.0, 0;
      if prev.Some? {
        if !prev.value.value.Str? {
          return false;
        }
        var n := host.parseFloat(prev.value.value.bytes);
        if n.None? {
          return false;
        }
        cur, ttl := n.value, prev.value.expireAt;
      }
      var sum := host.addFloat(cur, amount);
      if sum.None? {
        return false;
      }
      var rendered := host.renderFloat(sum.value);
      Store(Slot(db, key), Object(Str(rendered), ttl));
      Emit(db, SetEffect(key, rendered, 0, true));
      return true;
    }

    method DoAppend(now: int, db: nat, key: Bytes, val: Bytes) returns (ok: bool)
      requires Valid()
      modifies this`dict, this`expires, this`log
      ensures Did(ExecAppend(host, Env(now, loading), old(dict), db, key, val), ok, old(log))
    {
      var prev := Lookup(now, Slot(db, key));
      var cur, ttl := [], 0;
      if prev.Some? {
        if !prev.value.value.Str? {
          return false;
        }
        cur, ttl := prev.value.value.bytes, prev.value.expireAt;
      }
      if |cur| + |val| > host.maxLen {
        return false;
      }
      Store(Slot(db, key), Object(Str(cur + val), ttl));
      Emit(db, Append(key, val));
      return true;
    }

    // ----------------------------------------------------------- list commands

    /** finishWrite: an emptied list goes away. */
    method FinishWrite(slot: Slot, l: seq<Bytes>, ttl: int)
      requires Valid() && ttl >= 0
      modifies this`dict, this`expires
      ensures Valid() && dict == StoreList(old(dict), slot, l, ttl)
    {
      if l == [] {
        Remove(slot);
      } else {
        Store(slot, Object(Lst(l), ttl));
      }
    }

    method DoPush(now: int, db: nat, c: Command) returns (ok: bool)
      requires Valid() && c.Push?
      modifies this`dict, this`expires, this`log
      ensures Did(ExecPush(Env(now, loading), old(dict), db, c), ok, old(log))
    {
      var slot := Slot(db, c.key);
      var prev := Lookup(now, slot);
      var l, ttl := [], 0;
      if prev.Some? {
        if !prev.value.value.Lst? {
          return false;
        }
        l, ttl := prev.value.value.elems, prev.value.expireAt;
      } else if c.mustExist {
        return true;
      }
      var i := 0;
      ghost var start := l;
      while i < |c.vals|
        invariant 0 <= i <= |c.vals|
        invariant Pushed(l, c.vals[i..], c.front) == Pushed(start, c.vals, c.front)
      {
        assert c.vals[i..][1..] == c.vals[i + 1..];
        l := if c.front then [c.vals[i]] + l else l + [c.vals[i]];
        i := i + 1;
      }
      FinishWrite(slot, l, ttl);
      if |l| > 0 {
        Emit(db, c);
      }
      return true;
    }

    method DoPop(now: int, db: nat, c: Command) returns (ok: bool)
      requires Valid() && c.Pop?
      modifies this`dict, this`expires, this`log
      ensures Did(ExecPop(Env(now, loading), old(dict), db, c), ok, old(log))
    {
      var slot := Slot(db, c.key);
      var prev := Lookup(now, slot);
      if prev.None? {
        return true;
      }
      if !prev.value.value.Lst? {
        return false;
      }
      var l, n := PopSome(prev.value.value.elems, c.count, c.front);
      if n > 0 {
        FinishWrite(slot, l, prev.value.expireAt);
        Emit(db, c);
      }
      return true;
    }

    /** The store and log as a lookup left them. */
    ghost predicate After(f: Found, before: seq<Effect>)
      reads this
    {
      Valid() && dict == f.state && log == before + f.effects
    }

    method DoMoveWithin(db: nat, c: Command, src: Object, ghost f: Found, ghost before: seq<Effect>) returns (ok: bool)
      requires c.LMove? && After(f, before) && f.obj == Some(src) && src.value.Lst? && src.expireAt >= 0
      modifies this`dict, this`expires, this`log
      ensures Did(MoveWithin(f, db, c), ok, before)
    {
      var from := src.value.elems;
      if from == [] {
        return true;
      }
      var v := if c.srcFront then from[0] else from[|from| - 1];
      var rest := Popped(from, 1, c.srcFront);
      PushedOne(rest, v, c.dstFront);
      FinishWrite(Slot(db, c.src), Pushed(rest, [v], c.dstFront), src.expireAt);
      Emit(db, c);
      return true;
    }

    method DoMoveAcross(now: int, db: nat, c: Command, src: Object, ghost f: Found, ghost before: seq<Effect>) returns (ok: bool)
      requires c.LMove? && After(f, before) && f.obj == Some(src) && src.value.Lst? && src.expireAt >= 0
      modifies this`dict, this`expires, this`log
      ensures Did(MoveAcross(Env(now, loading), f, db, c), ok, before)
    {
      var from, d := src.value.elems, Slot(db, c.dst);
      var dst := Lookup(now, d);
      if dst.Some? && !dst.value.value.Lst? {
        return false;
      }
      if from == [] {
        return true;
      }
      var v := if c.srcFront then from[0] else from[|from| - 1];
      var to, ttl := [], 0;
      if dst.Some? {
        to, ttl := dst.value.value.elems, dst.value.expireAt;
      }
      Store(d, Object(Lst(Pushed(to, [v], c.dstFront)), ttl));
      FinishWrite(Slot(db, c.src), Popped(from, 1, c.srcFront), src.expireAt);
      Emit(db, c);
      return true;
    }

    method DoLMove(now: int, db: nat, c: Command) returns (ok: bool)
      requires Valid() && c.LMove?
      modifies this`dict, this`expires, this`log
      ensures Did(ExecLMove(Env(now, loading), old(dict), db, c), ok, old(log))
    {
      ghost var f := Commands.Lookup(Env(now, loading), dict, Slot(db, c.src));
      var src := Lookup(now, Slot(db, c.src));
      if src.None? {
        return true;
      }
      if !src.value.value.Lst? {
        return false;
      }
      if c.src == c.dst {
        ok := DoMoveWithin(db, c, src.value, f, old(log));
      } else {
        ok := DoMoveAcross(now, db, c, src.value, f, old(log));
      }
    }

    // ------------------------------------------------------- keyspace commands

    /** One key of DEL: reaped if it is past due, removed if it is there. */
    method DelOne(now: int, slot: Slot) returns (found: bool)
      requires Valid()
      modifies this`dict, this`expires, this`log
      ensures Valid()
      ensures var f := Commands.Lookup(Env(now, loading), old(dict), slot);
              dict == f.state - {slot} && found == f.obj.Some? && log == old(log) + f.effects
    {
      var o := Lookup(now, slot);
      if o.Some? {
        Remove(slot);
        return true;
      }
      assert dict - {slot} == dict;
      return false;
    }

    method DoDel(now: int, db: nat, keys: seq<Bytes>) returns (n: nat)
      requires Valid()
      modifies this`dict, this`expires, this`log
      ensures Did(ExecDel(Env(now, loading), old(dict), db, keys), true, old(log))
      ensures n == DelAll(Env(now, loading), old(dict), db, keys).count
    {
      n := 0;
      ghost var env := Env(now, loading);
      ghost var all := DelAll(env, dict, db, keys);
      ghost var reaped: seq<Effect> := [];
      var i := 0;
      assert keys[0..] == keys && [] + all.effects == all.effects;
      while i < |keys|
        invariant 0 <= i <= |keys| && Valid() && log == old(log) + reaped
        invariant Deleting(all, n, reaped, DelAll(env, dict, db, keys[i..]))
      {
        DeletingOn(env, all, n, reaped, dict, db, keys, i);
        ghost var f := Commands.Lookup(env, dict, Slot(db, keys[i]));
        var found := DelOne(now, Slot(db, keys[i]));
        if found {
          n := n + 1;
        }
        ConcatAssoc(old(log), reaped, f.effects);
        reaped := reaped + f.effects;
        i := i + 1;
      }
      if n > 0 {
        Emit(db, Del(keys));
      }
    }

    method DoRename(now: int, db: nat, c: Command) returns (ok: bool)
      requires Valid() && c.Rename?
      modifies this`dict, this`expires, this`log
      ensures Did(ExecRename(Env(now, loading), old(dict), db, c), ok, old(log))
    {
      var s, d := Slot(db, c.src), Slot(db, c.dst);
      var o := Lookup(now, s);
      if o.None? {
        return false;
      }
      if c.unless {
        var dst := Lookup(now, d);
        if dst.Some? {
          return true;
        }
      }
      if s != d {
        Remove(s);
        Store(d, o.value);
      }
      Emit(db, Rename(c.src, c.dst, false));
      return true;
    }

    method DoCopy(now: int, db: nat, c: Command) returns (ok: bool)
      requires Valid() && c.Copy?
      modifies this`dict, this`expires, this`log
      ensures Did(ExecCopy(Env(now, loading), old(dict), db, c), ok, old(log))
    {
      var s, d := Slot(db, c.src), Slot(c.destDb, c.dst);
      if s == d {
        return false;
      }
      var o := Lookup(now, s);
      if o.None? {
        return true;
      }
      if !c.replace {
        var dst := Lookup(now, d);
        if dst.Some? {
          return true;
        }
      }
      Store(d, o.value);
      Emit(db, c.(replace := true));
      return true;
    }

    method DoExpire(now: int, db: nat, c: Command) returns (ok: bool)
      requires Valid() && c.Expire?
      modifies this`dict, this`expires, this`log
      ensures Did(ExecExpire(Env(now, loading), old(dict), db, c), ok, old(log))
    {
      var at := Absolute(c.at, now);
      if at.None? {
        return false;
      }
      var slot := Slot(db, c.key);
      var o := Lookup(now, slot);
      if o.None? || !ConditionMet(o.value.expireAt, at.value, c.cond) {
        return true;
      }
      if at.value <= now && !loading {
        Remove(slot);
        Emit(db, Del([c.key]));
        return true;
      }
      SetExpire(slot, at.value);
      Emit(db, Expire(c.key, PXAT(at.value), Always));
      return true;
    }

    method DoPersist(now: int, db: nat, key: Bytes) returns (ok: bool)
      requires Valid()
      modifies this`dict, this`expires, this`log
      ensures Did(ExecPersist(Env(now, loading), old(dict), db, key), ok, old(log))
    {
      var o := Lookup(now, Slot(db, key));
      if o.None? || o.value.expireAt == 0 {
        return true;
      }
      SetExpire(Slot(db, key), 0);
      Emit(db, Persist(key));
      return true;
    }

    /** The commands on strings. */
    method ExecuteString(now: int, db: nat, c: Command) returns (ok: bool)
      requires Valid()
      requires c.Set? || c.GetDel? || c.GetEx? || c.MSet? || c.MSetNX? || c.IncrBy? || c.IncrByFloat? || c.Append?
      modifies this`dict, this`expires, this`log
      ensures Did(Exec(host, Env(now, loading), old(dict), db, c), ok, old(log))
    {
      match c
      case Set(_, _, _, _, _, _, _) => ok := DoSet(now, db, c);
      case GetDel(key) => ok := DoGetDel(now, db, key);
      case GetEx(_, _, _) => ok := DoGetEx(now, now, db, c);
      case MSet(pairs) => DoMSet(db, pairs); ok := true;
      case MSetNX(pairs) => ok := DoMSetNX(now, db, pairs);
      case IncrBy(key, delta) => ok := DoIncrBy(now, db, key, delta);
      case IncrByFloat(key, amount) => ok := DoIncrByFloat(now, db, key, amount);
      case Append(key, val) => ok := DoAppend(now, db, key, val);
    }

    /** One command. */
    method Execute(now: int, db: nat, c: Command) returns (ok: bool)
      requires Valid()
      modifies this`dict, this`expires, this`log
      ensures Did(Exec(host, Env(now, loading), old(dict), db, c), ok, old(log))
    {
      match c
      case Push(_, _, _, _) => ok := DoPush(now, db, c);
      case Pop(_, _, _) => ok := DoPop(now, db, c);
      case LMove(_, _, _, _) => ok := DoLMove(now, db, c);
      case Del(keys) => var n := DoDel(now, db, keys); ok := true;
      case Rename(_, _, _) => ok := DoRename(now, db, c);
      case Copy(_, _, _, _) => ok := DoCopy(now, db, c);
      case Expire(_, _, _) => ok := DoExpire(now, db, c);
      case Persist(key) => ok := DoPersist(now, db, key);
      case _ => ok := ExecuteString(now, db, c);
    }

    /** Reap the keys of a list that are past due. */
    method ReapSlots(now: int, sample: seq<Slot>)
      requires Valid()
      modifies this`dict, this`expires, this`log
      ensures Valid()
      ensures var (st, effs) := Reap(Env(now, loading), old(dict), sample);
              dict == st && log == old(log) + effs
    {
      ghost var reaped: seq<Effect> := [];
      var i := 0;
      while i < |sample|
        invariant 0 <= i <= |sample| && Valid() && log == old(log) + reaped
        invariant var f, g := Reap(Env(now, loading), old(dict), sample), Reap(Env(now, loading), dict, sample[i..]);
                  f.0 == g.0 && f.1 == reaped + g.1
      {
        assert sample[i..][1..] == sample[i + 1..];
        ghost var f := Commands.Lookup(Env(now, loading), dict, sample[i]);
        var o := Lookup(now, sample[i]);
        ConcatAssoc(reaped, f.effects, Reap(Env(now, loading), dict, sample[i + 1..]).1);
        reaped := reaped + f.effects;
        i := i + 1;
      }
    }

    /** expireSample: go through the TTL index in the order the map gives, reap what is
        past due, and stop once `n` keys have been looked at. */
    method ExpireSample(now: int, order: seq<Slot>, n: int) returns (checked: nat, expired: nat)
      requires Valid() && Enumerates(order, expires)
      modifies this`dict, this`expires, this`log
      ensures Valid() && expired <= checked
      ensures checked == if order == [] then 0 else if n < 1 then 1 else if n < |order| then n else |order|
      ensures dict == Reaped(Env(now, loading), old(dict), order[..checked])
      ensures log == old(log) + Reap(Env(now, loading), old(dict), order[..checked]).1
      ensures expired == |log| - |old(log)|
    {
      ghost var env := Env(now, loading);
      checked, expired := 0, 0;
      while checked < |order|
        invariant 0 <= checked <= |order| && Valid() && (checked == 0 || checked < n)
        invariant dict == Reap(env, old(dict), order[..checked]).0
        invariant log == old(log) + Reap(env, old(dict), order[..checked]).1
        invariant expired == |log| - |old(log)| <= checked
      {
        ReapSnoc(env, old(dict), order, checked);
        var before := |log|;
        var o := Lookup(now, order[checked]);
        checked := checked + 1;
        if |log| > before {
          expired := expired + 1;
        }
        if checked >= n {
          break;
        }
      }
      ReapIs(env, old(dict), order[..checked]);
    }

    // ------------------------------------------------------------ leading and rebuilding

    /** Evict one key, whatever its TTL. */
    method EvictOne(slot: Slot)
      requires Valid()
      modifies this`dict, this`expires, this`log
      ensures Valid()
      ensures var (st, effs) := Evict(old(dict), slot); dict == st && log == old(log) + effs
    {
      if slot in dict {
        Remove(slot);
        Emit(slot.db, Del([slot.key]));
      }
    }

    method Occur(e: Event)
      requires Valid() && !loading
      modifies this`dict, this`expires, this`log
      ensures Valid()
      ensures var x := Happen(host, old(dict), e); dict == x.0 && log == old(log) + x.1
    {
      match e
      case Write(now, db, cmd) => var ok := Execute(now, db, cmd);
      case Sample(now, slots) => ReapSlots(now, slots);
      case Eviction(slot) => EvictOne(slot);
      case Read(now, slot) => var o := Read(now, slot);
    }

    /** Everything that happens to a leader. */
    method Lead(events: seq<Event>)
      requires Valid() && !loading
      modifies this`dict, this`expires, this`log
      ensures Valid()
      ensures var x := Leader(host, old(dict), events); dict == x.0 && log == old(log) + x.1
    {
      ghost var all := Leader(host, dict, events);
      ghost var logged: seq<Effect> := [];
      var i := 0;
      assert events[0..] == events && [] + all.1 == all.1;
      while i < |events|
        invariant 0 <= i <= |events| && Valid() && log == old(log) + logged
        invariant Leading(all, logged, Leader(host, dict, events[i..]))
      {
        LeadingOn(host, all, logged, dict, events, i);
        ghost var x := Happen(host, dict, events[i]);
        Occur(events[i]);
        ConcatAssoc(old(log), logged, x.1);
        logged := logged + x.1;
        i := i + 1;
      }
    }

    /** Recovery: every record through its handler in loading mode, at whatever the clock
        says then.  What the handlers emit meanwhile goes nowhere. */
    method ReplayLog(records: seq<Effect>, clock: nat -> int) returns (ok: bool)
      requires Valid() && loading
      modifies this`dict, this`expires, this`log
      ensures Valid() && log == old(log)
      ensures var res := Replay(host, old(dict), records, clock, 0);
              ok == res.Some? && (ok ==> dict == res.value)
    {
      var i := 0;
      assert records[0..] == records;
      while i < |records|
        invariant 0 <= i <= |records| && Valid() && log == old(log)
        invariant Replay(host, old(dict), records, clock, 0) == Replay(host, dict, records[i..], clock, i)
      {
        assert records[i..][1..] == records[i + 1..];
        var before := log;
        ok := Execute(clock(i), records[i].db, records[i].cmd);
        log := before;
        if !ok {
          return;
        }
        i := i + 1;
      }
      return true;
    }
  }

  /** A map's keys in some order. */
  ghost predicate Enumerates(order: seq<Slot>, keys: set<Slot>) {
    && (forall i | 0 <= i < |order| :: order[i] in keys)
    && (forall key | key in keys :: key in order)
    && (forall i, j | 0 <= i < j < |order| :: order[i] != order[j])
  }

  /** What is left when the due keys of a sample are gone. */
  ghost function Reaped(env: Env, st: State, sample: seq<Slot>): State {
    map slot | slot in st && !(slot in sample && Expired(env, st[slot])) :: st[slot]
  }

  lemma {:induction false} ReapIs(env: Env, st: State, sample: seq<Slot>)
    ensures Reap(env, st, sample).0 == Reaped(env, st, sample)
    decreases |sample|
  {
    if sample == [] {
      assert Reaped(env, st, sample) == st;
    } else {
      var mid := Commands.Lookup(env, st, sample[0]).state;
      ReapIs(env, mid, sample[1..]);
      assert Reaped(env, mid, sample[1..]) == Reaped(env, st, sample);
    }
  }

  lemma {:induction false} ReapConcat(env: Env, st: State, a: seq<Slot>, b: seq<Slot>)
    ensures var x := Reap(env, st, a);
            var y := Reap(env, x.0, b);
            Reap(env, st, a + b) == (y.0, x.1 + y.1)
    decreases |a|
  {
    if a == [] {
      assert a + b == b && [] + Reap(env, st, b).1 == Reap(env, st, b).1;
    } else {
      var f := Commands.Lookup(env, st, a[0]);
      ReapConcat(env, f.state, a[1..], b);
      assert (a + b)[1..] == a[1..] + b;
      var x := Reap(env, f.state, a[1..]);
      ConcatAssoc(f.effects, x.1, Reap(env, x.0, b).1);
    }
  }

  lemma ReapSnoc(env: Env, st: State, order: seq<Slot>, n: nat)
    requires n < |order|
    ensures var x := Reap(env, st, order[..n]);
            var f := Commands.Lookup(env, x.0, order[n]);
            Reap(env, st, order[..n + 1]) == (f.state, x.1 + f.effects)
  {
    assert order[..n + 1] == order[..n] + [order[n]];
    ReapConcat(env, st, order[..n], [order[n]]);
    var f := Commands.Lookup(env, Reap(env, st, order[..n]).0, order[n]);
    assert [order[n]][1..] == [] && f.effects + [] == f.effects;
  }

  /** A pass that was not cut short leaves nothing that is past due. */
  lemma SampleClears(env: Env, st: State, order: seq<Slot>)
    requires forall slot | slot in st && st[slot].expireAt != 0 :: slot in order
    ensures forall slot | slot in Reaped(env, st, order) :: !Expired(env, st[slot])
  {
  }

  /** A leader's whole life, a crash, and a new keyspace that replays its log in loading
      mode: the dictionary and the index of deadlines are the leader's, exactly when every
      float it stored was within the limit. */
  method LeadAndRebuild(host: Host, events: seq<Event>, clock: nat -> int) returns (leader: Keyspace, copy: Keyspace, ok: bool)
    requires Runnable(events)
    ensures fresh(leader) && fresh(copy) && leader.Valid() && copy.Valid()
    ensures leader.dict == Leader(host, map[], events).0
    ensures ok <==> AllFit(host, map[], events)
    ensures ok ==> copy.dict == leader.dict && copy.expires == leader.expires
  {
    leader := new Keyspace(host);
    leader.Lead(events);
    copy := new Keyspace(host);
    copy.SetLoading(true);
    ok := copy.ReplayLog(leader.log, clock);
    assert leader.log == Leader(host, map[], events).1;
    RunReplays(host, map[], events, clock, 0);
  }
}
