/** Write commands, the effects they log, and expiry (engine/keyspace.go,
    engine/expire.go, engine/string.go, engine/list.go, engine/generic.go,
    command/string.go, command/generic.go, command/list.go).

    Arguments are taken after parsing.  An effect is itself a command, and
    replay runs it through the same handler, with expiry switched off. */
module Commands {
  import opened Options

  type Bytes = seq<int>

  /** A stored value.  `Opaque` is any type this model has no command for. */
  datatype Value = Str(bytes: Bytes) | Lst(elems: seq<Bytes>) | Opaque(kind: nat)

  /** `expireAt` is absolute milliseconds; 0 is no expiry. */
  datatype Object = Object(value: Value, expireAt: int)

  datatype Slot = Slot(db: nat, key: Bytes)

  type State = map<Slot, Object>

  datatype Expiry = EX(n: int) | PX(n: int) | EXAT(n: int) | PXAT(n: int)

  datatype Condition = Always | NX | XX | GT | LT

  datatype Command =
    | Set(key: Bytes, val: Bytes, nx: bool, xx: bool, get: bool, keepTTL: bool, exp: Option<Expiry>)
    | GetDel(key: Bytes)
    | GetEx(key: Bytes, persist: bool, exp: Option<Expiry>)
    | MSet(pairs: seq<(Bytes, Bytes)>)
    | MSetNX(pairs: seq<(Bytes, Bytes)>)
    | IncrBy(key: Bytes, delta: int)
    | IncrByFloat(key: Bytes, amount: real)
    | Append(key: Bytes, val: Bytes)
    | Push(key: Bytes, vals: seq<Bytes>, front: bool, mustExist: bool)
    | Pop(key: Bytes, count: nat, front: bool)
    | LMove(src: Bytes, dst: Bytes, srcFront: bool, dstFront: bool)
    | Del(keys: seq<Bytes>)
    | Rename(src: Bytes, dst: Bytes, unless: bool)
    | Copy(src: Bytes, dst: Bytes, destDb: nat, replace: bool)
    | Expire(key: Bytes, at: Expiry, cond: Condition)
    | Persist(key: Bytes)

  /** A logged record: the database and the command to replay there. */
  datatype Effect = Effect(db: nat, cmd: Command)

  /** What the process supplies: the string limit, and number parsing and
      rendering. */
  datatype Host = Host(
    maxLen: nat,
    parseInt: Bytes -> Option<int>,
    renderInt: int -> Bytes,
    parseFloat: Bytes -> Option<real>,
    addFloat: (real, real) -> Option<real>,
    renderFloat: real -> Bytes)

  /** The clock a command reads, and whether a log is being replayed. */
  datatype Env = Env(now: int, loading: bool)

  /** The result of a command: the new keyspace, whether the reply was not an
      error, and what reached the log. */
  datatype Outcome = Outcome(state: State, ok: bool, effects: seq<Effect>)

  const MaxInt64: int := 0x7fff_ffff_ffff_ffff
  const MinInt64: int := -0x8000_0000_0000_0000

  // ------------------------------------------------------------------------ expiry

  predicate Expired(env: Env, o: Object) {
    o.expireAt != 0 && o.expireAt <= env.now && !env.loading
  }

  /** absoluteExpiry: the four spellings as one absolute instant. */
  function Absolute(e: Expiry, now: int): Option<int> {
    var relative := e.EX? || e.PX?;
    var seconds := e.EX? || e.EXAT?;
    if relative && e.n <= 0 then None
    else if seconds && (e.n > MaxInt64 / 1000 || e.n < -(-MinInt64 / 1000)) then None
    else
      var at := if seconds then e.n * 1000 else e.n;
      if relative && at > MaxInt64 - now then None
      else
        var abs := if relative then at + now else at;
        if abs <= 0 then None else Some(abs)
  }

  predicate ConditionMet(current: int, next: int, c: Condition) {
    match c
    case Always => true
    case NX => current == 0
    case XX => current != 0
    case GT => current != 0 && next > current
    case LT => current == 0 || next < current
  }

  // ------------------------------------------------------------------ the accessors

  /** What `lookup` leaves: the keyspace, the live object if any, and the DEL it
      logged if it reaped one. */
  datatype Found = Found(state: State, obj: Option<Object>, effects: seq<Effect>)

  /** lookup, the write family: an expired key is reaped and its DEL logged. */
  function Lookup(env: Env, st: State, slot: Slot): Found {
    if slot !in st then Found(st, None, [])
    else if !Expired(env, st[slot]) then Found(st, Some(st[slot]), [])
    else Found(st - {slot}, None, [Effect(slot.db, Del([slot.key]))])
  }

  /** peek, the read family: an expired key is hidden and stays. */
  function Peek(env: Env, st: State, slot: Slot): Option<Object> {
    if slot in st && !Expired(env, st[slot]) then Some(st[slot]) else None
  }

  function Fail(f: Found): Outcome {
    Outcome(f.state, false, f.effects)
  }

  function Nothing(f: Found): Outcome {
    Outcome(f.state, true, f.effects)
  }

  function Done(f: Found, st: State, db: nat, cmd: Command): Outcome {
    Outcome(st, true, f.effects + [Effect(db, cmd)])
  }

  predicate Holds(f: Found) {
    f.obj.Some? && f.obj.value.value.Str?
  }

  predicate WrongType(f: Found) {
    f.obj.Some? && !f.obj.value.value.Str?
  }

  // ---------------------------------------------------------------- string commands

  function ExecSet(h: Host, env: Env, st: State, db: nat, c: Command): Outcome
    requires c.Set?
  {
    var at := if c.exp.Some? then Absolute(c.exp.value, env.now) else Some(0);
    if (c.nx && c.xx) || (c.keepTTL && c.exp.Some?) || at.None? || |c.val| > h.maxLen then Outcome(st, false, [])
    else
      var slot := Slot(db, c.key);
      var f := Lookup(env, st, slot);
      if c.get && WrongType(f) then Fail(f)
      else if (c.nx && f.obj.Some?) || (c.xx && f.obj.None?) then Nothing(f)
      else
        var ttl := if at.value > 0 then at.value
                   else if c.keepTTL && f.obj.Some? then f.obj.value.expireAt else 0;
        Done(f, f.state[slot := Object(Str(c.val), ttl)], db, SetEffect(c.key, c.val, at.value, c.keepTTL))
  }

  /** propagateSet: an unconditional SET with an absolute expiry, if any. */
  function SetEffect(key: Bytes, val: Bytes, at: int, keepTTL: bool): Command {
    if at > 0 then Set(key, val, false, false, false, false, Some(PXAT(at)))
    else Set(key, val, false, false, false, keepTTL, None)
  }

  function ExecGetDel(env: Env, st: State, db: nat, key: Bytes): Outcome {
    var slot := Slot(db, key);
    var f := Lookup(env, st, slot);
    if WrongType(f) then Fail(f)
    else if f.obj.None? then Nothing(f)
    else Done(f, f.state - {slot}, db, Del([key]))
  }

  /** GETEX, with the engine's and the handler's clock readings apart: the engine
      decides on `env.now`, the handler names the effect on `later`. */
  function ExecGetEx(env: Env, later: int, st: State, db: nat, c: Command): Outcome
    requires c.GetEx?
  {
    var at := if c.exp.Some? then Absolute(c.exp.value, env.now) else Some(0);
    if (c.persist && c.exp.Some?) || at.None? then Outcome(st, false, [])
    else
      var slot := Slot(db, c.key);
      var f := Lookup(env, st, slot);
      if WrongType(f) then Fail(f)
      else if f.obj.None? || (!c.persist && at.value == 0) then Nothing(f)
      else
        var st' := if c.persist then
                     (if f.obj.value.expireAt != 0 then f.state[slot := f.obj.value.(expireAt := 0)] else f.state)
                   else if at.value <= env.now then f.state - {slot}
                   else f.state[slot := f.obj.value.(expireAt := at.value)];
        Done(f, st', db,
             if c.persist then Persist(c.key)
             else if at.value <= later then Del([c.key])
             else Expire(c.key, PXAT(at.value), Always))
  }

  function StoreAll(st: State, db: nat, pairs: seq<(Bytes, Bytes)>): State
    decreases |pairs|
  {
    if pairs == [] then st
    else StoreAll(st[Slot(db, pairs[0].0) := Object(Str(pairs[0].1), 0)], db, pairs[1..])
  }

  /** The NX check of MSETNX: look the keys up until one exists. */
  function NoneExist(env: Env, st: State, db: nat, pairs: seq<(Bytes, Bytes)>): Found
    decreases |pairs|
  {
    if pairs == [] then Found(st, None, [])
    else
      var f := Lookup(env, st, Slot(db, pairs[0].0));
      if f.obj.Some? then f
      else
        var g := NoneExist(env, f.state, db, pairs[1..]);
        Found(g.state, g.obj, f.effects + g.effects)
  }

  function ExecMSetNX(env: Env, st: State, db: nat, pairs: seq<(Bytes, Bytes)>): Outcome {
    var f := NoneExist(env, st, db, pairs);
    if f.obj.Some? then Nothing(f)
    else Done(f, StoreAll(f.state, db, pairs), db, MSet(pairs))
  }

  function ExecIncrBy(h: Host, env: Env, st: State, db: nat, key: Bytes, delta: int): Outcome {
    var slot := Slot(db, key);
    var f := Lookup(env, st, slot);
    if WrongType(f) then Fail(f)
    else
      var cur := if f.obj.None? then Some(0) else h.parseInt(f.obj.value.value.bytes);
      if cur.None? then Fail(f)
      else if (delta > 0 && cur.value > MaxInt64 - delta) || (delta < 0 && cur.value < MinInt64 - delta) then Fail(f)
      else
        var ttl := if f.obj.Some? then f.obj.value.expireAt else 0;
        Done(f, f.state[slot := Object(Str(h.renderInt(cur.value + delta)), ttl)], db, IncrBy(key, delta))
  }

  function ExecIncrByFloat(h: Host, env: Env, st: State, db: nat, key: Bytes, amount: real): Outcome {
    var slot := Slot(db, key);
    var f := Lookup(env, st, slot);
    if WrongType(f) then Fail(f)
    else
      var cur := if f.obj.None? then Some(0.0) else h.parseFloat(f.obj.value.value.bytes);
      var sum := if cur.None? then None else h.addFloat(cur.value, amount);
      if sum.None? then Fail(f)
      else
        var rendered := h.renderFloat(sum.value);
        var ttl := if f.obj.Some? then f.obj.value.expireAt else 0;
        Done(f, f.state[slot := Object(Str(rendered), ttl)], db, SetEffect(key, rendered, 0, true))
  }

  function ExecAppend(h: Host, env: Env, st: State, db: nat, key: Bytes, val: Bytes): Outcome {
    var slot := Slot(db, key);
    var f := Lookup(env, st, slot);
    if WrongType(f) then Fail(f)
    else
      var cur := if f.obj.None? then [] else f.obj.value.value.bytes;
      if |cur| + |val| > h.maxLen then Fail(f)
      else
        var ttl := if f.obj.Some? then f.obj.value.expireAt else 0;
        Done(f, f.state[slot := Object(Str(cur + val), ttl)], db, Append(key, val))
  }

  // ------------------------------------------------------------------- list commands

  function Pushed(l: seq<Bytes>, vals: seq<Bytes>, front: bool): seq<Bytes>
    decreases |vals|
  {
    if vals == [] then l
    else Pushed(if front then [vals[0]] + l else l + [vals[0]], vals[1..], front)
  }

  function Popped(l: seq<Bytes>, count: nat, front: bool): seq<Bytes> {
    var n := if count < |l| then count else |l|;
    if front then l[n..] else l[..|l| - n]
  }

  function StoreList(st: State, slot: Slot, l: seq<Bytes>, ttl: int): State {
    if l == [] then st - {slot} else st[slot := Object(Lst(l), ttl)]
  }

  predicate NotList(f: Found) {
    f.obj.Some? && !f.obj.value.value.Lst?
  }

  function ExecPush(env: Env, st: State, db: nat, c: Command): Outcome
    requires c.Push?
  {
    var slot := Slot(db, c.key);
    var f := Lookup(env, st, slot);
    if NotList(f) then Fail(f)
    else if f.obj.None? && c.mustExist then Nothing(f)
    else
      var l := Pushed(if f.obj.Some? then f.obj.value.value.elems else [], c.vals, c.front);
      var ttl := if f.obj.Some? then f.obj.value.expireAt else 0;
      if l == [] then Outcome(f.state - {slot}, true, f.effects)
      else Done(f, f.state[slot := Object(Lst(l), ttl)], db, c)
  }

  function ExecPop(env: Env, st: State, db: nat, c: Command): Outcome
    requires c.Pop?
  {
    var slot := Slot(db, c.key);
    var f := Lookup(env, st, slot);
    if NotList(f) then Fail(f)
    else if f.obj.None? || c.count == 0 || f.obj.value.value.elems == [] then Nothing(f)
    else
      var l := Popped(f.obj.value.value.elems, c.count, c.front);
      Done(f, StoreList(f.state, slot, l, f.obj.value.expireAt), db, c)
  }

  /** LMOVE of a list onto itself. */
  function MoveWithin(f: Found, db: nat, c: Command): Outcome
    requires c.LMove? && f.obj.Some? && f.obj.value.value.Lst?
  {
    var from := f.obj.value.value.elems;
    if from == [] then Nothing(f)
    else
      var v := if c.srcFront then from[0] else from[|from| - 1];
      var l := Pushed(Popped(from, 1, c.srcFront), [v], c.dstFront);
      Done(f, f.state[Slot(db, c.src) := Object(Lst(l), f.obj.value.expireAt)], db, c)
  }

  /** LMOVE between two keys. */
  function MoveAcross(env: Env, f: Found, db: nat, c: Command): Outcome
    requires c.LMove? && f.obj.Some? && f.obj.value.value.Lst?
  {
    var from := f.obj.value.value.elems;
    var g := Lookup(env, f.state, Slot(db, c.dst));
    var both := Found(g.state, g.obj, f.effects + g.effects);
    if NotList(g) then Fail(both)
    else if from == [] then Nothing(both)
    else
      var v := if c.srcFront then from[0] else from[|from| - 1];
      var l := Pushed(if g.obj.Some? then g.obj.value.value.elems else [], [v], c.dstFront);
      var ttl := if g.obj.Some? then g.obj.value.expireAt else 0;
      var st' := g.state[Slot(db, c.dst) := Object(Lst(l), ttl)];
      Done(both, StoreList(st', Slot(db, c.src), Popped(from, 1, c.srcFront), f.obj.value.expireAt), db, c)
  }

  function ExecLMove(env: Env, st: State, db: nat, c: Command): Outcome
    requires c.LMove?
  {
    var f := Lookup(env, st, Slot(db, c.src));
    if NotList(f) then Fail(f)
    else if f.obj.None? then Nothing(f)
    else if c.src == c.dst then MoveWithin(f, db, c)
    else MoveAcross(env, f, db, c)
  }

  // ---------------------------------------------------------------- keyspace commands

  /** The loop of Del: reap or remove each key; `count` is how many were there. */
  datatype Deleted = Deleted(state: State, count: nat, effects: seq<Effect>)

  function DelAll(env: Env, st: State, db: nat, keys: seq<Bytes>): Deleted
    decreases |keys|
  {
    if keys == [] then Deleted(st, 0, [])
    else
      var f := Lookup(env, st, Slot(db, keys[0]));
      var rest := DelAll(env, f.state - {Slot(db, keys[0])}, db, keys[1..]);
      Deleted(rest.state, rest.count + (if f.obj.Some? then 1 else 0), f.effects + rest.effects)
  }

  function ExecDel(env: Env, st: State, db: nat, keys: seq<Bytes>): Outcome {
    var d := DelAll(env, st, db, keys);
    Outcome(d.state, true, d.effects + (if d.count > 0 then [Effect(db, Del(keys))] else []))
  }

  function ExecRename(env: Env, st: State, db: nat, c: Command): Outcome
    requires c.Rename?
  {
    var s, d := Slot(db, c.src), Slot(db, c.dst);
    var f := Lookup(env, st, s);
    if f.obj.None? then Fail(f)
    else
      var g := if c.unless then Lookup(env, f.state, d) else Found(f.state, None, []);
      var both := Found(g.state, g.obj, f.effects + g.effects);
      if c.unless && g.obj.Some? then Nothing(both)
      else
        var st' := if s == d then g.state else (g.state - {s})[d := f.obj.value];
        Done(both, st', db, Rename(c.src, c.dst, false))
  }

  function ExecCopy(env: Env, st: State, db: nat, c: Command): Outcome
    requires c.Copy?
  {
    var s, d := Slot(db, c.src), Slot(c.destDb, c.dst);
    if s == d then Outcome(st, false, [])
    else
      var f := Lookup(env, st, s);
      if f.obj.None? then Nothing(f)
      else
        var g := if c.replace then Found(f.state, None, []) else Lookup(env, f.state, d);
        var both := Found(g.state, g.obj, f.effects + g.effects);
        if !c.replace && g.obj.Some? then Nothing(both)
        else Done(both, g.state[d := f.obj.value], db, c.(replace := true))
  }

  function ExecExpire(env: Env, st: State, db: nat, c: Command): Outcome
    requires c.Expire?
  {
    var at := Absolute(c.at, env.now);
    if at.None? then Outcome(st, false, [])
    else
      var slot := Slot(db, c.key);
      var f := Lookup(env, st, slot);
      if f.obj.None? || !ConditionMet(f.obj.value.expireAt, at.value, c.cond) then Nothing(f)
      else if at.value <= env.now && !env.loading then Done(f, f.state - {slot}, db, Del([c.key]))
      else Done(f, f.state[slot := f.obj.value.(expireAt := at.value)], db, Expire(c.key, PXAT(at.value), Always))
  }

  function ExecPersist(env: Env, st: State, db: nat, key: Bytes): Outcome {
    var slot := Slot(db, key);
    var f := Lookup(env, st, slot);
    if f.obj.None? || f.obj.value.expireAt == 0 then Nothing(f)
    else Done(f, f.state[slot := f.obj.value.(expireAt := 0)], db, Persist(key))
  }

  /** One write command, with the clock read once. */
  function Exec(h: Host, env: Env, st: State, db: nat, c: Command): Outcome {
    match c
    case Set(_, _, _, _, _, _, _) => ExecSet(h, env, st, db, c)
    case GetDel(key) => ExecGetDel(env, st, db, key)
    case GetEx(_, _, _) => ExecGetEx(env, env.now, st, db, c)
    case MSet(pairs) => Outcome(StoreAll(st, db, pairs), true, [Effect(db, c)])
    case MSetNX(pairs) => ExecMSetNX(env, st, db, pairs)
    case IncrBy(key, delta) => ExecIncrBy(h, env, st, db, key, delta)
    case IncrByFloat(key, amount) => ExecIncrByFloat(h, env, st, db, key, amount)
    case Append(key, val) => ExecAppend(h, env, st, db, key, val)
    case Push(_, _, _, _) => ExecPush(env, st, db, c)
    case Pop(_, _, _) => ExecPop(env, st, db, c)
    case LMove(_, _, _, _) => ExecLMove(env, st, db, c)
    case Del(keys) => ExecDel(env, st, db, keys)
    case Rename(_, _, _) => ExecRename(env, st, db, c)
    case Copy(_, _, _, _) => ExecCopy(env, st, db, c)
    case Expire(_, _, _) => ExecExpire(env, st, db, c)
    case Persist(key) => ExecPersist(env, st, db, key)
  }

  /** expireSample over the sampled keys, and eviction of a key whatever its TTL. */
  function Reap(env: Env, st: State, sample: seq<Slot>): (State, seq<Effect>)
    decreases |sample|
  {
    if sample == [] then (st, [])
    else
      var f := Lookup(env, st, sample[0]);
      var (rest, effs) := Reap(env, f.state, sample[1..]);
      (rest, f.effects + effs)
  }

  function Evict(st: State, slot: Slot): (State, seq<Effect>) {
    if slot in st then (st - {slot}, [Effect(slot.db, Del([slot.key]))]) else (st, [])
  }

  /** The arity check every command passes before its handler runs. */
  predicate Arity(c: Command) {
    match c
    case Push(_, vals, _, _) => vals != []
    case Del(keys) => keys != []
    case MSet(pairs) => pairs != []
    case MSetNX(pairs) => pairs != []
    case _ => true
  }

  // ---------------------------------------------------------------------------- replay

  /** Apply elements one after the other, stopping at the first failure. */
  function Runs<S, E>(step: (nat, S, E) -> Option<S>, st: S, es: seq<E>, i: nat): Option<S>
    decreases |es|
  {
    if es == [] then Some(st)
    else
      match step(i, st, es[0])
      case None => None
      case Some(next) => Runs(step, next, es[1..], i + 1)
  }

  /** One effect through its handler in loading mode, at wall clock `clock(i)`. */
  function ReplayOne(h: Host, clock: nat -> int): (nat, State, Effect) -> Option<State> {
    (i: nat, st: State, e: Effect) =>
      var o := Exec(h, Env(clock(i), true), st, e.db, e.cmd);
      if o.ok then Some(o.state) else None
  }

  /** Replaying effects in loading mode; `clock(i)` is the wall clock when effect
      `i` is replayed.  `None` is a replay error. */
  function Replay(h: Host, st: State, effects: seq<Effect>, clock: nat -> int, i: nat): Option<State> {
    Runs(ReplayOne(h, clock), st, effects, i)
  }
}
