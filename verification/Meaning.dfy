/** What each write command does to the keyspace, said of the keys and not of the handlers
    (engine/string.go, engine/list.go, engine/generic.go, engine/expire.go,
    command/string.go). */
module Meaning {
  import opened Options
  import opened Seqs
  import opened Commands

  /** A command finds a key that is stored and whose deadline, if it has one, is still to
      come.  While a log is being loaded deadlines wait. */
  ghost predicate Live(env: Env, st: State, slot: Slot) {
    slot in st && (env.loading || st[slot].expireAt == 0 || env.now < st[slot].expireAt)
  }

  /** Only these slots may differ. */
  ghost predicate OnlyAt(st: State, st': State, slots: set<Slot>) {
    forall s: Slot | s !in slots :: (s in st <==> s in st') && (s in st ==> st'[s] == st[s])
  }

  /** Nothing has happened, except that keys past due among these may have been reaped. */
  ghost predicate Idle(env: Env, st: State, st': State, slots: set<Slot>) {
    && OnlyAt(st, st', slots)
    && forall s | s in slots :: (Live(env, st, s) ==> s in st') && (s in st' ==> s in st && st'[s] == st[s])
  }

  ghost predicate Has(st: State, slot: Slot, v: Value, expireAt: int) {
    slot in st && st[slot] == Object(v, expireAt)
  }

  ghost predicate StringAt(env: Env, st: State, slot: Slot) {
    Live(env, st, slot) && st[slot].value.Str?
  }

  /** A live key of another type. */
  ghost predicate Other(env: Env, st: State, slot: Slot) {
    Live(env, st, slot) && !st[slot].value.Str?
  }

  ghost predicate OtherThanList(env: Env, st: State, slot: Slot) {
    Live(env, st, slot) && !st[slot].value.Lst?
  }

  /** The deadline a live key has; a new key has none. */
  ghost function Kept(env: Env, st: State, slot: Slot): int {
    if Live(env, st, slot) then st[slot].expireAt else 0
  }

  // ----------------------------------------------------------------------- deadlines

  /** What the four spellings say, in milliseconds. */
  function Says(e: Expiry, now: int): int {
    match e
    case EX(n) => now + 1000 * n
    case PX(n) => now + n
    case EXAT(n) => 1000 * n
    case PXAT(n) => n
  }

  predicate Int64(n: int) {
    MinInt64 <= n <= MaxInt64
  }

  /** A deadline the command accepts: a relative one lies ahead, and all are positive
      64-bit numbers. */
  predicate Sayable(e: Expiry, now: int) {
    ((e.EX? || e.PX?) ==> e.n > 0) && 0 < Says(e, now) <= MaxInt64
  }

  /** absoluteExpiry accepts exactly the sayable deadlines, and gives what they say. */
  lemma DeadlineIs(e: Expiry, now: int)
    requires Int64(e.n) && 0 <= now <= MaxInt64
    ensures Absolute(e, now) == if Sayable(e, now) then Some(Says(e, now)) else None
  {
  }

  /** An option that is absent or accepted, at a clock a process can have. */
  ghost predicate Clocked(env: Env, exp: Option<Expiry>) {
    0 <= env.now <= MaxInt64 && (exp.Some? ==> Int64(exp.value.n))
  }

  // ------------------------------------------------------------------ string commands

  /** SET: NX stores only where nothing is, XX only where something is; the deadline is
      the one given, the old one under KEEPTTL, or none. */
  lemma SetMeans(h: Host, env: Env, st: State, db: nat, c: Command)
    requires c.Set? && Clocked(env, c.exp)
    ensures var o, slot := Exec(h, env, st, db, c), Slot(db, c.key);
            var live := Live(env, st, slot);
            var refused := (c.nx && c.xx) || (c.keepTTL && c.exp.Some?) || (c.exp.Some? && !Sayable(c.exp.value, env.now))
                           || |c.val| > h.maxLen || (c.get && Other(env, st, slot));
            && o.ok == !refused
            && (if refused || (c.nx && live) || (c.xx && !live) then Idle(env, st, o.state, {slot})
                else && OnlyAt(st, o.state, {slot})
                     && Has(o.state, slot, Str(c.val),
                            if c.exp.Some? then Says(c.exp.value, env.now) else if c.keepTTL then Kept(env, st, slot) else 0))
  {
    if c.exp.Some? {
      DeadlineIs(c.exp.value, env.now);
    }
  }

  lemma GetDelMeans(h: Host, env: Env, st: State, db: nat, key: Bytes)
    ensures var o, slot := Exec(h, env, st, db, GetDel(key)), Slot(db, key);
            && o.ok == !Other(env, st, slot)
            && (if StringAt(env, st, slot) then OnlyAt(st, o.state, {slot}) && slot !in o.state
                else Idle(env, st, o.state, {slot}))
  {
  }

  /** GETEX: the value stays; its deadline is cleared, or becomes the one given, which
      removes the key if it has passed. */
  lemma GetExMeans(h: Host, env: Env, st: State, db: nat, c: Command)
    requires c.GetEx? && Clocked(env, c.exp)
    ensures var o, slot := Exec(h, env, st, db, c), Slot(db, c.key);
            var refused := (c.persist && c.exp.Some?) || (c.exp.Some? && !Sayable(c.exp.value, env.now)) || Other(env, st, slot);
            && o.ok == !refused
            && (if refused || !Live(env, st, slot) || (!c.persist && c.exp.None?) then Idle(env, st, o.state, {slot})
                else && OnlyAt(st, o.state, {slot})
                     && (if c.persist then Has(o.state, slot, st[slot].value, 0)
                         else if Says(c.exp.value, env.now) <= env.now then slot !in o.state
                         else Has(o.state, slot, st[slot].value, Says(c.exp.value, env.now))))
  {
    if c.exp.Some? {
      DeadlineIs(c.exp.value, env.now);
    }
  }

  /** The last value given for a key is the one it has. */
  ghost predicate Stored(st: State, st': State, db: nat, pairs: seq<(Bytes, Bytes)>) {
    && OnlyAt(st, st', set p | p in pairs :: Slot(db, p.0))
    && forall i | 0 <= i < |pairs| && (forall j | i < j < |pairs| :: pairs[j].0 != pairs[i].0) ::
         Has(st', Slot(db, pairs[i].0), Str(pairs[i].1), 0)
  }

  lemma {:induction false} StoreAllIs(st: State, db: nat, pairs: seq<(Bytes, Bytes)>)
    ensures Stored(st, StoreAll(st, db, pairs), db, pairs)
    decreases |pairs|
  {
    if pairs != [] {
      var mid, rest := st[Slot(db, pairs[0].0) := Object(Str(pairs[0].1), 0)], pairs[1..];
      var st' := StoreAll(st, db, pairs);
      StoreAllIs(mid, db, rest);
      forall s: Slot | s !in (set p | p in pairs :: Slot(db, p.0)) ensures (s in st <==> s in st') && (s in st ==> st'[s] == st[s]) {
        assert s !in (set p | p in rest :: Slot(db, p.0));
        assert pairs[0] in pairs;
      }
      forall i | 0 <= i < |pairs| && (forall j | i < j < |pairs| :: pairs[j].0 != pairs[i].0)
        ensures Has(st', Slot(db, pairs[i].0), Str(pairs[i].1), 0)
      {
        if i > 0 {
          assert rest[i - 1] == pairs[i];
        } else {
          forall p | p in rest ensures p.0 != pairs[0].0 {
            var j :| 0 <= j < |rest| && rest[j] == p;
            assert pairs[j + 1] == p;
          }
          assert Slot(db, pairs[0].0) !in (set p | p in rest :: Slot(db, p.0));
        }
      }
    }
  }

  lemma MSetMeans(h: Host, env: Env, st: State, db: nat, pairs: seq<(Bytes, Bytes)>)
    ensures var o := Exec(h, env, st, db, MSet(pairs)); o.ok && Stored(st, o.state, db, pairs)
  {
    StoreAllIs(st, db, pairs);
  }

  /** A lookup says whether a key is live, and reaps it if it is past due. */
  lemma LookupIs(env: Env, st: State, slot: Slot)
    ensures var f := Lookup(env, st, slot);
            && f.obj == (if Live(env, st, slot) then Some(st[slot]) else None)
            && Idle(env, st, f.state, {slot})
            && forall s: Slot :: Live(env, f.state, s) <==> Live(env, st, s)
  {
  }

  lemma IdleTwice(env: Env, a: State, b: State, c: State, s: set<Slot>, t: set<Slot>)
    requires Idle(env, a, b, s) && Idle(env, b, c, t) && forall x: Slot :: Live(env, b, x) <==> Live(env, a, x)
    ensures Idle(env, a, c, s + t)
  {
  }

  lemma {:induction false} NoneExistIs(env: Env, st: State, db: nat, pairs: seq<(Bytes, Bytes)>)
    ensures var f := NoneExist(env, st, db, pairs);
            && (f.obj.None? <==> forall p | p in pairs :: !Live(env, st, Slot(db, p.0)))
            && Idle(env, st, f.state, set p | p in pairs :: Slot(db, p.0))
    decreases |pairs|
  {
    var all := set p | p in pairs :: Slot(db, p.0);
    if pairs != [] {
      var slot, rest := Slot(db, pairs[0].0), pairs[1..];
      var f := Lookup(env, st, slot);
      LookupIs(env, st, slot);
      assert pairs[0] in pairs && forall p :: p in pairs <==> p == pairs[0] || p in rest;
      var others := set p | p in rest :: Slot(db, p.0);
      assert all == {slot} + others;
      if f.obj.None? {
        NoneExistIs(env, f.state, db, rest);
        IdleTwice(env, st, f.state, NoneExist(env, f.state, db, rest).state, {slot}, others);
      }
    }
  }

  /** MSETNX: all of them if none of them is there, and otherwise nothing. */
  lemma MSetNXMeans(h: Host, env: Env, st: State, db: nat, pairs: seq<(Bytes, Bytes)>)
    ensures var o := Exec(h, env, st, db, MSetNX(pairs));
            && o.ok
            && (if exists p :: p in pairs && Live(env, st, Slot(db, p.0))
                then Idle(env, st, o.state, set p | p in pairs :: Slot(db, p.0))
                else Stored(st, o.state, db, pairs))
  {
    var f := NoneExist(env, st, db, pairs);
    NoneExistIs(env, st, db, pairs);
    if f.obj.None? {
      StoreAllIs(f.state, db, pairs);
    }
  }

  /** INCRBY: old plus delta, 0 for a missing key; an error if that is no integer or does
      not fit 64 bits. */
  lemma IncrByMeans(h: Host, env: Env, st: State, db: nat, key: Bytes, delta: int)
    requires Int64(delta) && forall b | h.parseInt(b).Some? :: Int64(h.parseInt(b).value)
    ensures var o, slot := Exec(h, env, st, db, IncrBy(key, delta)), Slot(db, key);
            var cur := if !Live(env, st, slot) then Some(0)
                       else if st[slot].value.Str? then h.parseInt(st[slot].value.bytes) else None;
            && o.ok == (cur.Some? && Int64(cur.value + delta))
            && (if o.ok then OnlyAt(st, o.state, {slot}) && Has(o.state, slot, Str(h.renderInt(cur.value + delta)), Kept(env, st, slot))
                else Idle(env, st, o.state, {slot}))
  {
  }

  lemma IncrByFloatMeans(h: Host, env: Env, st: State, db: nat, key: Bytes, amount: real)
    ensures var o, slot := Exec(h, env, st, db, IncrByFloat(key, amount)), Slot(db, key);
            var cur := if !Live(env, st, slot) then Some(0.0)
                       else if st[slot].value.Str? then h.parseFloat(st[slot].value.bytes) else None;
            && o.ok == (cur.Some? && h.addFloat(cur.value, amount).Some?)
            && (if o.ok then && OnlyAt(st, o.state, {slot})
                             && Has(o.state, slot, Str(h.renderFloat(h.addFloat(cur.value, amount).value)), Kept(env, st, slot))
                else Idle(env, st, o.state, {slot}))
  {
  }

  /** APPEND: the old bytes, then the new ones. */
  lemma AppendMeans(h: Host, env: Env, st: State, db: nat, key: Bytes, val: Bytes)
    ensures var o, slot := Exec(h, env, st, db, Append(key, val)), Slot(db, key);
            var cur := if StringAt(env, st, slot) then st[slot].value.bytes else [];
            && o.ok == (!Other(env, st, slot) && |cur| + |val| <= h.maxLen)
            && (if !o.ok then Idle(env, st, o.state, {slot})
                else && OnlyAt(st, o.state, {slot})
                     && Has(o.state, slot, Str(cur + val), Kept(env, st, slot)))
  {
  }

  // -------------------------------------------------------------------- list commands

  /** `old_` with v1, v2, ... pushed one after the other: at the front they stand in
      reverse. */
  ghost predicate PushedTo(old_: seq<Bytes>, vals: seq<Bytes>, front: bool, l: seq<Bytes>) {
    && |l| == |old_| + |vals|
    && (forall i | 0 <= i < |vals| :: l[if front then |vals| - 1 - i else |old_| + i] == vals[i])
    && (forall i | 0 <= i < |old_| :: l[if front then |vals| + i else i] == old_[i])
  }

  function Backwards(vals: seq<Bytes>): seq<Bytes> {
    seq(|vals|, i requires 0 <= i < |vals| => vals[|vals| - 1 - i])
  }

  lemma {:induction false} PushedBack(old_: seq<Bytes>, vals: seq<Bytes>)
    ensures Pushed(old_, vals, false) == old_ + vals
    decreases |vals|
  {
    if vals != [] {
      PushedBack(old_ + [vals[0]], vals[1..]);
      assert old_ + [vals[0]] + vals[1..] == old_ + vals;
    }
  }

  lemma {:induction false} PushedFront(old_: seq<Bytes>, vals: seq<Bytes>)
    ensures Pushed(old_, vals, true) == Backwards(vals) + old_
    decreases |vals|
  {
    if vals != [] {
      PushedFront([vals[0]] + old_, vals[1..]);
      assert Backwards(vals[1..]) + ([vals[0]] + old_) == Backwards(vals) + old_;
    }
  }

  lemma PushedIs(old_: seq<Bytes>, vals: seq<Bytes>, front: bool)
    ensures PushedTo(old_, vals, front, Pushed(old_, vals, front))
  {
    if front {
      PushedFront(old_, vals);
    } else {
      PushedBack(old_, vals);
    }
  }

  /** The list at a key; nothing is an empty one. */
  ghost function ListAt(env: Env, st: State, slot: Slot): seq<Bytes> {
    if Live(env, st, slot) && st[slot].value.Lst? then st[slot].value.elems else []
  }

  /** PUSH at either end; the X forms need the key to be there. */
  lemma PushMeans(h: Host, env: Env, st: State, db: nat, c: Command) returns (l: seq<Bytes>)
    requires c.Push? && Arity(c)
    ensures PushedTo(ListAt(env, st, Slot(db, c.key)), c.vals, c.front, l)
    ensures var o, slot := Exec(h, env, st, db, c), Slot(db, c.key);
            && o.ok == !OtherThanList(env, st, slot)
            && (if !o.ok || (c.mustExist && !Live(env, st, slot)) then Idle(env, st, o.state, {slot})
                else OnlyAt(st, o.state, {slot}) && Has(o.state, slot, Lst(l), Kept(env, st, slot)))
  {
    var old_ := ListAt(env, st, Slot(db, c.key));
    l := Pushed(old_, c.vals, c.front);
    PushedIs(old_, c.vals, c.front);
  }

  /** What is left of a list when its first or last `n` elements are gone. */
  ghost predicate LeftOf(old_: seq<Bytes>, n: nat, front: bool, l: seq<Bytes>) {
    && |l| == (if n < |old_| then |old_| - n else 0)
    && forall i | 0 <= i < |l| :: l[i] == old_[if front then n + i else i]
  }

  /** A key with this list; an empty list is no key. */
  ghost predicate HasList(st: State, slot: Slot, l: seq<Bytes>, expireAt: int) {
    if l == [] then slot !in st else Has(st, slot, Lst(l), expireAt)
  }

  lemma PopMeans(h: Host, env: Env, st: State, db: nat, c: Command) returns (l: seq<Bytes>)
    requires c.Pop?
    ensures LeftOf(ListAt(env, st, Slot(db, c.key)), c.count, c.front, l)
    ensures var o, slot := Exec(h, env, st, db, c), Slot(db, c.key);
            && o.ok == !OtherThanList(env, st, slot)
            && (if c.count == 0 || ListAt(env, st, slot) == [] then Idle(env, st, o.state, {slot})
                else OnlyAt(st, o.state, {slot}) && HasList(o.state, slot, l, Kept(env, st, slot)))
  {
    l := Popped(ListAt(env, st, Slot(db, c.key)), c.count, c.front);
  }

  /** LMOVE between two keys that may go ahead: the element to move, what is left, and
      what the destination gets. */
  lemma Moves(env: Env, st: State, db: nat, c: Command, v: Bytes)
    requires c.LMove? && c.src != c.dst && !OtherThanList(env, st, Slot(db, c.dst))
    requires var from := ListAt(env, st, Slot(db, c.src)); from != [] && v == from[if c.srcFront then 0 else |from| - 1]
    ensures var o, s, d := ExecLMove(env, st, db, c), Slot(db, c.src), Slot(db, c.dst);
            && o.ok && OnlyAt(st, o.state, {s, d})
            && HasList(o.state, s, Popped(ListAt(env, st, s), 1, c.srcFront), Kept(env, st, s))
            && Has(o.state, d, Lst(Pushed(ListAt(env, st, d), [v], c.dstFront)), Kept(env, st, d))
  {
    var s, d := Slot(db, c.src), Slot(db, c.dst);
    LookupIs(env, st, s);
    assert Lookup(env, st, s) == Found(st, Some(st[s]), []);
    LookupIs(env, st, d);
    var g := Lookup(env, st, d);
    var l := Pushed(ListAt(env, st, d), [v], c.dstFront);
    var st' := g.state[d := Object(Lst(l), Kept(env, st, d))];
    assert ExecLMove(env, st, db, c).state == StoreList(st', s, Popped(ListAt(env, st, s), 1, c.srcFront), st[s].expireAt);
  }

  /** ... and that may not. */
  lemma StaysPut(env: Env, st: State, db: nat, c: Command)
    requires c.LMove? && c.src != c.dst
    requires OtherThanList(env, st, Slot(db, c.dst)) || ListAt(env, st, Slot(db, c.src)) == []
    ensures var o, s, d := ExecLMove(env, st, db, c), Slot(db, c.src), Slot(db, c.dst);
            && o.ok == !(OtherThanList(env, st, s) || (Live(env, st, s) && OtherThanList(env, st, d)))
            && Idle(env, st, o.state, {s, d})
  {
    LookupIs(env, st, Slot(db, c.src));
    LookupIs(env, st, Slot(db, c.dst));
  }

  /** LMOVE between two keys: the end named of the source goes to the end named of the
      destination. */
  lemma LMoveMeans(h: Host, env: Env, st: State, db: nat, c: Command) returns (left: seq<Bytes>, got: seq<Bytes>)
    requires c.LMove? && c.src != c.dst
    ensures var from, to := ListAt(env, st, Slot(db, c.src)), ListAt(env, st, Slot(db, c.dst));
            && LeftOf(from, 1, c.srcFront, left)
            && (from != [] ==> PushedTo(to, [from[if c.srcFront then 0 else |from| - 1]], c.dstFront, got))
    ensures var o, s, d := Exec(h, env, st, db, c), Slot(db, c.src), Slot(db, c.dst);
            var from := ListAt(env, st, s);
            && o.ok == !(OtherThanList(env, st, s) || (Live(env, st, s) && OtherThanList(env, st, d)))
            && (if !o.ok || from == [] then Idle(env, st, o.state, {s, d})
                else && OnlyAt(st, o.state, {s, d})
                     && HasList(o.state, s, left, Kept(env, st, s)) && Has(o.state, d, Lst(got), Kept(env, st, d)))
  {
    var s, d := Slot(db, c.src), Slot(db, c.dst);
    var from, to := ListAt(env, st, s), ListAt(env, st, d);
    left := Popped(from, 1, c.srcFront);
    var v := if from == [] then [] else from[if c.srcFront then 0 else |from| - 1];
    got := Pushed(to, [v], c.dstFront);
    PushedIs(to, [v], c.dstFront);
    assert Exec(h, env, st, db, c) == ExecLMove(env, st, db, c);
    if from != [] && !OtherThanList(env, st, d) {
      Moves(env, st, db, c, v);
    } else {
      StaysPut(env, st, db, c);
    }
  }

  /** LMOVE of a list onto itself turns it, or leaves it as it is. */
  lemma RotateMeans(h: Host, env: Env, st: State, db: nat, c: Command) returns (left: seq<Bytes>, got: seq<Bytes>)
    requires c.LMove? && c.src == c.dst
    ensures var from := ListAt(env, st, Slot(db, c.src));
            && LeftOf(from, 1, c.srcFront, left)
            && (from != [] ==> PushedTo(left, [from[if c.srcFront then 0 else |from| - 1]], c.dstFront, got))
    ensures var o, s := Exec(h, env, st, db, c), Slot(db, c.src);
            && o.ok == !OtherThanList(env, st, s)
            && (if ListAt(env, st, s) == [] then Idle(env, st, o.state, {s})
                else OnlyAt(st, o.state, {s}) && Has(o.state, s, Lst(got), Kept(env, st, s)))
  {
    var from := ListAt(env, st, Slot(db, c.src));
    left := Popped(from, 1, c.srcFront);
    var v := if from == [] then [] else from[if c.srcFront then 0 else |from| - 1];
    got := Pushed(left, [v], c.dstFront);
    PushedIs(left, [v], c.dstFront);
  }

  // ----------------------------------------------------------------- keyspace commands

  /** DEL: exactly the keys named are gone. */
  ghost predicate Deletes(st: State, st': State, db: nat, keys: seq<Bytes>) {
    && OnlyAt(st, st', set k | k in keys :: Slot(db, k))
    && forall k | k in keys :: Slot(db, k) !in st'
  }

  lemma {:induction false} DelAllGone(env: Env, st: State, db: nat, keys: seq<Bytes>)
    ensures Deletes(st, DelAll(env, st, db, keys).state, db, keys)
    decreases |keys|
  {
    if keys != [] {
      DelAllGone(env, st - {Slot(db, keys[0])}, db, keys[1..]);
      assert Lookup(env, st, Slot(db, keys[0])).state - {Slot(db, keys[0])} == st - {Slot(db, keys[0])};
      assert forall k :: k in keys <==> k == keys[0] || k in keys[1..];
    }
  }

  ghost function LiveAmong(env: Env, st: State, db: nat, keys: seq<Bytes>): set<Bytes> {
    set k | k in keys && Live(env, st, Slot(db, k))
  }

  lemma LiveAmongCons(env: Env, st: State, db: nat, keys: seq<Bytes>)
    requires keys != []
    ensures var slot := Slot(db, keys[0]);
            var lower := LiveAmong(env, st - {slot}, db, keys[1..]);
            keys[0] !in lower && LiveAmong(env, st, db, keys) == if Live(env, st, slot) then lower + {keys[0]} else lower
  {
    assert forall k :: k in keys <==> k == keys[0] || k in keys[1..];
  }

  /** And the reply counts the live keys among them, each once. */
  lemma {:induction false} DelCounts(env: Env, st: State, db: nat, keys: seq<Bytes>)
    ensures DelAll(env, st, db, keys).count == |LiveAmong(env, st, db, keys)|
    decreases |keys|
  {
    if keys != [] {
      var slot := Slot(db, keys[0]);
      LookupIs(env, st, slot);
      assert Lookup(env, st, slot).state - {slot} == st - {slot};
      DelCounts(env, st - {slot}, db, keys[1..]);
      LiveAmongCons(env, st, db, keys);
    }
  }

  lemma DelMeans(h: Host, env: Env, st: State, db: nat, keys: seq<Bytes>)
    ensures var o := Exec(h, env, st, db, Del(keys)); o.ok && Deletes(st, o.state, db, keys)
  {
    DelAllGone(env, st, db, keys);
  }

  /** RENAME and RENAMENX: the object with its deadline is at the destination and the
      source is empty. */
  lemma RenameMeans(h: Host, env: Env, st: State, db: nat, c: Command)
    requires c.Rename?
    ensures var o, s, d := Exec(h, env, st, db, c), Slot(db, c.src), Slot(db, c.dst);
            && o.ok == Live(env, st, s)
            && (if !o.ok || (c.unless && Live(env, st, d)) then Idle(env, st, o.state, {s, d})
                else && OnlyAt(st, o.state, {s, d})
                     && d in o.state && o.state[d] == st[s] && (s != d ==> s !in o.state))
  {
  }

  /** COPY: the object with its deadline is at both places. */
  lemma CopyMeans(h: Host, env: Env, st: State, db: nat, c: Command)
    requires c.Copy?
    ensures var o, s, d := Exec(h, env, st, db, c), Slot(db, c.src), Slot(c.destDb, c.dst);
            && o.ok == (s != d)
            && (if s == d || !Live(env, st, s) || (!c.replace && Live(env, st, d)) then Idle(env, st, o.state, {s, d})
                else && OnlyAt(st, o.state, {s, d})
                     && s in o.state && o.state[s] == st[s] && d in o.state && o.state[d] == st[s])
  {
  }

  /** No deadline is the latest of all. */
  predicate Later(a: int, b: int) {
    b != 0 && (a == 0 || a > b)
  }

  /** EXPIRE and its kin: the value stays and the deadline becomes the one given; GT only
      if that is later, LT only if it is earlier, NX only if there was none, XX only if
      there was one; a deadline that has passed removes the key. */
  lemma ExpireMeans(h: Host, env: Env, st: State, db: nat, c: Command)
    requires c.Expire? && Clocked(env, Some(c.at))
    ensures var o, slot := Exec(h, env, st, db, c), Slot(db, c.key);
            && o.ok == Sayable(c.at, env.now)
            && (o.ok ==>
                  var at, cur := Says(c.at, env.now), Kept(env, st, slot);
                  (if || !Live(env, st, slot) || (c.cond == GT && !Later(at, cur)) || (c.cond == LT && !Later(cur, at))
                         || (c.cond == NX && cur != 0) || (c.cond == XX && cur == 0)
                      then Idle(env, st, o.state, {slot})
                      else && OnlyAt(st, o.state, {slot})
                           && (if at <= env.now && !env.loading then slot !in o.state
                               else Has(o.state, slot, st[slot].value, at))))
            && (!o.ok ==> o.state == st)
  {
    DeadlineIs(c.at, env.now);
  }

  /** So GT never lowers a deadline, and LT never raises one. */
  lemma OnlyThatWay(h: Host, env: Env, st: State, db: nat, c: Command)
    requires c.Expire? && Clocked(env, Some(c.at))
    ensures var o, slot := Exec(h, env, st, db, c), Slot(db, c.key);
            Live(env, st, slot) && slot in o.state ==>
              && (c.cond == GT ==> !Later(st[slot].expireAt, o.state[slot].expireAt))
              && (c.cond == LT ==> !Later(o.state[slot].expireAt, st[slot].expireAt))
  {
    ExpireMeans(h, env, st, db, c);
  }

  lemma PersistMeans(h: Host, env: Env, st: State, db: nat, key: Bytes)
    ensures var o, slot := Exec(h, env, st, db, Persist(key)), Slot(db, key);
            && o.ok
            && (if Live(env, st, slot) then OnlyAt(st, o.state, {slot}) && Has(o.state, slot, st[slot].value, 0)
                else Idle(env, st, o.state, {slot}))
  {
  }

  // ------------------------------------------------------------------------ and reads

  /** A read sees a live key's object, and nothing else. */
  lemma PeekMeans(env: Env, st: State, slot: Slot)
    ensures Peek(env, st, slot) == if Live(env, st, slot) then Some(st[slot]) else None
  {
  }

  /** Active expiry removes exactly the sampled keys that are stored and not live. */
  lemma {:induction false} ReapMeans(env: Env, st: State, sample: seq<Slot>)
    ensures var st' := Reap(env, st, sample).0;
            forall s: Slot :: && (s in st' <==> s in st && (s in sample ==> Live(env, st, s)))
                              && (s in st' ==> st'[s] == st[s])
    decreases |sample|
  {
    if sample != [] {
      LookupIs(env, st, sample[0]);
      ReapMeans(env, Lookup(env, st, sample[0]).state, sample[1..]);
      assert forall s :: s in sample <==> s == sample[0] || s in sample[1..];
    }
  }

  /** Eviction removes a key whatever its deadline. */
  lemma EvictMeans(st: State, slot: Slot)
    ensures Evict(st, slot).0 == st - {slot}
  {
  }
}
