/** Logged effects, the key specification that locates their keys, and what
    replaying one does to a keyspace (command/replay.go, command/server.go,
    command/table.go).

    Arguments are byte strings in the program.  Nothing here looks inside one
    except the shard hash, so the argument type `A` and the value type `V` are
    left generic, and the command handlers are a parameter: `Semantics`.  Every
    theorem below therefore holds for every set of handlers that meet the
    locality declarations of command/table.go. */
module Records {
  import opened Options
  import opened Arith

  /** Whether a command writes each key only from its arguments and that same
      key (`ShardLocal`), or may read one key to write another. */
  datatype Locality = ShardLocal | CrossShard

  datatype Descriptor = Descriptor(name: string, firstKey: int, lastKey: int, step: int, locality: Locality)

  datatype Ref = Ref(db: nat, shard: nat)

  datatype Slot<A> = Slot(db: nat, key: A)

  type State<A(==), V> = map<Slot<A>, V>

  /** One record of the log; `size` is its encoded length in bytes. */
  datatype Rec<A> = Rec(db: nat, d: Descriptor, args: seq<A>, size: nat)

  /** The handlers.  `update` is what a shard-local command does to one key: the
      command name with that key's argument group, and the key's old value, give
      the new value, or `None` for an error reply.  `whole` is a cross-shard
      command, an arbitrary partial function of the whole keyspace. */
  datatype Semantics<!A(==), !V> = Semantics(
    shardOf: A -> nat,
    update: (Descriptor, seq<A>, Option<V>) -> Option<Option<V>>,
    whole: (Rec<A>, State<A, V>) -> Option<State<A, V>>)

  function Get<A(==), V>(st: State<A, V>, slot: Slot<A>): Option<V> {
    if slot in st then Some(st[slot]) else None
  }

  function Put<A(==), V>(st: State<A, V>, slot: Slot<A>, v: Option<V>): State<A, V> {
    match v
    case Some(x) => st[slot := x]
    case None => st - {slot}
  }

  function RefOf<A(==), V>(sem: Semantics<A, V>, slot: Slot<A>): Ref {
    Ref(slot.db, sem.shardOf(slot.key))
  }

  // ------------------------------------------------------------- key extraction

  function StepOf(d: Descriptor): (s: int)
    ensures s > 0
  {
    if d.step <= 0 then 1 else d.step
  }

  function LastKeyOf(d: Descriptor, n: nat): int {
    var last := if d.lastKey < 0 then n + d.lastKey else d.lastKey;
    if last >= n then n - 1 else last
  }

  function KeysFrom<A>(args: seq<A>, i: nat, last: int, step: int): seq<A>
    requires step > 0 && last < |args|
    decreases last - i
  {
    if i > last then [] else [args[i]] + KeysFrom(args, i + step, last, step)
  }

  /** The keys a command names, by its key specification. */
  function KeysOf<A>(d: Descriptor, args: seq<A>): seq<A> {
    if d.firstKey <= 0 || d.firstKey >= |args| then []
    else KeysFrom(args, d.firstKey, LastKeyOf(d, |args|), StepOf(d))
  }

  /** ExtractKeys: the loop that collects `KeysOf`. */
  method ExtractKeys<A>(d: Descriptor, args: seq<A>) returns (keys: seq<A>)
    ensures keys == KeysOf(d, args)
  {
    if d.firstKey <= 0 || d.firstKey >= |args| {
      return [];
    }
    var last := d.lastKey;
    if last < 0 {
      last := |args| + last;
    }
    if last >= |args| {
      last := |args| - 1;
    }
    var step := d.step;
    if step <= 0 {
      step := 1;
    }
    keys := Collect(args, d.firstKey, last, step);
  }

  method Collect<A>(args: seq<A>, first: nat, last: int, step: int) returns (keys: seq<A>)
    requires step > 0 && last < |args|
    ensures keys == KeysFrom(args, first, last, step)
  {
    keys := [];
    var i := first;
    while i <= last
      invariant keys + KeysFrom(args, i, last, step) == KeysFrom(args, first, last, step)
      decreases last - i
    {
      keys := keys + [args[i]];
      i := i + step;
    }
  }

  lemma {:induction false} KeysFromAt<A>(args: seq<A>, i: nat, last: int, step: int, k: nat)
    requires step > 0 && last < |args| && k <= |KeysFrom(args, i, last, step)|
    ensures k < |KeysFrom(args, i, last, step)| <==> i + k * step <= last
    ensures k < |KeysFrom(args, i, last, step)| ==> KeysFrom(args, i, last, step)[k] == args[i + k * step]
    decreases k
  {
    if k > 0 {
      KeysFromAt(args, i + step, last, step, k - 1);
      assert i + step + (k - 1) * step == i + k * step;
    }
  }

  /** The k-th key is `step` arguments further on than the one before, from the first key
      to the last; a last key of -1 is the last argument, -2 the one before it. */
  lemma KeysAt<A>(d: Descriptor, args: seq<A>, k: nat)
    requires 0 < d.firstKey < |args| && k <= |KeysOf(d, args)|
    ensures var step := if d.step > 1 then d.step else 1;
            var at := d.firstKey + k * step;
            && (k < |KeysOf(d, args)| <==> at < |args| && if d.lastKey >= 0 then at <= d.lastKey else at - |args| <= d.lastKey)
            && (k < |KeysOf(d, args)| ==> KeysOf(d, args)[k] == args[at])
  {
    KeysFromAt(args, d.firstKey, LastKeyOf(d, |args|), StepOf(d), k);
  }

  // -------------------------------------------------------------- argument groups

  /** One key's share of the arguments. */
  datatype Group<A> = Group(key: A, rest: seq<A>) {
    function Args(): seq<A> {
      [key] + rest
    }
  }

  function Chop<A>(args: seq<A>, step: int): seq<Group<A>>
    requires step > 0
  {
    if |args| < step then [] else [Group(args[0], args[1..step])] + Chop(args[step..], step)
  }

  function Flatten<A>(gs: seq<Group<A>>): seq<A> {
    if gs == [] then [] else gs[0].Args() + Flatten(gs[1..])
  }

  ghost predicate AllOf<A>(gs: seq<Group<A>>, step: int) {
    forall i | 0 <= i < |gs| :: |gs[i].rest| + 1 == step
  }

  lemma {:induction false} ChopSizes<A>(args: seq<A>, step: int)
    requires step > 0
    ensures AllOf(Chop(args, step), step)
  {
    if |args| >= step {
      ChopSizes(args[step..], step);
    }
  }

  lemma {:induction false} ChopFlatten<A>(gs: seq<Group<A>>, step: int)
    requires step > 0 && AllOf(gs, step)
    ensures Chop(Flatten(gs), step) == gs
    ensures Whole(|Flatten(gs)|, step)
  {
    if gs != [] {
      var tail := Flatten(gs[1..]);
      ChopFlatten(gs[1..], step);
      assert |gs[0].rest| + 1 == step;
      assert Flatten(gs)[1..step] == gs[0].rest;
      assert Flatten(gs)[step..] == tail;
    }
  }

  /** And whole groups, chopped and flattened, are the arguments again. */
  lemma {:induction false} FlattenChop<A>(args: seq<A>, step: int)
    requires step > 0 && Whole(|args|, step)
    ensures Flatten(Chop(args, step)) == args
    decreases |args|
  {
    if args != [] {
      var gs := Chop(args, step);
      FlattenChop(args[step..], step);
      assert gs[0].Args() == args[..step] && gs[1..] == Chop(args[step..], step);
    }
  }

  /** `n` arguments are whole groups of `step`: n % step == 0 (see `WholeIsMod`),
      unfolded one group at a time. */
  predicate Whole(n: nat, step: int)
    requires step > 0
  {
    n == 0 || (n >= step && Whole(n - step, step))
  }

  lemma {:induction false} WholeIsMod(n: nat, step: int)
    requires step > 0
    ensures Whole(n, step) <==> n % step == 0
  {
    if n >= step {
      WholeIsMod(n - step, step);
      ModStep(n - step, step);
    }
  }

  /** DEL, UNLINK and MSET: everything after the name is groups of `step`, each
      beginning with its key. */
  predicate GroupShaped(d: Descriptor) {
    d.firstKey == 1 && d.lastKey == -1
  }

  function GroupsOf<A>(d: Descriptor, args: seq<A>): seq<Group<A>>
    requires |args| >= 1
  {
    Chop(args[1..], StepOf(d))
  }

  /** The shape of a logged effect: a cross-shard command, or a shard-local one
      that names one key or is made of whole groups. */
  predicate WellFormed<A>(r: Rec<A>) {
    && |r.args| >= 1
    && (r.d.locality == ShardLocal ==>
          && KeysOf(r.d, r.args) != []
          && (if GroupShaped(r.d) then Whole(|r.args| - 1, StepOf(r.d)) else |KeysOf(r.d, r.args)| == 1))
  }

  // ------------------------------------------------------------------- application

  function ApplyGroup<A(==), V>(sem: Semantics<A, V>, d: Descriptor, db: nat, args: seq<A>, key: A, st: State<A, V>)
    : Option<State<A, V>>
  {
    match sem.update(d, args, Get(st, Slot(db, key)))
    case None => None
    case Some(v) => Some(Put(st, Slot(db, key), v))
  }

  function ApplyGroups<A(==), V>(sem: Semantics<A, V>, d: Descriptor, db: nat, name: A, gs: seq<Group<A>>, st: State<A, V>)
    : Option<State<A, V>>
  {
    if gs == [] then Some(st) else
      match ApplyGroup(sem, d, db, [name] + gs[0].Args(), gs[0].key, st)
      case None => None
      case Some(next) => ApplyGroups(sem, d, db, name, gs[1..], next)
  }

  /** Replayer.run: execute the handler of a record on a keyspace.  A record that
      is not well formed gets an error reply. */
  function Run<A(==), V>(sem: Semantics<A, V>, r: Rec<A>, st: State<A, V>): Option<State<A, V>>
  {
    if !WellFormed(r) then None
    else if r.d.locality == CrossShard then sem.whole(r, st)
    else if GroupShaped(r.d) then ApplyGroups(sem, r.d, r.db, r.args[0], GroupsOf(r.d, r.args), st)
    else ApplyGroup(sem, r.d, r.db, r.args, KeysOf(r.d, r.args)[0], st)
  }

  /** Replaying a whole log: the state its records describe. */
  function Fold<A(==), V>(sem: Semantics<A, V>, origin: State<A, V>, log: seq<Rec<A>>): Option<State<A, V>>
  {
    if log == [] then Some(origin) else
      match Fold(sem, origin, log[..|log| - 1])
      case None => None
      case Some(st) => Run(sem, log[|log| - 1], st)
  }

  // ------------------------------------------------------------- agreement by shard

  ghost predicate AgreeOn<A(!new), V>(sem: Semantics<A, V>, s: State<A, V>, t: State<A, V>, ref: Ref) {
    forall slot: Slot<A> :: RefOf(sem, slot) == ref ==> Get(s, slot) == Get(t, slot)
  }

  ghost predicate Agree<A(!new), V>(sem: Semantics<A, V>, s: State<A, V>, t: State<A, V>, want: Ref -> bool) {
    forall ref: Ref | want(ref) :: AgreeOn(sem, s, t, ref)
  }

  lemma AgreeEverywhere<A(!new), V>(sem: Semantics<A, V>, s: State<A, V>, t: State<A, V>)
    requires forall ref: Ref :: AgreeOn(sem, s, t, ref)
    ensures s == t
  {
    forall slot: Slot<A> ensures Get(s, slot) == Get(t, slot) {
      assert AgreeOn(sem, s, t, RefOf(sem, slot));
    }
    forall slot ensures slot in s <==> slot in t {
      assert Get(s, slot) == Get(t, slot);
    }
    forall slot | slot in s ensures s[slot] == t[slot] {
      assert Get(s, slot) == Get(t, slot);
    }
  }

  /** Keep the groups whose shard is wanted. */
  function Filter<A(==), V>(sem: Semantics<A, V>, db: nat, gs: seq<Group<A>>, want: Ref -> bool): seq<Group<A>>
  {
    if gs == [] then []
    else (if want(Ref(db, sem.shardOf(gs[0].key))) then [gs[0]] else []) + Filter(sem, db, gs[1..], want)
  }

  lemma GroupAgree<A(!new), V>(sem: Semantics<A, V>, d: Descriptor, db: nat, args: seq<A>, key: A,
                               want: Ref -> bool, s: State<A, V>, t: State<A, V>)
    requires want(Ref(db, sem.shardOf(key)))
    requires Agree(sem, s, t, want)
    requires ApplyGroup(sem, d, db, args, key, s).Some?
    ensures ApplyGroup(sem, d, db, args, key, t).Some?
    ensures Agree(sem, ApplyGroup(sem, d, db, args, key, s).value, ApplyGroup(sem, d, db, args, key, t).value, want)
    ensures forall ref: Ref | ref != Ref(db, sem.shardOf(key)) ::
              AgreeOn(sem, t, ApplyGroup(sem, d, db, args, key, t).value, ref)
  {
    var slot := Slot(db, key);
    assert RefOf(sem, slot) == Ref(db, sem.shardOf(key));
    assert Get(s, slot) == Get(t, slot);
  }

  lemma GroupSkip<A(!new), V>(sem: Semantics<A, V>, d: Descriptor, db: nat, args: seq<A>, key: A,
                              want: Ref -> bool, s: State<A, V>, t: State<A, V>)
    requires !want(Ref(db, sem.shardOf(key)))
    requires Agree(sem, s, t, want)
    requires ApplyGroup(sem, d, db, args, key, s).Some?
    ensures Agree(sem, ApplyGroup(sem, d, db, args, key, s).value, t, want)
  {
  }

  /** Running only the wanted groups brings the wanted shards to where running
      all of them would, and leaves the other shards alone. */
  lemma {:induction false} FilteredGroups<A(!new), V>(sem: Semantics<A, V>, d: Descriptor, db: nat, name: A,
                                                      gs: seq<Group<A>>, want: Ref -> bool,
                                                      s: State<A, V>, t: State<A, V>)
    requires Agree(sem, s, t, want)
    requires ApplyGroups(sem, d, db, name, gs, s).Some?
    ensures var fs := Filter(sem, db, gs, want);
            && ApplyGroups(sem, d, db, name, fs, t).Some?
            && Agree(sem, ApplyGroups(sem, d, db, name, gs, s).value, ApplyGroups(sem, d, db, name, fs, t).value, want)
            && forall ref: Ref | !want(ref) :: AgreeOn(sem, t, ApplyGroups(sem, d, db, name, fs, t).value, ref)
  {
    if gs != [] {
      var args, key := [name] + gs[0].Args(), gs[0].key;
      var s' := ApplyGroup(sem, d, db, args, key, s).value;
      if want(Ref(db, sem.shardOf(key))) {
        GroupAgree(sem, d, db, args, key, want, s, t);
        var t' := ApplyGroup(sem, d, db, args, key, t).value;
        FilteredGroups(sem, d, db, name, gs[1..], want, s', t');
        var fs := Filter(sem, db, gs, want);
        assert fs[1..] == Filter(sem, db, gs[1..], want);
      } else {
        GroupSkip(sem, d, db, args, key, want, s, t);
        FilteredGroups(sem, d, db, name, gs[1..], want, s', t);
        assert Filter(sem, db, gs, want) == Filter(sem, db, gs[1..], want);
      }
    }
  }
}
