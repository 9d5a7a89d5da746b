/** Serializing a shard as rebuild commands and loading them again (command/snapshot.go
    entry, chunked; engine/snapshot.go SnapshotShard; persist/snapshot.go LoadSnapshot). */
module Rebuild {
  import opened Options
  import opened Seqs
  import opened Bytes
  import D = Dict

  /** A stored value.  Scores are whatever `Floats` renders and parses. */
  datatype Value<S> =
    | Str(bytes: bytes)
    | Lst(elems: seq<bytes>)
    | Set(members: set<bytes>)
    | Hash(fields: map<bytes, bytes>)
    | ZSet(scores: map<bytes, S>)

  datatype Object<S> = Object(value: Value<S>, expireAt: int)

  type Shard<S> = map<bytes, Object<S>>

  /** FormatFloat and ParseFloat. */
  datatype Floats<!S> = Floats(render: S -> bytes, parse: bytes -> S)

  ghost predicate RoundTrips<S(!new)>(fl: Floats<S>) {
    forall x :: fl.parse(fl.render(x)) == x
  }

  // ----------------------------------------------------------------- the command set

  datatype Verb = RPush | SAdd | HSet | ZAdd

  datatype Command =
    | SetCmd(key: bytes, val: bytes)
    | Extend(verb: Verb, key: bytes, elems: seq<bytes>)
    | PExpireAt(key: bytes, at: int)

  /** How many elements belong together. */
  function Stride(verb: Verb): (n: nat)
    ensures n == 1 || n == 2
  {
    if verb == HSet || verb == ZAdd then 2 else 1
  }

  function EmptyOf<S>(verb: Verb): Value<S> {
    match verb
    case RPush => Lst([])
    case SAdd => Set({})
    case HSet => Hash(map[])
    case ZAdd => ZSet(map[])
  }

  predicate Is<S>(verb: Verb, v: Value<S>) {
    match verb
    case RPush => v.Lst?
    case SAdd => v.Set?
    case HSet => v.Hash?
    case ZAdd => v.ZSet?
  }

  /** Field and value alternate; so do score and member. */
  function Fields(elems: seq<bytes>): seq<(bytes, bytes)> {
    seq(|elems| / 2, i requires 0 <= i < |elems| / 2 => (elems[2 * i], elems[2 * i + 1]))
  }

  function Scores<S>(fl: Floats<S>, elems: seq<bytes>): seq<(bytes, S)> {
    seq(|elems| / 2, i requires 0 <= i < |elems| / 2 => (elems[2 * i + 1], fl.parse(elems[2 * i])))
  }

  function PutAll<V>(m: map<bytes, V>, ps: seq<(bytes, V)>): map<bytes, V> {
    if ps == [] then m else PutAll(m, ps[..|ps| - 1])[ps[|ps| - 1].0 := ps[|ps| - 1].1]
  }

  /** What a command adds to a collection. */
  function Added<S>(fl: Floats<S>, verb: Verb, v: Value<S>, elems: seq<bytes>): (r: Value<S>)
    requires Is(verb, v)
    ensures Is(verb, r)
  {
    match verb
    case RPush => Lst(v.elems + elems)
    case SAdd => Set(v.members + set e | e in elems)
    case HSet => Hash(PutAll(v.fields, Fields(elems)))
    case ZAdd => ZSet(PutAll(v.scores, Scores(fl, elems)))
  }

  /** A command applied in loading mode; `None` is an error reply.  A deadline in the past
      is kept, not acted on. */
  function Apply<S>(fl: Floats<S>, st: Shard<S>, c: Command): Option<Shard<S>> {
    match c
    case SetCmd(key, val) => Some(st[key := Object(Str(val), 0)])
    case Extend(verb, key, elems) =>
      if elems == [] || |elems| % Stride(verb) != 0 then None
      else if key !in st then Some(st[key := Object(Added(fl, verb, EmptyOf(verb), elems), 0)])
      else if !Is(verb, st[key].value) then None
      else Some(st[key := Object(Added(fl, verb, st[key].value, elems), st[key].expireAt)])
    case PExpireAt(key, at) =>
      Some(if key in st then st[key := Object(st[key].value, at)] else st)
  }

  function Load<S>(fl: Floats<S>, st: Shard<S>, cmds: seq<Command>): Option<Shard<S>>
    decreases |cmds|
  {
    if cmds == [] then Some(st)
    else
      var next := Apply(fl, st, cmds[0]);
      if next.None? then next else Load(fl, next.value, cmds[1..])
  }

  lemma {:induction false} LoadConcat<S>(fl: Floats<S>, st: Shard<S>, a: seq<Command>, b: seq<Command>)
    ensures Load(fl, st, a + b) == (var mid := Load(fl, st, a); if mid.None? then mid else Load(fl, mid.value, b))
    decreases |a|
  {
    if a == [] {
      assert a + b == b;
    } else {
      assert (a + b)[1..] == a[1..] + b;
      var next := Apply(fl, st, a[0]);
      if next.Some? {
        LoadConcat(fl, next.value, a[1..], b);
      }
    }
  }

  // ------------------------------------------------------------------------- chunks

  function Join(pieces: seq<seq<bytes>>): seq<bytes> {
    if pieces == [] then [] else Join(pieces[..|pieces| - 1]) + pieces[|pieces| - 1]
  }

  /** The pieces a collection is cut into: none is empty, none is longer than asked
      for, and none splits a pair. */
  ghost predicate Pieces(pieces: seq<seq<bytes>>, stride: nat, per: int) {
    forall i | 0 <= i < |pieces| :: 0 < |pieces[i]| <= per && (stride == 2 ==> |pieces[i]| % 2 == 0)
  }

  /** Go's remainder, which takes the sign of the dividend. */
  function Rem(a: int, n: nat): int
    requires n > 0
  {
    if a >= 0 then a % n else -((-a) % n)
  }

  function Per(batch: int, stride: nat): int
    requires stride == 1 || stride == 2
  {
    var per := batch - Rem(batch, stride);
    if per < stride then stride else per
  }

  /** A piece holds as many whole members as the batch allows, and at least one. */
  lemma PerIs(batch: int)
    ensures Per(batch, 1) == if batch > 1 then batch else 1
    ensures Per(batch, 2) % 2 == 0 && Per(batch, 2) >= 2
    ensures batch >= 2 ==> batch - 1 <= Per(batch, 2) <= batch
    ensures batch < 2 ==> Per(batch, 2) == 2
  {
  }

  lemma JoinMore(pieces: seq<seq<bytes>>, elems: seq<bytes>, start: nat, end: nat)
    requires start <= end <= |elems| && Join(pieces) == elems[..start]
    ensures Join(pieces + [elems[start..end]]) == elems[..end]
  {
    var more := pieces + [elems[start..end]];
    assert more[..|more| - 1] == pieces;
    assert elems[..start] + elems[start..end] == elems[..end];
  }

  /** chunked's loop. */
  method Chunked(batch: int, elems: seq<bytes>, stride: nat) returns (pieces: seq<seq<bytes>>)
    requires stride == 1 || stride == 2
    requires stride == 2 ==> |elems| % 2 == 0
    ensures Join(pieces) == elems && Pieces(pieces, stride, Per(batch, stride))
    ensures forall i | 0 <= i < |pieces| - 1 :: |pieces[i]| == Per(batch, stride)
  {
    var per := batch - Rem(batch, stride);
    if per < stride {
      per := stride;
    }
    assert stride == 2 ==> per % 2 == 0;
    pieces := [];
    var start, end := 0, 0;
    while start < |elems|
      invariant 0 <= end <= |elems| && (start == end || (start > end == |elems|)) && Join(pieces) == elems[..end]
      invariant stride == 2 ==> start % 2 == 0
      invariant Pieces(pieces, stride, per)
      invariant forall i | 0 <= i < |pieces| :: |pieces[i]| == per || (i == |pieces| - 1 && start > end)
    {
      end := start + per;
      if end > |elems| {
        end := |elems|;
      }
      JoinMore(pieces, elems, start, end);
      pieces := pieces + [elems[start..end]];
      start := start + per;
    }
    assert elems[..|elems|] == elems;
  }

  // -------------------------------------------------------- pieces add up to the whole

  lemma {:induction false} PutAllConcat<V>(m: map<bytes, V>, a: seq<(bytes, V)>, b: seq<(bytes, V)>)
    ensures PutAll(PutAll(m, a), b) == PutAll(m, a + b)
  {
    if b == [] {
      assert a + b == a;
    } else {
      var n := |b| - 1;
      PutAllConcat(m, a, b[..n]);
      assert (a + b)[..|a + b| - 1] == a + b[..n];
    }
  }

  lemma PairsConcat<S>(fl: Floats<S>, a: seq<bytes>, b: seq<bytes>)
    requires |a| % 2 == 0
    ensures Fields(a + b) == Fields(a) + Fields(b) && Scores(fl, a + b) == Scores(fl, a) + Scores(fl, b)
  {
    var ab, h := a + b, |a| / 2;
    forall i | h <= i < |ab| / 2 ensures ab[2 * i] == b[2 * (i - h)] && ab[2 * i + 1] == b[2 * (i - h) + 1] {}
  }

  lemma AddedConcat<S>(fl: Floats<S>, verb: Verb, v: Value<S>, a: seq<bytes>, b: seq<bytes>)
    requires Is(verb, v) && |a| % Stride(verb) == 0
    ensures Added(fl, verb, Added(fl, verb, v, a), b) == Added(fl, verb, v, a + b)
  {
    match verb
    case RPush => assert v.elems + a + b == v.elems + (a + b);
    case SAdd => assert (set e | e in a) + (set e | e in b) == set e | e in a + b;
    case HSet =>
      PairsConcat(fl, a, b);
      PutAllConcat(v.fields, Fields(a), Fields(b));
    case ZAdd =>
      PairsConcat(fl, a, b);
      PutAllConcat(v.scores, Scores(fl, a), Scores(fl, b));
  }

  function Extends(verb: Verb, key: bytes, pieces: seq<seq<bytes>>): seq<Command> {
    seq(|pieces|, i requires 0 <= i < |pieces| => Extend(verb, key, pieces[i]))
  }

  lemma {:induction false} JoinEven(pieces: seq<seq<bytes>>, verb: Verb, per: int)
    requires Pieces(pieces, Stride(verb), per)
    ensures |Join(pieces)| % Stride(verb) == 0
  {
    if pieces != [] {
      JoinEven(pieces[..|pieces| - 1], verb, per);
    }
  }

  /** Loading the pieces of a collection one after the other builds the collection. */
  lemma {:induction false} PiecesLoad<S>(fl: Floats<S>, st: Shard<S>, verb: Verb, key: bytes, pieces: seq<seq<bytes>>, per: int)
    requires key !in st && pieces != [] && Pieces(pieces, Stride(verb), per)
    ensures Load(fl, st, Extends(verb, key, pieces)) ==
            Some(st[key := Object(Added(fl, verb, EmptyOf(verb), Join(pieces)), 0)])
  {
    var n := |pieces| - 1;
    var init, last := pieces[..n], pieces[n];
    var cmds := Extends(verb, key, pieces);
    assert cmds == Extends(verb, key, init) + [Extend(verb, key, last)];
    LoadConcat(fl, st, Extends(verb, key, init), [Extend(verb, key, last)]);
    if init == [] {
      assert Join(pieces) == last;
      assert Extends(verb, key, init) == [];
    } else {
      PiecesLoad(fl, st, verb, key, init, per);
      JoinEven(init, verb, per);
      AddedConcat(fl, verb, EmptyOf(verb), Join(init), last);
      ExtendedAgain(fl, st, verb, key, Join(init), last);
    }
  }

  /** One more piece on top of those before it. */
  lemma ExtendedAgain<S>(fl: Floats<S>, st: Shard<S>, verb: Verb, key: bytes, before: seq<bytes>, last: seq<bytes>)
    requires last != [] && (Stride(verb) == 2 ==> |last| % 2 == 0)
    ensures Load(fl, st[key := Object(Added(fl, verb, EmptyOf(verb), before), 0)], [Extend(verb, key, last)])
         == Some(st[key := Object(Added(fl, verb, Added(fl, verb, EmptyOf(verb), before), last), 0)])
  {
    var v := Added(fl, verb, EmptyOf(verb), before);
    var mid := st[key := Object(v, 0)];
    assert mid[key := Object(Added(fl, verb, v, last), 0)] == st[key := Object(Added(fl, verb, v, last), 0)];
  }

  // ------------------------------------------------------------------------- entries

  /** A key as SnapshotShard hands it out: a collection is flattened, sets, hashes and
      sorted sets in any order. */
  datatype Entry<S> = Entry(key: bytes, obj: Object<S>, elems: seq<bytes>)

  function VerbOf<S>(v: Value<S>): Verb
    requires !v.Str?
  {
    match v
    case Lst(_) => RPush
    case Set(_) => SAdd
    case Hash(_) => HSet
    case ZSet(_) => ZAdd
  }

  function Pair(elems: seq<bytes>, i: nat): (bytes, bytes)
    requires 2 * i + 1 < |elems|
  {
    (elems[2 * i], elems[2 * i + 1])
  }

  /** Scores rendered, each before its member. */
  ghost predicate Rendered<S>(fl: Floats<S>, elems: seq<bytes>, ps: seq<(bytes, S)>) {
    && |elems| == 2 * |ps|
    && (forall i | 0 <= i < |ps| :: Pair(elems, i) == (fl.render(ps[i].1), ps[i].0))
  }

  ghost predicate Flattens<S(!new)>(fl: Floats<S>, v: Value<S>, elems: seq<bytes>) {
    match v
    case Str(_) => elems == []
    case Lst(l) => elems == l
    case Set(members) => (set e | e in elems) == members
    case Hash(fields) => |elems| % 2 == 0 && Lists(fields, Fields(elems))
    case ZSet(scores) => exists ps: seq<(bytes, S)> :: Lists(scores, ps) && Rendered(fl, elems, ps)
  }

  lemma {:induction false} PutAllKeys<V>(ps: seq<(bytes, V)>, k: bytes)
    ensures k in PutAll(map[], ps) ==> exists i :: 0 <= i < |ps| && ps[i].0 == k
    ensures k !in PutAll(map[], ps) ==> forall i | 0 <= i < |ps| :: ps[i].0 != k
  {
    if ps != [] {
      PutAllKeys(ps[..|ps| - 1], k);
    }
  }

  lemma {:induction false} PutAllAt<V>(ps: seq<(bytes, V)>, i: nat)
    requires i < |ps| && forall i, j | 0 <= i < j < |ps| :: ps[i].0 != ps[j].0
    ensures ps[i].0 in PutAll(map[], ps) && PutAll(map[], ps)[ps[i].0] == ps[i].1
  {
    if i < |ps| - 1 {
      PutAllAt(ps[..|ps| - 1], i);
    }
  }

  /** Pairs that list a map put it together again. */
  lemma ListsBack<V>(m: map<bytes, V>, ps: seq<(bytes, V)>)
    requires Lists(m, ps)
    ensures PutAll(map[], ps) == m
  {
    var r := PutAll(map[], ps);
    forall k | k in r ensures k in m {
      PutAllKeys(ps, k);
    }
    forall k | k in m ensures k in r && r[k] == m[k] {
      var i :| 0 <= i < |ps| && ps[i] == (k, m[k]);
      PutAllAt(ps, i);
    }
  }

  lemma ScoresBack<S(!new)>(fl: Floats<S>, m: map<bytes, S>, elems: seq<bytes>, ps: seq<(bytes, S)>)
    requires RoundTrips(fl) && Lists(m, ps) && Rendered(fl, elems, ps)
    ensures PutAll(map[], Scores(fl, elems)) == m
  {
    var got := Scores(fl, elems);
    forall i | 0 <= i < |ps| ensures got[i] == ps[i] {
      assert Pair(elems, i) == (fl.render(ps[i].1), ps[i].0);
    }
    assert got == ps;
    ListsBack(m, ps);
  }

  /** A flattened collection adds up to the collection. */
  lemma FlatBack<S(!new)>(fl: Floats<S>, v: Value<S>, elems: seq<bytes>)
    requires RoundTrips(fl) && Flattens(fl, v, elems) && !v.Str?
    ensures Added(fl, VerbOf(v), EmptyOf(VerbOf(v)), elems) == v && |elems| % Stride(VerbOf(v)) == 0
  {
    match v
    case Lst(l) => assert [] + elems == elems;
    case Set(members) =>
    case Hash(fields) => ListsBack(fields, Fields(elems));
    case ZSet(scores) =>
      var ps: seq<(bytes, S)> :| Lists(scores, ps) && Rendered(fl, elems, ps);
      ScoresBack(fl, scores, elems, ps);
  }

  /** Loading these commands into a shard without the key gives the shard with it. */
  ghost predicate Rebuilds<S(!new)>(fl: Floats<S>, cmds: seq<Command>, key: bytes, obj: Object<S>) {
    forall st: Shard<S> | key !in st :: Load(fl, st, cmds) == Some(st[key := obj])
  }

  /** The value without its deadline. */
  method ValueCommands<S(!new)>(batch: int, e: Entry<S>, ghost fl: Floats<S>) returns (cmds: Option<seq<Command>>)
    requires RoundTrips(fl) && Flattens(fl, e.obj.value, e.elems)
    ensures cmds.None? <==> !e.obj.value.Str? && e.elems == []
    ensures cmds.Some? ==> Rebuilds(fl, cmds.value, e.key, Object(e.obj.value, 0))
  {
    if e.obj.value.Str? {
      return Some([SetCmd(e.key, e.obj.value.bytes)]);
    }
    if e.elems == [] {
      return None;
    }
    var verb := VerbOf(e.obj.value);
    FlatBack(fl, e.obj.value, e.elems);
    var pieces := Chunked(batch, e.elems, Stride(verb));
    ghost var per := Per(batch, Stride(verb));
    forall st: Shard<S> | e.key !in st
      ensures Load(fl, st, Extends(verb, e.key, pieces)) == Some(st[e.key := Object(e.obj.value, 0)])
    {
      PiecesLoad(fl, st, verb, e.key, pieces, per);
    }
    return Some(Extends(verb, e.key, pieces));
  }

  lemma WithDeadline<S(!new)>(fl: Floats<S>, cmds: seq<Command>, key: bytes, obj: Object<S>)
    requires Rebuilds(fl, cmds, key, Object(obj.value, 0))
    ensures Rebuilds(fl, cmds + [PExpireAt(key, obj.expireAt)], key, obj)
  {
    forall st: Shard<S> | key !in st
      ensures Load(fl, st, cmds + [PExpireAt(key, obj.expireAt)]) == Some(st[key := obj])
    {
      LoadConcat(fl, st, cmds, [PExpireAt(key, obj.expireAt)]);
      var mid := st[key := Object(obj.value, 0)];
      assert Load(fl, st, cmds) == Some(mid);
      assert mid[key := obj] == st[key := obj];
    }
  }

  /** entry: an empty collection is refused; anything else is rebuilt, deadline and all,
      for every batch size. */
  method EntryCommands<S(!new)>(batch: int, e: Entry<S>, ghost fl: Floats<S>) returns (cmds: Option<seq<Command>>)
    requires RoundTrips(fl) && Flattens(fl, e.obj.value, e.elems) && e.obj.expireAt >= 0
    ensures cmds.None? <==> !e.obj.value.Str? && e.elems == []
    ensures cmds.Some? ==> Rebuilds(fl, cmds.value, e.key, e.obj)
  {
    cmds := ValueCommands(batch, e, fl);
    if cmds.Some? && e.obj.expireAt > 0 {
      WithDeadline(fl, cmds.value, e.key, e.obj);
      cmds := Some(cmds.value + [PExpireAt(e.key, e.obj.expireAt)]);
    }
  }

  // ------------------------------------------------------------------- a whole shard

  function Objects<S>(es: seq<Entry<S>>): seq<(bytes, Object<S>)> {
    seq(|es|, i requires 0 <= i < |es| => (es[i].key, es[i].obj))
  }

  /** A walk over a shard: every key once, in any order, with its object flattened.  No
      collection is empty. */
  ghost predicate Walk<S(!new)>(fl: Floats<S>, shard: Shard<S>, es: seq<Entry<S>>) {
    && Lists(shard, Objects(es))
    && (forall i | 0 <= i < |es| :: Flattens(fl, es[i].obj.value, es[i].elems) && es[i].obj.expireAt >= 0)
    && (forall i | 0 <= i < |es| :: !es[i].obj.value.Str? ==> es[i].elems != [])
  }

  /** The commands for one more key. */
  lemma LoadMore<S(!new)>(fl: Floats<S>, shard: Shard<S>, es: seq<Entry<S>>, i: nat, cmds: seq<Command>, more: seq<Command>)
    requires Walk(fl, shard, es) && i < |es| && Rebuilds(fl, more, es[i].key, es[i].obj)
    requires Load(fl, map[], cmds) == Some(PutAll(map[], Objects(es)[..i]))
    ensures Load(fl, map[], cmds + more) == Some(PutAll(map[], Objects(es)[..i + 1]))
  {
    var ps := Objects(es);
    LoadConcat(fl, map[], cmds, more);
    PutAllKeys(ps[..i], es[i].key);
    assert ps[..i + 1][..i] == ps[..i] && ps[i] == (es[i].key, es[i].obj);
  }

  /** Serializing a shard and loading it into an empty one gives the same values and
      deadlines, whatever order the walk took and whatever the batch size. */
  method WriteShard<S(!new)>(batch: int, es: seq<Entry<S>>, ghost shard: Shard<S>, ghost fl: Floats<S>) returns (cmds: seq<Command>)
    requires RoundTrips(fl) && Walk(fl, shard, es)
    ensures Load(fl, map[], cmds) == Some(shard)
  {
    cmds := [];
    var i := 0;
    while i < |es|
      invariant 0 <= i <= |es| && Load(fl, map[], cmds) == Some(PutAll(map[], Objects(es)[..i]))
    {
      var more := EntryCommands(batch, es[i], fl);
      LoadMore(fl, shard, es, i, cmds, more.value);
      cmds := cmds + more.value;
      i := i + 1;
    }
    assert Objects(es)[..i] == Objects(es);
    ListsBack(shard, Objects(es));
  }

  /** A value that can be flattened, with a deadline or none; no collection is empty. */
  ghost predicate Storable<S(!new)>(fl: Floats<S>, flatten: Value<S> -> seq<bytes>, obj: Object<S>) {
    && Flattens(fl, obj.value, flatten(obj.value)) && obj.expireAt >= 0
    && (!obj.value.Str? ==> flatten(obj.value) != [])
  }

  ghost predicate AllStorable<S(!new)>(fl: Floats<S>, flatten: Value<S> -> seq<bytes>, shard: Shard<S>) {
    forall key | key in shard :: Storable(fl, flatten, shard[key])
  }

  function Flat<S>(flatten: Value<S> -> seq<bytes>, pairs: seq<(bytes, Object<S>)>): seq<Entry<S>> {
    seq(|pairs|, i requires 0 <= i < |pairs| => Entry(pairs[i].0, pairs[i].1, flatten(pairs[i].1.value)))
  }

  lemma FlatWalks<S(!new)>(fl: Floats<S>, flatten: Value<S> -> seq<bytes>, shard: Shard<S>, pairs: seq<(bytes, Object<S>)>)
    requires Lists(shard, pairs) && AllStorable(fl, flatten, shard)
    ensures Walk(fl, shard, Flat(flatten, pairs))
  {
    var es := Flat(flatten, pairs);
    assert Objects(es) == pairs;
    forall i | 0 <= i < |es|
      ensures Flattens(fl, es[i].obj.value, es[i].elems) && es[i].obj.expireAt >= 0 && (!es[i].obj.value.Str? ==> es[i].elems != [])
    {
      assert pairs[i].0 in shard && shard[pairs[i].0] == pairs[i].1;
      assert Storable(fl, flatten, shard[pairs[i].0]);
    }
  }

  /** SnapshotShard over the shard's own dict, rehashing or not: the walk, the commands
      for each key, and what loading them gives. */
  method SnapshotShard<S(==,!new)>(d: D.Dict<bytes, Object<S>>, batch: int, flatten: Value<S> -> seq<bytes>, ghost fl: Floats<S>)
    returns (cmds: seq<Command>)
    requires d.Valid() && RoundTrips(fl)
    requires AllStorable(fl, flatten, d.Contents())
    ensures Load(fl, map[], cmds) == Some(d.Contents())
  {
    ghost var shard := d.Contents();
    var pairs := d.ForEach();
    assert d.Contents() == shard;
    FlatWalks(fl, flatten, shard, pairs);
    cmds := WriteShard(batch, Flat(flatten, pairs), shard, fl);
  }
}
