/** SCAN over the shards of a database (engine/generic.go DB.Scan): the cursor packs
    the shard index in its low bits and that shard's bucket cursor above them. */
module DbScan {
  import opened Arith
  import opened ScanOrder
  import D = Dict
  import S = DictScan

  const MaxScanBuckets: nat := 0x100_0000_0000

  /** scanBudget: how many buckets one call may walk. */
  function ScanBudget(count: nat): (b: nat)
    ensures count > 0 ==> b > 0
  {
    if count >= MaxScanBuckets / 10 then MaxScanBuckets else count * 10
  }

  lemma {:induction false} PackRoundTrip(k: nat, bucket: nat, idx: nat)
    requires idx < Pow2(k)
    ensures Low(k, Shift(k, bucket) + idx) == idx
    ensures High(k, Shift(k, bucket) + idx) == bucket
  {
    if k > 0 {
      var z := Shift(k, bucket) + idx;
      PackRoundTrip(k - 1, bucket, idx / 2);
      assert z % 2 == idx % 2 && z / 2 == Shift(k - 1, bucket) + idx / 2;
    }
  }

  /** A position of the walk: a shard, and a bucket cursor within it. */
  datatype Position = Position(shard: nat, bucket: nat)

  function Unpack(k: nat, cursor: nat): Position {
    Position(Low(k, cursor), High(k, cursor))
  }

  /** The walk has not yet passed hash `h` of shard `s`. */
  predicate Ahead(w: nat, p: Position, s: nat, h: nat) {
    p.shard < s || (p.shard == s && Place(w, p.bucket) <= Place(w, h))
  }

  /** Strictly later in the walk. */
  predicate Later(w: nat, p: Position, q: Position) {
    p.shard < q.shard || (p.shard == q.shard && Place(w, p.bucket) < Place(w, q.bucket))
  }

  /** Every kept entry between two positions has been emitted. */
  ghost predicate Emitted<K(!new), V>(w: nat, hashOf: K -> nat, shards: seq<map<K, V>>, keep: (K, V) -> bool,
                                      from: Position, to: Position, out: seq<K>) {
    forall s, k | 0 <= s < |shards| && k in shards[s] && keep(k, shards[s][k])
                  && Ahead(w, from, s, hashOf(k)) && !Ahead(w, to, s, hashOf(k)) :: k in out
  }

  /** What one call promises; shard count 2^n. */
  ghost predicate Walked<K(!new), V>(w: nat, n: nat, hashOf: K -> nat, shards: seq<map<K, V>>, keep: (K, V) -> bool,
                                     cursor: nat, next: nat, out: seq<K>) {
    var from := Unpack(n, cursor);
    var to := if next == 0 then Position(|shards|, 0) else Unpack(n, next);
    && Genuine(shards, keep, out)
    && Emitted(w, hashOf, shards, keep, from, to, out)
    && Later(w, from, to)
    && to.shard <= |shards|
  }

  /** The shards' tables, and the maps they hold. */
  ghost predicate Holding<K(!new), V(!new)>(dicts: seq<D.Dict<K, V>>, hashOf: K -> nat, maps: seq<map<K, V>>)
    reads set d, o | d in dicts && o in d.Repr() :: o
    reads set d | d in dicts
  {
    && |maps| == |dicts|
    && (forall i | 0 <= i < |dicts| :: dicts[i].Valid() && dicts[i].hashOf == hashOf && maps[i] == dicts[i].Contents())
  }

  /** Every key returned is a kept key of some shard. */
  ghost predicate Genuine<K(!new), V>(maps: seq<map<K, V>>, keep: (K, V) -> bool, out: seq<K>) {
    forall k | k in out :: exists s :: 0 <= s < |maps| && k in maps[s] && keep(k, maps[s][k])
  }

  /** The filter of one bucket's entries: expiry, type and pattern. */
  method Kept<K(!new), V(!new)>(found: seq<(K, V)>, keep: (K, V) -> bool) returns (out: seq<K>)
    ensures forall k | k in out :: exists v :: (k, v) in found && keep(k, v)
    ensures forall p | p in found && keep(p.0, p.1) :: p.0 in out
  {
    out := [];
    var i := 0;
    while i < |found|
      invariant 0 <= i <= |found|
      invariant forall k | k in out :: exists v :: (k, v) in found && keep(k, v)
      invariant forall j | 0 <= j < i && keep(found[j].0, found[j].1) :: found[j].0 in out
    {
      if keep(found[i].0, found[i].1) {
        assert (found[i].0, found[i].1) in found;
        out := out + [found[i].0];
      }
      i := i + 1;
    }
  }

  lemma EmittedMore<K(!new), V>(w: nat, hashOf: K -> nat, shards: seq<map<K, V>>, keep: (K, V) -> bool, from: Position,
                                mid: Position, to: Position, out: seq<K>, found: seq<(K, V)>, more: seq<K>, next: nat)
    requires Emitted(w, hashOf, shards, keep, from, mid, out) && mid.shard < |shards|
    requires S.Scanned(w, hashOf, shards[mid.shard], mid.bucket, next, found)
    requires forall p | p in found && keep(p.0, p.1) :: p.0 in more
    requires to == if next == 0 then Position(mid.shard + 1, 0) else Position(mid.shard, next)
    ensures Emitted(w, hashOf, shards, keep, from, to, out + more)
  {
    ShiftZero(w);
    forall s, k | 0 <= s < |shards| && k in shards[s] && keep(k, shards[s][k])
                  && Ahead(w, from, s, hashOf(k)) && !Ahead(w, to, s, hashOf(k))
      ensures k in out + more
    {
      if Ahead(w, mid, s, hashOf(k)) {
        assert s == mid.shard && Between(w, mid.bucket, next, hashOf(k));
        assert (k, shards[s][k]) in found;
      }
    }
  }

  /** One bucket of shard idx, filtered, and the position after it. */
  method ScanBucket<K(==,!new), V(!new)>(w: nat, dicts: seq<D.Dict<K, V>>, hashOf: K -> nat, idx: nat, bucket: nat,
                                         keep: (K, V) -> bool, out: seq<K>, ghost maps: seq<map<K, V>>, ghost from: Position)
    returns (next: nat, more: seq<K>)
    requires Holding(dicts, hashOf, maps) && idx < |dicts| && w >= 31
    requires Upto(w, hashOf, maps, keep, from, Position(idx, bucket), out)
    ensures Upto(w, hashOf, maps, keep, from, if next == 0 then Position(idx + 1, 0) else Position(idx, next), out + more)
    ensures next != 0 ==> Place(w, bucket) < Place(w, next)
  {
    var found;
    next, found := S.Scan(w, dicts[idx], bucket);
    more := Kept(found, keep);
    EmittedMore(w, hashOf, maps, keep, from, Position(idx, bucket),
                if next == 0 then Position(idx + 1, 0) else Position(idx, next), out, found, more, next);
  }

  /** What the loop of Scan has done when it stands at a position. */
  ghost predicate Upto<K(!new), V>(w: nat, hashOf: K -> nat, maps: seq<map<K, V>>, keep: (K, V) -> bool, from: Position,
                                   to: Position, out: seq<K>) {
    Genuine(maps, keep, out) && Emitted(w, hashOf, maps, keep, from, to, out)
  }

  /** The loop of DB.Scan: buckets and shards in order until enough keys are found or
      the budget is spent; it always leaves where it started. */
  method WalkShards<K(==,!new), V(!new)>(w: nat, dicts: seq<D.Dict<K, V>>, hashOf: K -> nat, from: Position, count: nat,
                                         keep: (K, V) -> bool, ghost maps: seq<map<K, V>>)
    returns (to: Position, out: seq<K>)
    requires w >= 31 && Holding(dicts, hashOf, maps) && from.shard < |dicts| && count > 0
    ensures Upto(w, hashOf, maps, keep, from, to, out) && Later(w, from, to)
    ensures to.shard <= |dicts| && (to.shard == |dicts| ==> to.bucket == 0)
  {
    var budget := ScanBudget(count);
    to, out := from, [];
    while to.shard < |dicts| && |out| < count && budget > 0
      invariant to.shard <= |dicts| && (to.shard == |dicts| ==> to.bucket == 0)
      invariant Upto(w, hashOf, maps, keep, from, to, out)
      invariant (to == from && budget > 0 && out == []) || Later(w, from, to)
      decreases budget
    {
      var next, more := ScanBucket(w, dicts, hashOf, to.shard, to.bucket, keep, out, maps, from);
      out := out + more;
      budget := budget - 1;
      to := if next == 0 then Position(to.shard + 1, 0) else Position(to.shard, next);
    }
  }

  /** DB.Scan. */
  method Scan<K(==,!new), V(!new)>(w: nat, n: nat, dicts: seq<D.Dict<K, V>>, hashOf: K -> nat, cursor: nat, wish: int,
                                   keep: (K, V) -> bool, ghost maps: seq<map<K, V>>)
    returns (next: nat, out: seq<K>)
    requires |dicts| == Pow2(n) && w >= 31 && Holding(dicts, hashOf, maps)
    ensures Walked(w, n, hashOf, maps, keep, cursor, next, out)
  {
    var count := if wish <= 0 then 10 else wish;
    LowBound(n, cursor);
    var to;
    to, out := WalkShards(w, dicts, hashOf, Unpack(n, cursor), count, keep, maps);
    ScanDone(w, n, hashOf, maps, keep, cursor, to, out);
    next := Packed(n, to);
  }

  /** The cursor that comes back: 0 past the last shard. */
  function Packed(n: nat, to: Position): nat {
    if to.shard >= Pow2(n) then 0 else Shift(n, to.bucket) + to.shard
  }

  lemma ScanDone<K(!new), V>(w: nat, n: nat, hashOf: K -> nat, maps: seq<map<K, V>>, keep: (K, V) -> bool, cursor: nat,
                             to: Position, out: seq<K>)
    requires |maps| == Pow2(n) && Upto(w, hashOf, maps, keep, Unpack(n, cursor), to, out) && Later(w, Unpack(n, cursor), to)
    requires to.shard <= Pow2(n) && (to.shard == Pow2(n) ==> to.bucket == 0)
    ensures Walked(w, n, hashOf, maps, keep, cursor, Packed(n, to), out)
  {
    if to.shard < Pow2(n) {
      PackRoundTrip(n, to.bucket, to.shard);
      NotZero(w, n, Unpack(n, cursor), to.shard, to.bucket);
    }
  }

  /** A packed cursor is 0 only for shard 0 and bucket 0, which a walk that has moved
      cannot be at. */
  lemma NotZero(w: nat, n: nat, from: Position, idx: nat, bucket: nat)
    requires Later(w, from, Position(idx, bucket)) && idx < Pow2(n)
    ensures Shift(n, bucket) + idx != 0
  {
    ShiftZero(w);
    ShiftZero(n);
    PackRoundTrip(n, bucket, idx);
    PackRoundTrip(n, 0, 0);
  }

  // ------------------------------------------------------------------ a whole walk

  datatype Call<!K, !V> = Call(shards: seq<map<K, V>>, keep: (K, V) -> bool, cursor: nat, next: nat, out: seq<K>)

  ghost predicate Walk<K(!new), V>(w: nat, n: nat, hashOf: K -> nat, calls: seq<Call<K, V>>) {
    && calls != []
    && calls[0].cursor == 0
    && calls[|calls| - 1].next == 0
    && (forall i | 0 <= i < |calls| ::
          && |calls[i].shards| == Pow2(n)
          && Walked(w, n, hashOf, calls[i].shards, calls[i].keep, calls[i].cursor, calls[i].next, calls[i].out))
    && (forall i | 0 <= i < |calls| - 1 :: calls[i].next != 0 && calls[i + 1].cursor == calls[i].next)
  }

  lemma {:induction false} Passes<K(!new), V>(w: nat, n: nat, hashOf: K -> nat, calls: seq<Call<K, V>>, s: nat, h: nat, i: nat)
    returns (j: nat)
    requires Walk(w, n, hashOf, calls) && i < |calls| && s < Pow2(n) && Ahead(w, Unpack(n, calls[i].cursor), s, h)
    ensures i <= j < |calls| && Ahead(w, Unpack(n, calls[j].cursor), s, h)
    ensures !Ahead(w, if calls[j].next == 0 then Position(Pow2(n), 0) else Unpack(n, calls[j].next), s, h)
    decreases |calls| - i
  {
    if calls[i].next == 0 || !Ahead(w, Unpack(n, calls[i].next), s, h) {
      return i;
    }
    j := Passes(w, n, hashOf, calls, s, h, i + 1);
  }

  /** A live matching key resident in its shard throughout is returned at least once
      over the whole walk, whatever the filters reject and however the shards'
      tables change between calls. */
  lemma WalkFindsAll<K(!new), V>(w: nat, n: nat, hashOf: K -> nat, calls: seq<Call<K, V>>, s: nat, key: K)
    requires Walk(w, n, hashOf, calls) && s < Pow2(n)
    requires forall i | 0 <= i < |calls| ::
               && s < |calls[i].shards| && key in calls[i].shards[s]
               && calls[i].keep(key, calls[i].shards[s][key])
    ensures exists i :: 0 <= i < |calls| && key in calls[i].out
  {
    LowBound(n, 0);
    ShiftZero(n);
    ShiftZero(w);
    var j := Passes(w, n, hashOf, calls, s, hashOf(key), 0);
    var c := calls[j];
    assert Walked(w, n, hashOf, c.shards, c.keep, c.cursor, c.next, c.out);
    assert key in c.out;
  }
}
