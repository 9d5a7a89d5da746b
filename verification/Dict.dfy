/** The keyspace's hash table with its incremental rehash over two tables
    (engine/dict.go `dict`): it refines a finite map, and every rehash ends. */
module Dict {
  import opened Options
  import opened Seqs
  import opened Arith
  import opened HashTable
  import opened TableOps

  const MinBuckets: nat := 8
  const ShrinkAt: nat := 8

  /** Arena links are 32-bit. */
  const MaxLive: nat := 0x8000_0000

  /** A table size: a power of two, at least the minimum. */
  ghost predicate SizeOf(n: nat, k: nat) {
    3 <= k <= 31 && n == Pow2(k)
  }

  lemma Pow2Values()
    ensures Pow2(3) == 8 && Pow2(31) == MaxLive
  {
    assert Pow2(1) == 2 && Pow2(2) == 4 && Pow2(4) == 16 && Pow2(6) == 64 && Pow2(8) == 256;
    assert Pow2(10) == 1024 && Pow2(12) == 4096 && Pow2(14) == 16384 && Pow2(16) == 65536;
    assert Pow2(18) == 262144 && Pow2(20) == 1048576 && Pow2(22) == 4194304 && Pow2(24) == 16777216;
    assert Pow2(26) == 67108864 && Pow2(28) == 268435456 && Pow2(30) == 1073741824;
  }

  class Dict<K(==,!new), V(!new)> {
    const hashOf: K -> nat
    var tab0: Table<K, V>
    var tab1: Table?<K, V>
    /** The next bucket of tab0 to migrate, or -1 when idle. */
    var rehashAt: int
    /** Base-two logarithms of the table sizes. */
    ghost var bits0: nat
    ghost var bits1: nat

    ghost function Repr(): set<object?>
      reads this
    {
      {this, tab0} + (if tab1 == null then {} else {tab1})
    }

    ghost predicate Valid()
      reads this, Repr()
    {
      && tab0.Valid() && tab0.hashOf == hashOf && SizeOf(|tab0.heads|, bits0)
      && (tab1 == null <==> rehashAt < 0) && rehashAt >= -1
      && (tab1 != null ==>
            && tab1 != tab0 && tab1.Valid() && tab1.hashOf == hashOf && SizeOf(|tab1.heads|, bits1)
            && tab0.contents.Keys !! tab1.contents.Keys
            && rehashAt <= |tab0.heads|
            && forall b | 0 <= b < rehashAt :: !tab0.Occupied(b))
    }

    ghost function Contents(): map<K, V>
      requires Valid()
      reads this, Repr()
    {
      if tab1 == null then tab0.contents else tab0.contents + tab1.contents
    }

    /** How much of a rehash is left: 0 exactly when idle. */
    ghost function Left(): nat
      requires Valid()
      reads this, Repr()
    {
      if rehashAt < 0 then 0 else |tab0.heads| - rehashAt + 1
    }

    constructor (hashOf: K -> nat)
      ensures Valid() && Contents() == map[] && fresh(Repr()) && this.hashOf == hashOf
    {
      this.hashOf := hashOf;
      tab0 := new Table(hashOf, MinBuckets);
      tab1 := null;
      rehashAt := -1;
      bits0, bits1 := 3, 3;
      new;
      Pow2Values();
    }

    method Len() returns (n: nat)
      requires Valid()
      ensures n == |Contents()|
    {
      tab0.Count();
      n := tab0.live;
      if tab1 != null {
        tab1.Count();
        DisjointUnion(tab0.contents, tab1.contents);
        n := n + tab1.live;
      }
    }

    method Get(key: K) returns (r: Option<V>)
      requires Valid()
      ensures r == if key in Contents() then Some(Contents()[key]) else None
    {
      r := tab0.Lookup(key, hashOf(key));
      if r.None? && tab1 != null {
        r := tab1.Lookup(key, hashOf(key));
      }
    }

    /** forEach: every key once, a rehash in progress or not. */
    method ForEach() returns (out: seq<(K, V)>)
      requires Valid()
      ensures Lists(Contents(), out)
    {
      out := tab0.ForEach();
      if tab1 != null {
        var more := tab1.ForEach();
        ListsUnion(tab0.contents, tab1.contents, out, more);
        out := out + more;
      }
    }

    /** Move the entry at the head of a bucket into the new table. */
    method MigrateOne(b: nat)
      requires Valid() && tab1 != null && b < |tab0.heads| && tab0.Occupied(b)
      modifies tab0, tab1
      ensures Valid() && Contents() == old(Contents())
      ensures |tab0.heads| == old(|tab0.heads|)
      ensures tab0.Load(b) < old(tab0.Load(b))
      ensures forall x | 0 <= x < |tab0.heads| && x != b :: tab0.Occupied(x) == old(tab0.Occupied(x))
    {
      ghost var m0, m1 := tab0.contents, tab1.contents;
      var key, val := tab0.PopHead(b);
      UnionMoves(m0, m1, key);
      tab1.Insert(key, hashOf(key), val);
    }

    /** Move every entry of one bucket of the old table into the new one, each time
        from the head. */
    method MigrateBucket(b: nat)
      requires Valid() && tab1 != null && b < |tab0.heads|
      modifies tab0, tab1
      ensures Valid() && Contents() == old(Contents())
      ensures |tab0.heads| == old(|tab0.heads|) && !tab0.Occupied(b)
      ensures forall x | 0 <= x < |tab0.heads| && x != b :: tab0.Occupied(x) == old(tab0.Occupied(x))
    {
      while tab0.Occupied(b)
        invariant Valid() && Contents() == old(Contents())
        invariant |tab0.heads| == old(|tab0.heads|)
        invariant forall x | 0 <= x < |tab0.heads| && x != b :: tab0.Occupied(x) == old(tab0.Occupied(x))
        decreases tab0.Load(b)
      {
        MigrateOne(b);
      }
    }

    /** The end of a rehash: the new table becomes the live one. */
    method FinishRehash()
      requires Valid() && tab1 != null && rehashAt == |tab0.heads|
      modifies this
      ensures Valid() && Contents() == old(Contents()) && Repr() <= old(Repr())
      ensures rehashAt < 0
    {
      tab0.NothingLeft();
      tab0 := tab1;
      tab1 := null;
      rehashAt := -1;
      bits0 := bits1;
    }

    /** One turn of the migration: the bucket at rehashAt, whether empty or not. */
    method Advance() returns (moved: bool)
      requires Valid() && tab1 != null && rehashAt < |tab0.heads|
      modifies this`rehashAt, tab0, tab1
      ensures Valid() && Contents() == old(Contents())
      ensures rehashAt == old(rehashAt) + 1 && |tab0.heads| == old(|tab0.heads|)
      ensures moved == old(tab0.Occupied(rehashAt))
    {
      moved := tab0.Occupied(rehashAt);
      if moved {
        MigrateBucket(rehashAt);
      }
      rehashAt := rehashAt + 1;
    }

    /** rehashBuckets: migrate up to n non-empty buckets; true while more remains.
        Every call brings a running rehash nearer its end. */
    method RehashBuckets(count: nat) returns (more: bool)
      requires Valid() && count > 0
      modifies Repr()
      ensures Valid() && Contents() == old(Contents()) && Repr() <= old(Repr())
      ensures more <==> rehashAt >= 0
      ensures old(rehashAt) >= 0 ==> Left() < old(Left())
      ensures old(rehashAt) < 0 ==> rehashAt < 0
    {
      if tab1 == null {
        return false;
      }
      var n, empty := count, count * 10;
      ghost var t0, t1 := tab0, tab1;
      while n > 0 && rehashAt < |tab0.heads|
        invariant tab0 == t0 && tab1 == t1 && Valid() && Contents() == old(Contents())
        invariant rehashAt >= old(rehashAt) && |tab0.heads| == old(|tab0.heads|) && empty > 0
        invariant n < count ==> rehashAt > old(rehashAt)
        decreases |tab0.heads| - rehashAt
      {
        var moved := Advance();
        if moved {
          n := n - 1;
        } else {
          empty := empty - 1;
          if empty == 0 {
            return true;
          }
        }
      }
      if rehashAt >= |tab0.heads| {
        FinishRehash();
        return false;
      }
      return true;
    }

    /** step: every write moves a running rehash on by one bucket. */
    method Step()
      requires Valid()
      modifies Repr()
      ensures Valid() && Contents() == old(Contents()) && Repr() <= old(Repr())
      ensures if old(rehashAt) < 0 then rehashAt < 0 else Left() < old(Left())
    {
      if rehashAt >= 0 {
        var _ := RehashBuckets(1);
      }
    }

    /** resize: start a rehash into `n` buckets; a running one is left alone. */
    method Resize(n: nat, ghost k: nat) returns (started: bool)
      requires Valid() && SizeOf(n, k)
      modifies this
      ensures Valid() && Contents() == old(Contents()) && fresh(Repr() - old(Repr()))
      ensures started == (old(rehashAt) < 0)
      ensures tab0 == old(tab0) && (!started ==> tab1 == old(tab1) && rehashAt == old(rehashAt))
      ensures started ==> fresh(tab1) && rehashAt == 0 && tab1 != null && |tab1.heads| == n && tab1.contents == map[]
    {
      if rehashAt >= 0 {
        return false;
      }
      tab1 := new Table(hashOf, n);
      rehashAt := 0;
      bits1 := k;
      return true;
    }

    /** A full table that is not being rehashed starts to double. */
    method GrowIfFull()
      requires Valid() && |Contents()| < MaxLive
      modifies this
      ensures Valid() && Contents() == old(Contents())
      ensures tab0 == old(tab0) && (tab1 == old(tab1) || fresh(tab1))
      ensures var grows := old(rehashAt) < 0 && |old(Contents())| >= |tab0.heads|;
              if grows then rehashAt == 0 && tab1 != null && |tab1.heads| == 2 * |tab0.heads|
              else tab1 == old(tab1) && rehashAt == old(rehashAt)
    {
      tab0.Count();
      if rehashAt < 0 && tab0.live >= |tab0.heads| {
        Pow2Values();
        assert bits0 < 31;
        var _ := Resize(|tab0.heads| * 2, bits0 + 1);
      }
    }

    /** One with fewer than an eighth of its buckets used starts to halve, down to the
        minimum. */
    method ShrinkIfSparse()
      requires Valid()
      modifies this
      ensures Valid() && Contents() == old(Contents()) && fresh(Repr() - old(Repr()))
      ensures tab0 == old(tab0)
      ensures var shrinks := old(rehashAt) < 0 && |tab0.heads| > 8 && |old(Contents())| * 8 < |tab0.heads|;
              if shrinks then rehashAt == 0 && tab1 != null && |tab1.heads| == |tab0.heads| / 2
              else tab1 == old(tab1) && rehashAt == old(rehashAt)
    {
      if rehashAt >= 0 {
        return;
      }
      var size := |tab0.heads|;
      tab0.Count();
      if size > MinBuckets && tab0.live * ShrinkAt < size {
        Pow2Values();
        assert bits0 > 3;
        var _ := Resize(size / 2, bits0 - 1);
      }
    }

    /** set: true when the key is new.  New keys go to the table being migrated to. */
    method Set(key: K, val: V) returns (added: bool)
      requires Valid() && |Contents()| < MaxLive
      modifies Repr()
      ensures Valid() && fresh(Repr() - old(Repr()))
      ensures Contents() == old(Contents())[key := val]
      ensures added == (key !in old(Contents()))
    {
      var found := StepAndOverwrite(key, val);
      if found {
        return false;
      }
      ghost var mid := Repr();
      InsertNew(key, val);
      assert fresh(Repr() - mid);
      return true;
    }

    method StepAndOverwrite(key: K, val: V) returns (found: bool)
      requires Valid()
      modifies Repr()
      ensures Valid() && Repr() <= old(Repr())
      ensures found == (key in old(Contents()))
      ensures Contents() == if found then old(Contents())[key := val] else old(Contents())
    {
      Step();
      found := Overwrite(key, val);
    }

    method InsertNew(key: K, val: V)
      requires Valid() && |Contents()| < MaxLive && key !in Contents()
      modifies Repr()
      ensures Valid() && tab0 == old(tab0) && (tab1 == old(tab1) || fresh(tab1))
      ensures Contents() == old(Contents())[key := val]
    {
      GrowIfFull();
      AddNew(key, val);
    }

    method Overwrite(key: K, val: V) returns (found: bool)
      requires Valid()
      modifies tab0, tab1
      ensures Valid() && Repr() == old(Repr())
      ensures found == (key in old(Contents()))
      ensures Contents() == if found then old(Contents())[key := val] else old(Contents())
    {
      ghost var m0 := tab0.contents;
      found := tab0.Replace(key, hashOf(key), val);
      if !found && tab1 != null {
        ReplaceRight(m0, tab1.contents, key, val);
        found := tab1.Replace(key, hashOf(key), val);
      } else if tab1 != null {
        ReplaceLeft(m0, tab1.contents, key, val);
      }
    }

    method AddNew(key: K, val: V)
      requires Valid() && key !in Contents()
      modifies tab0, tab1
      ensures Valid() && Contents() == old(Contents())[key := val]
    {
      if tab1 != null {
        tab1.Insert(key, hashOf(key), val);
      } else {
        tab0.Insert(key, hashOf(key), val);
      }
    }

    method Delete(key: K) returns (found: bool)
      requires Valid()
      modifies Repr()
      ensures Valid() && fresh(Repr() - old(Repr()))
      ensures Contents() == old(Contents()) - {key}
      ensures found == (key in old(Contents()))
    {
      found := StepAndRemove(key);
      ghost var mid := Repr();
      if found {
        ShrinkIfSparse();
        assert fresh(Repr() - mid);
      }
    }

    method StepAndRemove(key: K) returns (found: bool)
      requires Valid()
      modifies Repr()
      ensures Valid() && Repr() <= old(Repr())
      ensures Contents() == old(Contents()) - {key}
      ensures found == (key in old(Contents()))
    {
      Step();
      found := RemoveKey(key);
    }

    method RemoveKey(key: K) returns (found: bool)
      requires Valid()
      modifies tab0, tab1
      ensures Valid() && Repr() == old(Repr())
      ensures Contents() == old(Contents()) - {key}
      ensures found == (key in old(Contents()))
    {
      ghost var m0, m1 := tab0.contents, if tab1 == null then map[] else tab1.contents;
      found := tab0.Remove(key, hashOf(key));
      if tab1 != null {
        if !found {
          found := tab1.Remove(key, hashOf(key));
        }
        assert tab1.contents == m1 - {key};
        MinusUnion(m0, m1, key);
      }
    }

    /** RehashPass on one dict: a rehash is over after at most size + 1 calls. */
    method RehashToEnd(batch: nat) returns (calls: nat)
      requires Valid() && batch > 0
      modifies Repr()
      ensures Valid() && Contents() == old(Contents()) && rehashAt < 0
      ensures calls <= old(Left())
    {
      calls := 0;
      var more := rehashAt >= 0;
      while more
        invariant Valid() && Contents() == old(Contents()) && Repr() <= old(Repr())
        invariant more <==> rehashAt >= 0
        invariant calls + Left() <= old(Left())
        decreases Left()
      {
        more := RehashBuckets(batch);
        calls := calls + 1;
      }
    }
  }

  lemma ReplaceLeft<K, V>(a: map<K, V>, b: map<K, V>, key: K, val: V)
    requires key in a && a.Keys !! b.Keys
    ensures a[key := val] + b == (a + b)[key := val] && a[key := val].Keys == a.Keys
  {
  }

  lemma ReplaceRight<K, V>(a: map<K, V>, b: map<K, V>, key: K, val: V)
    ensures a + b[key := val] == (a + b)[key := val]
    ensures key in b ==> b[key := val].Keys == b.Keys
  {
  }

  /** An entry that changes sides. */
  lemma UnionMoves<K, V>(a: map<K, V>, b: map<K, V>, key: K)
    requires key in a && a.Keys !! b.Keys
    ensures (a - {key}) + b[key := a[key]] == a + b && (a - {key}).Keys !! b[key := a[key]].Keys
  {
  }

  lemma MinusUnion<K, V>(a: map<K, V>, b: map<K, V>, key: K)
    ensures (a - {key}) + (b - {key}) == (a + b) - {key}
  {
  }

  lemma DisjointUnion<K, V>(a: map<K, V>, b: map<K, V>)
    requires a.Keys !! b.Keys
    ensures |a + b| == |a| + |b|
  {
    assert (a + b).Keys == a.Keys + b.Keys;
    assert |a.Keys + b.Keys| == |a.Keys| + |b.Keys|;
  }
}
