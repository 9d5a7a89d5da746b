/** The operations of one hash table, in place (engine/dict.go `table`). */
module TableOps {
  import opened Options
  import opened Seqs
  import opened HashTable

  /** hash & mask, for a table of `n` buckets, a power of two. */
  function Bucket(n: nat): nat -> nat
    requires n > 0
  {
    (h: nat) => h % n
  }

  ghost predicate Hashed<K(!new), V(!new)>(cells: seq<Cell<K, V>>, hashOf: K -> nat) {
    forall i | 0 <= i < |cells| && cells[i].Cell? :: cells[i].hash == hashOf(cells[i].key)
  }

  lemma OneLess<K, P>(m: map<K, P>, m': map<K, P>, key: K)
    requires key in m && m'.Keys == m.Keys - {key}
    ensures |m'| == |m| - 1
  {
    assert |m'| == |m'.Keys| && |m| == |m.Keys|;
  }

  /** The same buckets are empty. */
  ghost predicate SameEmpty<K(!new), V(!new)>(s: seq<Cell<K, V>>, t: seq<Cell<K, V>>) {
    |s| == |t| && forall x | 0 <= x < |s| :: s[x].Empty? == t[x].Empty?
  }

  ghost predicate SameLengths(s: seq<seq<nat>>, t: seq<seq<nat>>) {
    |s| == |t| && forall x | 0 <= x < |s| :: |s[x]| == |t[x]|
  }

  /** The walk of dropOverflow to the entry that points at `last`.  The arena has
      already had its hole filled, which no chain entry can notice. */
  method Before<K(!new), V(!new)>(heads: seq<Cell<K, V>>, ghost was: seq<Cell<K, V>>, over: seq<Cell<K, V>>, b: nat, last: nat,
                                  ghost bucket: nat -> nat, ghost c: seq<nat>, ghost j: nat)
    returns (e: int)
    requires b < |heads| && heads[b].Cell? && Linked(heads, was, bucket, b, c)
    requires 0 < j < |c| && c[j] == last && |over| == |was|
    requires forall x | 0 <= x < |c| && c[x] < |was| :: over[c[x]] == was[c[x]]
    ensures e == c[j - 1]
  {
    e := heads[b].next;
    ghost var x := 0;
    assert LinkAt(was, bucket, b, c, 0);
    while over[e].next != last
      invariant x < j && e == c[x] && 0 <= e < |over| && over[e] == was[e] && over[e].Cell?
      decreases j - x
    {
      assert LinkAt(was, bucket, b, c, x);
      assert LinkAt(was, bucket, b, c, x + 1);
      e := over[e].next;
      x := x + 1;
    }
    assert LinkAt(was, bucket, b, c, x);
    assert x + 1 == j;
  }

  /** The two writes of dropOverflow: the last entry into the hole, and whatever pointed
      at it repointed. */
  method Relocate<K(!new), V(!new)>(heads: seq<Cell<K, V>>, over: seq<Cell<K, V>>, i: nat, b: nat,
                                    ghost bucket: nat -> nat, ghost c: seq<nat>, ghost j: nat)
    returns (heads': seq<Cell<K, V>>, over': seq<Cell<K, V>>)
    requires i < |over| - 1 && b < |heads| && heads[b].Cell? && Linked(heads, over, bucket, b, c)
    requires i !in c && j < |c| && c[j] == |over| - 1
    ensures j > 0 ==> c[j - 1] < |over| && c[j - 1] != i && over[c[j - 1]].Cell?
    ensures heads' == MovedHeads(heads, b, j, i) && over' == Moved(over, c, j, i)
  {
    var last := |over| - 1;
    MoveChain(heads, over, bucket, c, b, j, i);
    var filled := over[i := over[last]];
    assert j > 0 ==> c[0] != c[j];
    if heads[b].next == last {
      return heads[b := heads[b].(next := i)], filled[..last];
    }
    var e := Before(heads, over, filled, b, last, bucket, c, j);
    return heads, filled[e := filled[e].(next := i)][..last];
  }

  /** The heads in order... */
  method ListHeads<K(!new), V(!new)>(heads: seq<Cell<K, V>>, ghost over: seq<Cell<K, V>>, ghost index: map<K, Spot>,
                                     ghost contents: map<K, V>)
    returns (out: seq<(K, V)>)
    requires Indexed(heads, over, index, -1) && contents == Stored(heads, over, index, -1)
    ensures Walked(|heads|, index, contents, out, |heads|)
  {
    out := [];
    var j := 0;
    while j < |heads|
      invariant 0 <= j <= |heads| && Walked(|heads|, index, contents, out, j)
    {
      WalkOne(heads, over, index, contents, out, j, heads[j]);
      if heads[j].Cell? {
        out := out + [(heads[j].key, heads[j].val)];
      }
      j := j + 1;
    }
  }

  /** ... then the arena. */
  method ListOver<K(!new), V(!new)>(heads: seq<Cell<K, V>>, over: seq<Cell<K, V>>, ghost index: map<K, Spot>, ghost contents: map<K, V>,
                                    first: seq<(K, V)>)
    returns (out: seq<(K, V)>)
    requires Indexed(heads, over, index, -1) && contents == Stored(heads, over, index, -1)
    requires (forall j | 0 <= j < |over| :: over[j].Cell?) && Walked(|heads|, index, contents, first, |heads|)
    ensures Lists(contents, out)
  {
    out := first;
    var j := 0;
    while j < |over|
      invariant 0 <= j <= |over| && Walked(|heads|, index, contents, out, |heads| + j)
    {
      WalkOne(heads, over, index, contents, out, |heads| + j, over[j]);
      out := out + [(over[j].key, over[j].val)];
      j := j + 1;
    }
    WalkWhole(heads, over, index, contents, out);
  }

  /** What dropOverflow's move keeps. */
  lemma MovedAll<K(!new), V(!new)>(heads: seq<Cell<K, V>>, over: seq<Cell<K, V>>, bucket: nat -> nat, chains: seq<seq<nat>>,
                                   index: map<K, Spot>, hashOf: K -> nat, i: nat, b: nat, j: nat)
    requires i < |over| - 1 && Shaped(heads, over, bucket, chains, i) && Indexed(heads, over, index, i)
    requires Hashed(heads, hashOf) && Hashed(over, hashOf)
    requires over[|over| - 1].Cell? && b == bucket(over[|over| - 1].hash) && b < |heads| && heads[b].Cell?
    requires j < |chains[b]| && chains[b][j] == |over| - 1
    ensures j > 0 ==> chains[b][j - 1] < |over| && chains[b][j - 1] != i && over[chains[b][j - 1]].Cell?
    ensures over[|over| - 1].key in index
    ensures var heads', over' := MovedHeads(heads, b, j, i), Moved(over, chains[b], j, i);
            var chains', index' := chains[b := Repointed(chains[b], j, i)], index[over[|over| - 1].key := InOver(i)];
            && Shaped(heads', over', bucket, chains', -1) && Indexed(heads', over', index', -1)
            && Hashed(heads', hashOf) && Hashed(over', hashOf)
            && Stored(heads', over', index', -1) == Stored(heads, over, index, i) && index'.Keys == index.Keys
            && SameEmpty(heads, heads') && SameLengths(chains, chains')
  {
    DropMoveShape(heads, over, bucket, chains, i, b, j);
    MoveRelinks(heads, over, chains[b], b, j, i);
    MoveIndex(heads, over, MovedHeads(heads, b, j, i), Moved(over, chains[b], j, i), index, i);
    RelinkedHashed(heads, MovedHeads(heads, b, j, i), hashOf);
    RelinkedHashed(over[i := over[|over| - 1]][..|over| - 1], Moved(over, chains[b], j, i), hashOf);
  }

  lemma RelinkedHashed<K(!new), V(!new)>(s: seq<Cell<K, V>>, t: seq<Cell<K, V>>, hashOf: K -> nat)
    requires Relinked(s, t) && Hashed(s, hashOf)
    ensures Hashed(t, hashOf)
  {
  }

  class Table<K(==,!new), V(!new)> {
    const hashOf: K -> nat
    var heads: seq<Cell<K, V>>
    var over: seq<Cell<K, V>>
    var live: nat
    /** The arena slots of each bucket's chain, in order. */
    ghost var chains: seq<seq<nat>>
    /** Where each key is. */
    ghost var index: map<K, Spot>
    /** The finite map the table stands for. */
    ghost var contents: map<K, V>

    /** Chains acyclic and in their hash's bucket, every arena slot but the hole in
        exactly one of them, keys unique. */
    ghost predicate Consistent(hole: int)
      reads this
    {
      && |heads| > 0
      && Shaped(heads, over, Bucket(|heads|), chains, hole)
      && Indexed(heads, over, index, hole)
      && Hashed(heads, hashOf) && Hashed(over, hashOf)
    }

    ghost predicate Valid()
      reads this
    {
      Consistent(-1) && live == |index| && contents == Stored(heads, over, index, -1)
    }

    predicate Occupied(b: nat)
      requires b < |heads|
      reads this
    {
      heads[b].Cell?
    }

    /** Entries in a bucket. */
    ghost function Load(b: nat): nat
      requires Valid() && b < |heads|
      reads this
    {
      if heads[b].Empty? then 0 else |chains[b]| + 1
    }

    constructor (hashOf: K -> nat, buckets: nat)
      requires buckets > 0
      ensures Valid() && contents == map[] && |heads| == buckets && this.hashOf == hashOf
    {
      this.hashOf := hashOf;
      heads := seq(buckets, (i: int) => Empty);
      over, live := [], 0;
      chains := seq(buckets, (i: int) => []);
      index, contents := map[], map[];
    }

    /** A key that is stored is in the chain of its hash's bucket. */
    lemma Located(key: K)
      requires Consistent(-1)
      ensures var b := hashOf(key) % |heads|;
              key in index ==>
                || (heads[b].Cell? && heads[b].key == key)
                || exists x :: 0 <= x < |chains[b]| && chains[b][x] < |over| && over[chains[b][x]].Cell?
                               && over[chains[b][x]].key == key
    {
      var b := hashOf(key) % |heads|;
      if key in index {
        assert IsAt(heads, over, -1, key, index[key]);
        match index[key] {
          case InHead(x) =>
            assert Linked(heads, over, Bucket(|heads|), x, chains[x]);
          case InOver(i) =>
            assert Covered(over, Bucket(|heads|), chains, i);
            var x :| 0 <= x < |chains[b]| && chains[b][x] == i;
        }
      }
    }

    method Lookup(key: K, hash: nat) returns (r: Option<V>)
      requires Valid() && hash == hashOf(key)
      ensures r == if key in contents then Some(contents[key]) else None
    {
      var b := hash % |heads|;
      if heads[b].Cell? {
        if heads[b].hash == hash && heads[b].key == key {
          return Some(heads[b].val);
        }
        assert Linked(heads, over, Bucket(|heads|), b, chains[b]);
        var e := heads[b].next;
        ghost var j := 0;
        while e != -1
          invariant j <= |chains[b]| && e == NextAt(chains[b], j)
          invariant forall x | 0 <= x < j && chains[b][x] < |over| && over[chains[b][x]].Cell? :: over[chains[b][x]].key != key
          decreases |chains[b]| - j
        {
          assert LinkAt(over, Bucket(|heads|), b, chains[b], j);
          if over[e].hash == hash && over[e].key == key {
            return Some(over[e].val);
          }
          e := over[e].next;
          j := j + 1;
        }
      } else {
        assert Linked(heads, over, Bucket(|heads|), b, chains[b]);
      }
      Located(key);
      return None;
    }

    method Replace(key: K, hash: nat, val: V) returns (found: bool)
      requires Valid() && hash == hashOf(key)
      modifies this`heads, this`over, this`contents
      ensures Valid() && |heads| == old(|heads|)
      ensures found == (key in old(contents))
      ensures contents == if found then old(contents)[key := val] else old(contents)
      ensures forall x | 0 <= x < |heads| :: Occupied(x) == old(Occupied(x))
    {
      var b := hash % |heads|;
      ghost var heads0, over0 := heads, over;
      assert Linked(heads, over, Bucket(|heads|), b, chains[b]);
      if heads[b].Cell? {
        if heads[b].hash == hash && heads[b].key == key {
          heads := heads[b := heads[b].(val := val)];
          assert heads[b] == heads0[b].(val := val);
          ReplaceShape(heads0, over0, heads, over, Bucket(|heads|), chains);
          ReplaceIndex(heads0, over0, index, key, val, heads, over);
          contents := contents[key := val];
          return true;
        }
        var e := heads[b].next;
        ghost var j := 0;
        while e != -1
          invariant j <= |chains[b]| && e == NextAt(chains[b], j)
          invariant heads == heads0 && over == over0 && contents == old(contents)
          invariant forall x | 0 <= x < j && chains[b][x] < |over| && over[chains[b][x]].Cell? :: over[chains[b][x]].key != key
          decreases |chains[b]| - j
        {
          assert LinkAt(over, Bucket(|heads|), b, chains[b], j);
          if over[e].hash == hash && over[e].key == key {
            over := over[e := over[e].(val := val)];
            assert over[e] == over0[e].(val := val);
            ReplaceShape(heads0, over0, heads, over, Bucket(|heads|), chains);
            ReplaceIndex(heads0, over0, index, key, val, heads, over);
            contents := contents[key := val];
            return true;
          }
          e := over[e].next;
          j := j + 1;
        }
      }
      Located(key);
      return false;
    }

    /** insert: the key is known not to be present. */
    method Insert(key: K, hash: nat, val: V)
      requires Valid() && hash == hashOf(key) && key !in contents
      modifies this
      ensures Valid() && |heads| == old(|heads|)
      ensures contents == old(contents)[key := val]
      ensures live == old(live) + 1
    {
      var b := hash % |heads|;
      ghost var heads0, over0, bucket := heads, over, Bucket(|heads|);
      if heads[b].Empty? {
        var cell := Cell(hash, -1, key, val);
        InsertHeadShape(heads, over, bucket, chains, cell, b);
        heads := heads[b := cell];
        InsertIndex(heads0, over0, heads, over, index, cell, b);
        index := index[key := InHead(b)];
      } else {
        var cell := Cell(hash, heads[b].next, key, val);
        InsertOverShape(heads, over, bucket, chains, cell, b);
        ghost var slot: nat := |over|;
        over := over + [cell];
        heads := heads[b := heads[b].(next := |over| - 1)];
        InsertIndex(heads0, over0, heads, over, index, cell, b);
        chains := chains[b := [slot] + chains[b]];
        index := index[key := InOver(slot)];
      }
      contents := contents[key := val];
      live := live + 1;
    }

    /** dropOverflow when the freed slot is not the last: the last entry takes its
        place and whatever pointed at the last entry is repointed. */
    method MoveLast(i: nat)
      requires i < |over| - 1 && Consistent(i)
      modifies this`heads, this`over, this`chains, this`index
      ensures Consistent(-1)
      ensures Stored(heads, over, index, -1) == Stored(old(heads), old(over), old(index), i)
      ensures index.Keys == old(index).Keys
      ensures SameEmpty(old(heads), heads) && SameLengths(old(chains), chains)
    {
      var last := |over| - 1;
      ghost var heads0, over0, bucket := heads, over, Bucket(|heads|);
      ghost var j := LastHasHead(heads, over, bucket, chains, i, last);
      var moved := over[last];
      var b := moved.hash % |heads|;
      ghost var c := chains[b];
      assert Linked(heads, over, bucket, b, c);
      heads, over := Relocate(heads, over, i, b, bucket, c, j);
      MovedAll(heads0, over0, bucket, chains, index, hashOf, i, b, j);
      chains := chains[b := Repointed(c, j, i)];
      index := index[moved.key := InOver(i)];
    }

    /** dropOverflow: slot `i` is in no chain and is given up. */
    method DropOverflow(i: nat)
      requires i < |over| && Consistent(i)
      modifies this`heads, this`over, this`chains, this`index
      ensures Consistent(-1)
      ensures Stored(heads, over, index, -1) == Stored(old(heads), old(over), old(index), i)
      ensures index.Keys == old(index).Keys
      ensures SameEmpty(old(heads), heads) && SameLengths(old(chains), chains)
    {
      if i == |over| - 1 {
        ghost var over0 := over;
        DropLastShape(heads, over, Bucket(|heads|), chains);
        over := over[..i];
        MoveIndex(heads, over0, heads, over, index, i);
      } else {
        MoveLast(i);
      }
    }

    /** The part of unlinkHead that promotes the first overflow entry. */
    method Promote(b: nat)
      requires Consistent(-1) && b < |heads| && heads[b].Cell? && heads[b].next != -1
      modifies this`heads, this`over, this`chains, this`index
      ensures Consistent(-1)
      ensures Stored(heads, over, index, -1) == Stored(old(heads), old(over), old(index), -1) - {old(heads)[b].key}
      ensures index.Keys == old(index).Keys - {old(heads)[b].key}
      ensures SameEmpty(old(heads), heads)
      ensures old(chains[b]) != [] && b < |chains| && |chains[b]| == old(|chains[b]|) - 1
    {
      ghost var bucket := Bucket(|heads|);
      assert Linked(heads, over, bucket, b, chains[b]) && LinkAt(over, bucket, b, chains[b], 0);
      var i := heads[b].next;
      PromoteShape(heads, over, bucket, chains, b);
      PromoteIndex(heads, over, index, b, i);
      assert over[i].key in index && over[i].key != heads[b].key;
      index := (index - {heads[b].key})[over[i].key := InHead(b)];
      heads := heads[b := over[i]];
      chains := chains[b := chains[b][1..]];
      DropOverflow(i);
    }

    /** The other part: a bucket without overflow becomes empty. */
    method ClearHead(b: nat)
      requires Consistent(-1) && b < |heads| && heads[b].Cell? && heads[b].next == -1
      modifies this`heads, this`index
      ensures Consistent(-1) && chains[b] == []
      ensures Stored(heads, over, index, -1) == Stored(old(heads), over, old(index), -1) - {old(heads)[b].key}
      ensures index.Keys == old(index).Keys - {old(heads)[b].key}
      ensures heads == old(heads)[b := Empty]
    {
      assert Linked(heads, over, Bucket(|heads|), b, chains[b]);
      ClearHeadShape(heads, over, Bucket(|heads|), chains, b);
      ClearIndex(heads, over, index, b);
      index := index - {heads[b].key};
      heads := heads[b := Empty];
    }

    /** unlinkHead: the first overflow entry, if any, is promoted into the bucket. */
    method UnlinkHead(b: nat)
      requires Valid() && b < |heads| && heads[b].Cell?
      modifies this
      ensures Valid() && |heads| == old(|heads|)
      ensures contents == old(contents) - {old(heads)[b].key}
      ensures live == old(live) - 1
      ensures forall x | 0 <= x < |heads| && x != b :: heads[x].Empty? == old(heads)[x].Empty?
      ensures heads[b].Empty? <==> old(chains[b]) == []
      ensures heads[b].Cell? ==> b < |chains| && |chains[b]| == old(|chains[b]|) - 1
    {
      ghost var index0, key := index, heads[b].key;
      assert key in index;
      assert Linked(heads, over, Bucket(|heads|), b, chains[b]);
      if heads[b].next == -1 {
        ClearHead(b);
      } else {
        Promote(b);
      }
      OneLess(index0, index, key);
      contents := contents - {key};
      live := live - 1;
    }

    /** Take the entry at the head of a bucket, as a migration does. */
    method PopHead(b: nat) returns (key: K, val: V)
      requires Valid() && b < |heads| && Occupied(b)
      modifies this
      ensures Valid() && |heads| == old(|heads|)
      ensures key in old(contents) && old(contents)[key] == val
      ensures contents == old(contents) - {key}
      ensures Load(b) < old(Load(b))
      ensures forall x | 0 <= x < |heads| && x != b :: Occupied(x) == old(Occupied(x))
    {
      key, val := heads[b].key, heads[b].val;
      assert key in index && index[key] == InHead(b);
      assert Linked(heads, over, Bucket(|heads|), b, chains[b]);
      UnlinkHead(b);
    }

    /** unlinkOverflow: bypass the entry, then compact the arena. */
    method UnlinkOverflow(b: nat, prev: int, at: nat, ghost j: nat)
      requires Valid() && b < |heads| && heads[b].Cell? && j < |chains[b]| && at == chains[b][j]
      requires prev == if j == 0 then -1 else chains[b][j - 1]
      requires at < |over| && over[at].Cell?
      modifies this
      ensures Valid() && |heads| == old(|heads|)
      ensures contents == old(contents) - {old(over)[at].key}
      ensures live == old(live) - 1
      ensures SameEmpty(old(heads), heads)
    {
      ghost var index0, key := index, over[at].key;
      assert key in index;
      Bypass(b, prev, at, j);
      DropOverflow(at);
      OneLess(index0, index, key);
      contents := contents - {key};
      live := live - 1;
    }

    method Bypass(b: nat, prev: int, at: nat, ghost j: nat)
      requires Consistent(-1) && b < |heads| && heads[b].Cell? && j < |chains[b]| && at == chains[b][j]
      requires prev == if j == 0 then -1 else chains[b][j - 1]
      requires at < |over| && over[at].Cell?
      modifies this`heads, this`over, this`chains, this`index
      ensures |over| == old(|over|) && Consistent(at)
      ensures Stored(heads, over, index, at) == Stored(old(heads), old(over), old(index), -1) - {old(over)[at].key}
      ensures index.Keys == old(index).Keys - {old(over)[at].key}
      ensures SameEmpty(old(heads), heads)
    {
      ghost var heads0, over0, c, bucket := heads, over, chains[b], Bucket(|heads|);
      assert Linked(heads, over, bucket, b, c) && LinkAt(over, bucket, b, c, j);
      BypassShape(heads, over, bucket, chains, b, j);
      if prev == -1 {
        heads := heads[b := heads[b].(next := over[at].next)];
      } else {
        over := over[prev := over[prev].(next := over[at].next)];
      }
      assert heads == BypassedHeads(heads0, c, b, j) && over == Bypassed(over0, c, j);
      BypassIndex(heads0, over0, heads, over, index, at);
      index := index - {over0[at].key};
      chains := chains[b := Without(c, j)];
    }

    method Remove(key: K, hash: nat) returns (found: bool)
      requires Valid() && hash == hashOf(key)
      modifies this
      ensures Valid() && |heads| == old(|heads|)
      ensures found == (key in old(contents))
      ensures contents == old(contents) - {key}
      ensures live == old(live) - (if found then 1 else 0)
      ensures forall x | 0 <= x < |heads| && Occupied(x) :: old(Occupied(x))
    {
      var b := hash % |heads|;
      assert Linked(heads, over, Bucket(|heads|), b, chains[b]);
      if heads[b].Cell? {
        if heads[b].hash == hash && heads[b].key == key {
          UnlinkHead(b);
          return true;
        }
        var e, prev := heads[b].next, -1;
        ghost var j := 0;
        while e != -1
          invariant j <= |chains[b]| && e == NextAt(chains[b], j)
          invariant prev == if j == 0 then -1 else chains[b][j - 1]
          invariant forall x | 0 <= x < j && chains[b][x] < |over| && over[chains[b][x]].Cell? :: over[chains[b][x]].key != key
          decreases |chains[b]| - j
        {
          assert LinkAt(over, Bucket(|heads|), b, chains[b], j);
          if over[e].hash == hash && over[e].key == key {
            assert over[e].key in index;
            UnlinkOverflow(b, prev, e, j);
            return true;
          }
          prev := e;
          e := over[e].next;
          j := j + 1;
        }
      }
      Located(key);
      return false;
    }

    /** visit: every entry of one bucket, and nothing else. */
    method Visit(b: nat) returns (out: seq<(K, V)>)
      requires Valid() && b < |heads|
      ensures forall p | p in out :: p.0 in contents && contents[p.0] == p.1
      ensures forall k | k in contents && hashOf(k) % |heads| == b :: (k, contents[k]) in out
    {
      ghost var bucket := Bucket(|heads|);
      assert Linked(heads, over, bucket, b, chains[b]);
      out := [];
      if heads[b].Cell? {
        out := [(heads[b].key, heads[b].val)];
        assert Stored(heads, over, index, -1)[heads[b].key] == heads[b].val;
        var e := heads[b].next;
        ghost var j := 0;
        while e != -1
          invariant j <= |chains[b]| && e == NextAt(chains[b], j)
          invariant forall p | p in out :: p.0 in contents && contents[p.0] == p.1
          invariant (heads[b].key, heads[b].val) in out
          invariant forall x | 0 <= x < j && chains[b][x] < |over| && over[chains[b][x]].Cell? ::
                      (over[chains[b][x]].key, over[chains[b][x]].val) in out
          decreases |chains[b]| - j
        {
          assert LinkAt(over, bucket, b, chains[b], j);
          assert Stored(heads, over, index, -1)[over[e].key] == over[e].val;
          out := out + [(over[e].key, over[e].val)];
          e := over[e].next;
          j := j + 1;
        }
      }
      forall k | k in contents && hashOf(k) % |heads| == b ensures (k, contents[k]) in out {
        Located(k);
        if heads[b].Cell? && heads[b].key == k {
        } else {
          var x :| 0 <= x < |chains[b]| && chains[b][x] < |over| && over[chains[b][x]].Cell? && over[chains[b][x]].key == k;
          assert index[k] == InOver(chains[b][x]);
        }
      }
    }

    /** forEach over one table. */
    method ForEach() returns (out: seq<(K, V)>)
      requires Valid()
      ensures Lists(contents, out)
    {
      forall j | 0 <= j < |over| ensures over[j].Cell? {
        assert Covered(over, Bucket(|heads|), chains, j);
      }
      out := ListHeads(heads, over, index, contents);
      out := ListOver(heads, over, index, contents, out);
    }

    /** A table whose buckets are all empty holds nothing. */
    lemma NothingLeft()
      requires Valid() && forall b | 0 <= b < |heads| :: !Occupied(b)
      ensures contents == map[]
    {
      forall k ensures k !in index {
        var b := hashOf(k) % |heads|;
        assert !Occupied(b);
        assert Linked(heads, over, Bucket(|heads|), b, chains[b]);
        Located(k);
      }
    }

    lemma Count()
      requires Valid()
      ensures live == |contents|
    {
      assert index.Keys == contents.Keys;
      assert |index| == |index.Keys| && |contents| == |contents.Keys|;
    }
  }
}
