/** One hash table of engine/dict.go: the head of every chain inline in its
    bucket, the rest in an overflow arena kept dense by moving the last entry into
    a freed slot. */
module HashTable {
  import opened Seqs

  /** A slot.  `Empty` is the program's noHead mark; `next` is an index into the
      overflow arena or -1, which ends the chain. */
  datatype Cell<K, V> = Empty | Cell(hash: nat, next: int, key: K, val: V)

  /** Where a key is stored. */
  datatype Spot = InHead(b: nat) | InOver(i: nat)

  function NextAt(c: seq<nat>, j: nat): int {
    if j < |c| then c[j] else -1
  }

  ghost predicate NoDup(c: seq<nat>) {
    forall j, k | 0 <= j < k < |c| :: c[j] != c[k]
  }

  /** The chain of bucket `b` is the arena slots `c`, in order; `bucket` is
      hash & mask. */
  ghost predicate Linked<K(!new), V(!new)>(heads: seq<Cell<K, V>>, over: seq<Cell<K, V>>, bucket: nat -> nat, b: nat, c: seq<nat>)
    requires b < |heads|
  {
    && (heads[b].Empty? ==> c == [])
    && (heads[b].Cell? ==> heads[b].next == NextAt(c, 0) && bucket(heads[b].hash) == b)
    && NoDup(c)
    && forall j | 0 <= j < |c| :: LinkAt(over, bucket, b, c, j)
  }

  ghost predicate LinkAt<K(!new), V(!new)>(over: seq<Cell<K, V>>, bucket: nat -> nat, b: nat, c: seq<nat>, j: nat)
    requires j < |c|
  {
    && c[j] < |over|
    && over[c[j]].Cell?
    && over[c[j]].next == NextAt(c, j + 1)
    && bucket(over[c[j]].hash) == b
  }

  /** Every bucket's chain is well linked, and every arena slot but the hole is in
      the chain of its hash's bucket; the hole is in none.  Chains of different
      buckets are disjoint because a slot has one hash. */
  ghost predicate Shaped<K(!new), V(!new)>(heads: seq<Cell<K, V>>, over: seq<Cell<K, V>>, bucket: nat -> nat,
                                           chains: seq<seq<nat>>, hole: int) {
    && |chains| == |heads|
    && (forall b | 0 <= b < |heads| :: Linked(heads, over, bucket, b, chains[b]))
    && (forall b | 0 <= b < |heads| :: hole < 0 || hole !in chains[b])
    && (forall i | 0 <= i < |over| && i != hole :: Covered(over, bucket, chains, i))
  }

  ghost predicate Covered<K(!new), V(!new)>(over: seq<Cell<K, V>>, bucket: nat -> nat, chains: seq<seq<nat>>, i: nat)
    requires i < |over|
  {
    && over[i].Cell?
    && bucket(over[i].hash) < |chains|
    && i in chains[bucket(over[i].hash)]
  }

  ghost predicate IsAt<K(!new), V(!new)>(heads: seq<Cell<K, V>>, over: seq<Cell<K, V>>, hole: int, k: K, p: Spot) {
    match p
    case InHead(b) => b < |heads| && heads[b].Cell? && heads[b].key == k
    case InOver(i) => i < |over| && i != hole && over[i].Cell? && over[i].key == k
  }

  /** `index` says where each key is; no key is stored twice. */
  ghost predicate Indexed<K(!new), V(!new)>(heads: seq<Cell<K, V>>, over: seq<Cell<K, V>>, index: map<K, Spot>, hole: int) {
    && (forall k | k in index :: IsAt(heads, over, hole, k, index[k]))
    && (forall b | 0 <= b < |heads| && heads[b].Cell? :: heads[b].key in index && index[heads[b].key] == InHead(b))
    && (forall i | 0 <= i < |over| && i != hole && over[i].Cell? ::
          over[i].key in index && index[over[i].key] == InOver(i))
  }

  function ValAt<K, V>(heads: seq<Cell<K, V>>, over: seq<Cell<K, V>>, p: Spot): V
    requires p.InHead? ==> p.b < |heads| && heads[p.b].Cell?
    requires p.InOver? ==> p.i < |over| && over[p.i].Cell?
  {
    match p
    case InHead(b) => heads[b].val
    case InOver(i) => over[i].val
  }

  ghost function Stored<K(!new), V(!new)>(heads: seq<Cell<K, V>>, over: seq<Cell<K, V>>, index: map<K, Spot>, hole: int): map<K, V>
    requires Indexed(heads, over, index, hole)
  {
    map k | k in index :: ValAt(heads, over, index[k])
  }

  // -------------------------------------------------------- what keeps the chains

  lemma LinkedFrame<K(!new), V(!new)>(heads: seq<Cell<K, V>>, over: seq<Cell<K, V>>, heads': seq<Cell<K, V>>, over': seq<Cell<K, V>>,
                                      bucket: nat -> nat, b: nat, c: seq<nat>)
    requires b < |heads| && b < |heads'| && heads'[b] == heads[b] && Linked(heads, over, bucket, b, c)
    requires |over'| >= |over|
    requires forall j | 0 <= j < |c| && c[j] < |over| :: over'[c[j]] == over[c[j]]
    ensures Linked(heads', over', bucket, b, c)
  {
    forall j | 0 <= j < |c| ensures LinkAt(over', bucket, b, c, j) {
      assert LinkAt(over, bucket, b, c, j);
    }
  }

  lemma InsertHeadShape<K(!new), V(!new)>(heads: seq<Cell<K, V>>, over: seq<Cell<K, V>>, bucket: nat -> nat,
                                          chains: seq<seq<nat>>, cell: Cell<K, V>, b: nat)
    requires Shaped(heads, over, bucket, chains, -1)
    requires b < |heads| && heads[b].Empty? && cell.Cell? && cell.next == -1 && bucket(cell.hash) == b
    ensures Shaped(heads[b := cell], over, bucket, chains, -1)
  {
    var heads' := heads[b := cell];
    forall x | 0 <= x < |heads'| ensures Linked(heads', over, bucket, x, chains[x]) {
      assert Linked(heads, over, bucket, x, chains[x]);
    }
  }

  lemma InsertOverShape<K(!new), V(!new)>(heads: seq<Cell<K, V>>, over: seq<Cell<K, V>>, bucket: nat -> nat,
                                          chains: seq<seq<nat>>, cell: Cell<K, V>, b: nat)
    requires Shaped(heads, over, bucket, chains, -1)
    requires b < |heads| && heads[b].Cell? && cell.Cell? && cell.next == heads[b].next && bucket(cell.hash) == b
    ensures Shaped(heads[b := heads[b].(next := |over|)], over + [cell], bucket, chains[b := [|over|] + chains[b]], -1)
  {
    var over', heads' := over + [cell], heads[b := heads[b].(next := |over|)];
    var chains' := chains[b := [|over|] + chains[b]];
    forall x | 0 <= x < |heads'| ensures Linked(heads', over', bucket, x, chains'[x]) {
      assert Linked(heads, over, bucket, x, chains[x]);
      if x != b {
        LinkedFrame(heads, over, heads', over', bucket, x, chains[x]);
      } else {
        var c := chains[b];
        forall j | 0 <= j < |chains'[b]| ensures LinkAt(over', bucket, b, chains'[b], j) {
          if j > 0 {
            assert LinkAt(over, bucket, b, c, j - 1);
          }
        }
        forall j | 0 <= j < |c| ensures c[j] != |over| {
          assert LinkAt(over, bucket, b, c, j);
        }
      }
    }
    forall i | 0 <= i < |over'| ensures Covered(over', bucket, chains', i) {
      if i < |over| {
        assert Covered(over, bucket, chains, i);
      } else {
        assert chains'[b][0] == |over|;
      }
    }
  }

  /** Changing a value leaves every link alone. */
  lemma ReplaceShape<K(!new), V(!new)>(heads: seq<Cell<K, V>>, over: seq<Cell<K, V>>, heads': seq<Cell<K, V>>, over': seq<Cell<K, V>>,
                                       bucket: nat -> nat, chains: seq<seq<nat>>)
    requires Shaped(heads, over, bucket, chains, -1)
    requires |heads'| == |heads| && |over'| == |over|
    requires forall b | 0 <= b < |heads| :: heads'[b] == heads[b] || (heads[b].Cell? && exists v :: heads'[b] == heads[b].(val := v))
    requires forall i | 0 <= i < |over| :: over'[i] == over[i] || (over[i].Cell? && exists v :: over'[i] == over[i].(val := v))
    ensures Shaped(heads', over', bucket, chains, -1)
  {
    forall x | 0 <= x < |heads'| ensures Linked(heads', over', bucket, x, chains[x]) {
      assert Linked(heads, over, bucket, x, chains[x]);
      forall j | 0 <= j < |chains[x]| ensures LinkAt(over', bucket, x, chains[x], j) {
        assert LinkAt(over, bucket, x, chains[x], j);
      }
    }
    forall i | 0 <= i < |over'| ensures Covered(over', bucket, chains, i) {
      assert Covered(over, bucket, chains, i);
    }
  }

  lemma ClearHeadShape<K(!new), V(!new)>(heads: seq<Cell<K, V>>, over: seq<Cell<K, V>>, bucket: nat -> nat,
                                         chains: seq<seq<nat>>, b: nat)
    requires Shaped(heads, over, bucket, chains, -1)
    requires b < |heads| && heads[b].Cell? && chains[b] == []
    ensures Shaped(heads[b := Empty], over, bucket, chains, -1)
  {
    var heads' := heads[b := Empty];
    forall x | 0 <= x < |heads'| ensures Linked(heads', over, bucket, x, chains[x]) {
      assert Linked(heads, over, bucket, x, chains[x]);
    }
  }

  /** Promote the first overflow entry into the bucket: its arena slot becomes the
      hole. */
  lemma PromoteShape<K(!new), V(!new)>(heads: seq<Cell<K, V>>, over: seq<Cell<K, V>>, bucket: nat -> nat,
                                       chains: seq<seq<nat>>, b: nat)
    requires Shaped(heads, over, bucket, chains, -1)
    requires b < |heads| && heads[b].Cell? && chains[b] != [] && chains[b][0] < |over|
    ensures Shaped(heads[b := over[chains[b][0]]], over, bucket, chains[b := chains[b][1..]], chains[b][0])
  {
    var c := chains[b];
    var i := c[0];
    assert Linked(heads, over, bucket, b, c) && LinkAt(over, bucket, b, c, 0);
    var heads', chains' := heads[b := over[i]], chains[b := c[1..]];
    forall x | 0 <= x < |heads'| ensures Linked(heads', over, bucket, x, chains'[x]) && i !in chains'[x] {
      assert Linked(heads, over, bucket, x, chains[x]);
      if x == b {
        forall j | 0 <= j < |c[1..]| ensures LinkAt(over, bucket, b, c[1..], j) {
          assert LinkAt(over, bucket, b, c, j + 1);
        }
      } else {
        forall j | 0 <= j < |chains[x]| ensures chains[x][j] != i {
          assert LinkAt(over, bucket, x, chains[x], j);
        }
      }
    }
    forall x | 0 <= x < |over| && x != i ensures Covered(over, bucket, chains', x) {
      assert Covered(over, bucket, chains, x);
    }
  }

  function Without(c: seq<nat>, j: nat): seq<nat>
    requires j < |c|
  {
    c[..j] + c[j + 1..]
  }

  /** The arena after the predecessor of c[j] has been pointed past it. */
  function Bypassed<K, V>(over: seq<Cell<K, V>>, c: seq<nat>, j: nat): seq<Cell<K, V>>
    requires j < |c| && (j > 0 ==> c[j - 1] < |over| && over[c[j - 1]].Cell?)
  {
    if j == 0 then over else over[c[j - 1] := over[c[j - 1]].(next := NextAt(c, j + 1))]
  }

  function BypassedHeads<K, V>(heads: seq<Cell<K, V>>, c: seq<nat>, b: nat, j: nat): seq<Cell<K, V>>
    requires j < |c| && b < |heads| && heads[b].Cell?
  {
    if j == 0 then heads[b := heads[b].(next := NextAt(c, 1))] else heads
  }

  lemma BypassChain<K(!new), V(!new)>(heads: seq<Cell<K, V>>, over: seq<Cell<K, V>>, bucket: nat -> nat, c: seq<nat>, b: nat, j: nat)
    requires b < |heads| && heads[b].Cell? && j < |c| && Linked(heads, over, bucket, b, c)
    ensures j > 0 ==> c[j - 1] < |over| && over[c[j - 1]].Cell?
    ensures Linked(BypassedHeads(heads, c, b, j), Bypassed(over, c, j), bucket, b, Without(c, j))
    ensures c[j] !in Without(c, j)
    ensures forall i | i in c && i != c[j] :: i in Without(c, j)
  {
    if j > 0 {
      assert LinkAt(over, bucket, b, c, j - 1);
    }
    var c', over' := Without(c, j), Bypassed(over, c, j);
    assert forall x | 0 <= x < |c'| :: c'[x] == (if x < j then c[x] else c[x + 1]);
    forall x | 0 <= x < |c'| ensures LinkAt(over', bucket, b, c', x) {
      assert LinkAt(over, bucket, b, c, if x < j then x else x + 1);
    }
    forall i | i in c && i != c[j] ensures i in c' {
      var y :| 0 <= y < |c| && c[y] == i;
      assert c'[if y < j then y else y - 1] == i;
    }
  }

  /** Point the predecessor of the j-th overflow entry past it: its slot becomes
      the hole. */
  lemma BypassShape<K(!new), V(!new)>(heads: seq<Cell<K, V>>, over: seq<Cell<K, V>>, bucket: nat -> nat,
                                      chains: seq<seq<nat>>, b: nat, j: nat)
    requires Shaped(heads, over, bucket, chains, -1)
    requires b < |heads| && heads[b].Cell? && j < |chains[b]|
    ensures j > 0 ==> chains[b][j - 1] < |over| && over[chains[b][j - 1]].Cell?
    ensures Shaped(BypassedHeads(heads, chains[b], b, j), Bypassed(over, chains[b], j), bucket,
                   chains[b := Without(chains[b], j)], chains[b][j])
  {
    var c := chains[b];
    BypassChain(heads, over, bucket, c, b, j);
    assert LinkAt(over, bucket, b, c, j);
    if j > 0 {
      assert LinkAt(over, bucket, b, c, j - 1);
    }
    var heads', over', chains' := BypassedHeads(heads, c, b, j), Bypassed(over, c, j), chains[b := Without(c, j)];
    forall x | 0 <= x < |heads'| ensures Linked(heads', over', bucket, x, chains'[x]) && c[j] !in chains'[x] {
      if x != b {
        assert Linked(heads, over, bucket, x, chains[x]);
        forall y | 0 <= y < |chains[x]| ensures chains[x][y] < |over| && over[chains[x][y]].Cell? && bucket(over[chains[x][y]].hash) == x {
          assert LinkAt(over, bucket, x, chains[x], y);
        }
        LinkedFrame(heads, over, heads', over', bucket, x, chains[x]);
      }
    }
    forall x | 0 <= x < |over'| && x != c[j] ensures Covered(over', bucket, chains', x) {
      assert Covered(over, bucket, chains, x);
    }
  }

  /** The arena after slot `i` has taken over the last entry: the entry before it
      in its chain is pointed at `i`, and the last slot goes. */
  function Moved<K, V>(over: seq<Cell<K, V>>, c: seq<nat>, j: nat, i: nat): seq<Cell<K, V>>
    requires i < |over| && j < |c| && (j > 0 ==> c[j - 1] < |over| && c[j - 1] != i && over[c[j - 1]].Cell?)
  {
    var over1 := over[i := over[|over| - 1]];
    var over2 := if j == 0 then over1 else over1[c[j - 1] := over1[c[j - 1]].(next := i)];
    over2[..|over| - 1]
  }

  function Repointed(c: seq<nat>, j: nat, i: nat): seq<nat>
    requires j < |c|
  {
    c[j := i]
  }

  function MovedHeads<K, V>(heads: seq<Cell<K, V>>, b: nat, j: nat, i: nat): seq<Cell<K, V>>
    requires b < |heads| && heads[b].Cell?
  {
    if j == 0 then heads[b := heads[b].(next := i)] else heads
  }

  lemma MoveChain<K(!new), V(!new)>(heads: seq<Cell<K, V>>, over: seq<Cell<K, V>>, bucket: nat -> nat, c: seq<nat>, b: nat, j: nat, i: nat)
    requires b < |heads| && heads[b].Cell? && j < |c| && Linked(heads, over, bucket, b, c)
    requires i < |over| - 1 && i !in c && c[j] == |over| - 1
    ensures j > 0 ==> c[j - 1] < |over| - 1 && c[j - 1] != i && over[c[j - 1]].Cell?
    ensures Linked(MovedHeads(heads, b, j, i), Moved(over, c, j, i), bucket, b, Repointed(c, j, i))
  {
    if j > 0 {
      assert LinkAt(over, bucket, b, c, j - 1);
    }
    var over', c' := Moved(over, c, j, i), Repointed(c, j, i);
    assert LinkAt(over, bucket, b, c, j);
    forall x | 0 <= x < |c'| ensures LinkAt(over', bucket, b, c', x) {
      assert LinkAt(over, bucket, b, c, x);
      assert x != j ==> c[x] != c[j];
      assert j > 0 && x != j - 1 ==> c[x] != c[j - 1];
    }
  }

  lemma MoveOther<K(!new), V(!new)>(heads: seq<Cell<K, V>>, over: seq<Cell<K, V>>, heads': seq<Cell<K, V>>, over': seq<Cell<K, V>>,
                                    bucket: nat -> nat, b: nat, c: seq<nat>)
    requires b < |heads| && b < |heads'| && heads'[b] == heads[b] && Linked(heads, over, bucket, b, c)
    requires forall j | 0 <= j < |c| && c[j] < |over| :: c[j] < |over'| && over'[c[j]] == over[c[j]]
    ensures Linked(heads', over', bucket, b, c)
  {
    forall j | 0 <= j < |c| ensures LinkAt(over', bucket, b, c, j) {
      assert LinkAt(over, bucket, b, c, j);
    }
  }

  /** dropOverflow when the freed slot is the last one. */
  lemma DropLastShape<K(!new), V(!new)>(heads: seq<Cell<K, V>>, over: seq<Cell<K, V>>, bucket: nat -> nat, chains: seq<seq<nat>>)
    requires over != [] && Shaped(heads, over, bucket, chains, |over| - 1)
    ensures Shaped(heads, over[..|over| - 1], bucket, chains, -1)
  {
    var over' := over[..|over| - 1];
    forall x | 0 <= x < |heads| ensures Linked(heads, over', bucket, x, chains[x]) {
      assert Linked(heads, over, bucket, x, chains[x]);
      forall j | 0 <= j < |chains[x]| ensures chains[x][j] < |over'| {
        assert LinkAt(over, bucket, x, chains[x], j);
      }
      MoveOther(heads, over, heads, over', bucket, x, chains[x]);
    }
    forall x | 0 <= x < |over'| ensures Covered(over', bucket, chains, x) {
      assert Covered(over, bucket, chains, x);
    }
  }

  /** dropOverflow when the last entry moves into the freed slot. */
  lemma DropMoveShape<K(!new), V(!new)>(heads: seq<Cell<K, V>>, over: seq<Cell<K, V>>, bucket: nat -> nat,
                                        chains: seq<seq<nat>>, i: nat, b: nat, j: nat)
    requires i < |over| - 1 && Shaped(heads, over, bucket, chains, i)
    requires over[|over| - 1].Cell? && b == bucket(over[|over| - 1].hash) && b < |heads| && heads[b].Cell?
    requires j < |chains[b]| && chains[b][j] == |over| - 1
    ensures j > 0 ==> chains[b][j - 1] < |over| - 1 && chains[b][j - 1] != i && over[chains[b][j - 1]].Cell?
    ensures Shaped(MovedHeads(heads, b, j, i), Moved(over, chains[b], j, i), bucket,
                   chains[b := Repointed(chains[b], j, i)], -1)
  {
    var c, last := chains[b], |over| - 1;
    assert Linked(heads, over, bucket, b, c);
    MoveChain(heads, over, bucket, c, b, j, i);
    if j > 0 {
      assert LinkAt(over, bucket, b, c, j - 1);
    }
    var heads', over', chains' := MovedHeads(heads, b, j, i), Moved(over, c, j, i), chains[b := Repointed(c, j, i)];
    forall x | 0 <= x < |heads'| ensures Linked(heads', over', bucket, x, chains'[x]) {
      if x != b {
        assert Linked(heads, over, bucket, x, chains[x]);
        forall y | 0 <= y < |chains[x]|
          ensures chains[x][y] < last && over[chains[x][y]].Cell? && bucket(over[chains[x][y]].hash) == x && chains[x][y] != i
        {
          assert LinkAt(over, bucket, x, chains[x], y);
        }
        MoveOther(heads, over, heads', over', bucket, x, chains[x]);
      }
    }
    forall x | 0 <= x < |over'| ensures Covered(over', bucket, chains', x) {
      if x == i {
        assert Repointed(c, j, i)[j] == i;
      } else {
        assert Covered(over, bucket, chains, x);
        var d := chains[bucket(over[x].hash)];
        var y :| 0 <= y < |d| && d[y] == x;
        assert chains'[bucket(over[x].hash)][y] == x;
      }
    }
  }

  /** The last arena entry is in a bucket with a head, so its chain can be walked. */
  lemma LastHasHead<K(!new), V(!new)>(heads: seq<Cell<K, V>>, over: seq<Cell<K, V>>, bucket: nat -> nat,
                                      chains: seq<seq<nat>>, hole: int, i: nat) returns (j: nat)
    requires Shaped(heads, over, bucket, chains, hole) && i < |over| && i != hole
    ensures over[i].Cell? && bucket(over[i].hash) < |heads| && heads[bucket(over[i].hash)].Cell?
    ensures j < |chains[bucket(over[i].hash)]| && chains[bucket(over[i].hash)][j] == i
  {
    assert Covered(over, bucket, chains, i);
    var b := bucket(over[i].hash);
    assert Linked(heads, over, bucket, b, chains[b]);
    j :| 0 <= j < |chains[b]| && chains[b][j] == i;
  }

  // --------------------------------------------------------- what keeps the index

  lemma InsertIndex<K(!new), V(!new)>(heads: seq<Cell<K, V>>, over: seq<Cell<K, V>>, heads': seq<Cell<K, V>>, over': seq<Cell<K, V>>,
                                      index: map<K, Spot>, cell: Cell<K, V>, b: nat)
    requires Indexed(heads, over, index, -1) && cell.Cell? && cell.key !in index && b < |heads|
    requires if heads[b].Empty? then heads' == heads[b := cell] && over' == over
             else heads' == heads[b := heads[b].(next := |over|)] && over' == over + [cell]
    ensures var index' := index[cell.key := if heads[b].Empty? then InHead(b) else InOver(|over|)];
            && Indexed(heads', over', index', -1)
            && Stored(heads', over', index', -1) == Stored(heads, over, index, -1)[cell.key := cell.val]
  {
    var index' := index[cell.key := if heads[b].Empty? then InHead(b) else InOver(|over|)];
    forall k | k in index' ensures IsAt(heads', over', -1, k, index'[k]) {
      if k != cell.key {
        assert IsAt(heads, over, -1, k, index[k]);
      }
    }
  }

  lemma ReplaceIndex<K(!new), V(!new)>(heads: seq<Cell<K, V>>, over: seq<Cell<K, V>>, index: map<K, Spot>, key: K, val: V,
                                       heads': seq<Cell<K, V>>, over': seq<Cell<K, V>>)
    requires Indexed(heads, over, index, -1) && key in index && IsAt(heads, over, -1, key, index[key])
    requires match index[key]
             case InHead(b) => heads' == heads[b := heads[b].(val := val)] && over' == over
             case InOver(i) => heads' == heads && over' == over[i := over[i].(val := val)]
    ensures Indexed(heads', over', index, -1)
    ensures Stored(heads', over', index, -1) == Stored(heads, over, index, -1)[key := val]
  {
    forall k | k in index ensures IsAt(heads', over', -1, k, index[k]) {
      assert IsAt(heads, over, -1, k, index[k]);
    }
  }

  lemma ClearIndex<K(!new), V(!new)>(heads: seq<Cell<K, V>>, over: seq<Cell<K, V>>, index: map<K, Spot>, b: nat)
    requires Indexed(heads, over, index, -1) && b < |heads| && heads[b].Cell?
    ensures var heads', index' := heads[b := Empty], index - {heads[b].key};
            && Indexed(heads', over, index', -1)
            && Stored(heads', over, index', -1) == Stored(heads, over, index, -1) - {heads[b].key}
  {
    var heads', index' := heads[b := Empty], index - {heads[b].key};
    forall k | k in index' ensures IsAt(heads', over, -1, k, index'[k]) {
      assert IsAt(heads, over, -1, k, index[k]);
    }
  }

  lemma PromoteIndex<K(!new), V(!new)>(heads: seq<Cell<K, V>>, over: seq<Cell<K, V>>, index: map<K, Spot>, b: nat, i: nat)
    requires Indexed(heads, over, index, -1) && b < |heads| && heads[b].Cell? && i < |over| && over[i].Cell?
    ensures var heads' := heads[b := over[i]];
            var index' := (index - {heads[b].key})[over[i].key := InHead(b)];
            && Indexed(heads', over, index', i)
            && Stored(heads', over, index', i) == Stored(heads, over, index, -1) - {heads[b].key}
  {
    var heads' := heads[b := over[i]];
    var index' := (index - {heads[b].key})[over[i].key := InHead(b)];
    assert index[over[i].key] == InOver(i) && index[heads[b].key] == InHead(b);
    forall k | k in index' ensures IsAt(heads', over, i, k, index'[k]) {
      if k != over[i].key {
        assert IsAt(heads, over, -1, k, index[k]);
      }
    }
  }

  /** Links do not matter to the index. */
  lemma BypassIndex<K(!new), V(!new)>(heads: seq<Cell<K, V>>, over: seq<Cell<K, V>>, heads': seq<Cell<K, V>>, over': seq<Cell<K, V>>,
                                      index: map<K, Spot>, i: nat)
    requires Indexed(heads, over, index, -1) && i < |over| && over[i].Cell?
    requires Relinked(heads, heads') && Relinked(over, over')
    ensures var index' := index - {over[i].key};
            && Indexed(heads', over', index', i)
            && Stored(heads', over', index', i) == Stored(heads, over, index, -1) - {over[i].key}
  {
    var index' := index - {over[i].key};
    assert index[over[i].key] == InOver(i);
    forall k | k in index' ensures IsAt(heads', over', i, k, index'[k]) {
      assert IsAt(heads, over, -1, k, index[k]);
    }
  }

  /** Same cells up to their links. */
  ghost predicate Relinked<K(!new), V(!new)>(s: seq<Cell<K, V>>, t: seq<Cell<K, V>>) {
    && |s| == |t|
    && forall i | 0 <= i < |s| ::
         && (s[i].Empty? <==> t[i].Empty?)
         && (s[i].Cell? ==> s[i].key == t[i].key && s[i].val == t[i].val && s[i].hash == t[i].hash)
  }

  /** Moving the last entry changes links only, once it has taken its new place. */
  lemma MoveRelinks<K(!new), V(!new)>(heads: seq<Cell<K, V>>, over: seq<Cell<K, V>>, c: seq<nat>, b: nat, j: nat, i: nat)
    requires b < |heads| && heads[b].Cell? && i < |over| - 1 && j < |c|
    requires j > 0 ==> c[j - 1] < |over| && c[j - 1] != i && over[c[j - 1]].Cell?
    ensures Relinked(heads, MovedHeads(heads, b, j, i))
    ensures Relinked(over[i := over[|over| - 1]][..|over| - 1], Moved(over, c, j, i))
  {
  }

  /** The last arena entry moves to slot `i`; everything else stays. */
  lemma MoveIndex<K(!new), V(!new)>(heads: seq<Cell<K, V>>, over: seq<Cell<K, V>>, heads': seq<Cell<K, V>>, over': seq<Cell<K, V>>,
                                    index: map<K, Spot>, i: nat)
    requires Indexed(heads, over, index, i) && i < |over| && (i < |over| - 1 ==> over[|over| - 1].Cell?)
    requires Relinked(heads, heads') && Relinked(over[i := over[|over| - 1]][..|over| - 1], over')
    ensures var index' := if i == |over| - 1 then index else index[over[|over| - 1].key := InOver(i)];
            && Indexed(heads', over', index', -1)
            && Stored(heads', over', index', -1) == Stored(heads, over, index, i)
  {
    var last := |over| - 1;
    var index' := if i == last then index else index[over[last].key := InOver(i)];
    if i != last {
      assert index[over[last].key] == InOver(last);
    }
    forall k | k in index' ensures IsAt(heads', over', -1, k, index'[k]) {
      assert k in index;
      assert IsAt(heads, over, i, k, index[k]);
    }
  }

  // ------------------------------------------------------------------ walking the table

  /** Where a spot comes in a walk of the heads and then of the arena. */
  ghost function Rank(nheads: nat, p: Spot): nat {
    match p
    case InHead(b) => b
    case InOver(i) => nheads + i
  }

  /** The walk has come to spot number `n`: it has listed exactly the entries before. */
  ghost predicate Walked<K(!new), V(!new)>(nheads: nat, index: map<K, Spot>, contents: map<K, V>, out: seq<(K, V)>, n: nat) {
    && (forall x, y | 0 <= x < y < |out| :: out[x].0 != out[y].0)
    && (forall x | 0 <= x < |out| :: out[x].0 in index && Rank(nheads, index[out[x].0]) < n
                                     && out[x].0 in contents && contents[out[x].0] == out[x].1)
    && (forall k | k in index && Rank(nheads, index[k]) < n :: k in contents && (k, contents[k]) in out)
  }

  lemma RankIs<K(!new), V(!new)>(heads: seq<Cell<K, V>>, over: seq<Cell<K, V>>, index: map<K, Spot>, n: nat, cell: Cell<K, V>, k: K)
    requires Indexed(heads, over, index, -1) && n < |heads| + |over|
    requires cell == if n < |heads| then heads[n] else over[n - |heads|]
    ensures k in index && Rank(|heads|, index[k]) == n <==> cell.Cell? && cell.key == k
  {
    if k in index {
      assert IsAt(heads, over, -1, k, index[k]);
    }
  }

  lemma WalkOne<K(!new), V(!new)>(heads: seq<Cell<K, V>>, over: seq<Cell<K, V>>, index: map<K, Spot>, contents: map<K, V>,
                                  out: seq<(K, V)>, n: nat, cell: Cell<K, V>)
    requires Indexed(heads, over, index, -1) && contents == Stored(heads, over, index, -1)
    requires Walked(|heads|, index, contents, out, n) && n < |heads| + |over|
    requires cell == if n < |heads| then heads[n] else over[n - |heads|]
    ensures Walked(|heads|, index, contents, if cell.Empty? then out else out + [(cell.key, cell.val)], n + 1)
  {
    forall k ensures k in index && Rank(|heads|, index[k]) == n <==> cell.Cell? && cell.key == k {
      RankIs(heads, over, index, n, cell, k);
    }
    if cell.Cell? {
      RankIs(heads, over, index, n, cell, cell.key);
      assert contents[cell.key] == cell.val;
      WalkAdd(|heads|, index, contents, out, n, cell.key);
    }
  }

  lemma WalkAdd<K(!new), V(!new)>(nheads: nat, index: map<K, Spot>, contents: map<K, V>, out: seq<(K, V)>, n: nat, key: K)
    requires Walked(nheads, index, contents, out, n) && key in index && Rank(nheads, index[key]) == n && key in contents
    requires forall k | k in index && Rank(nheads, index[k]) == n :: k == key
    ensures Walked(nheads, index, contents, out + [(key, contents[key])], n + 1)
  {
    var more := out + [(key, contents[key])];
    assert more[|out|] == (key, contents[key]);
    forall k | k in index && Rank(nheads, index[k]) < n + 1 ensures k in contents && (k, contents[k]) in more {
      if k != key {
        assert (k, contents[k]) in out;
      }
    }
  }

  lemma WalkWhole<K(!new), V(!new)>(heads: seq<Cell<K, V>>, over: seq<Cell<K, V>>, index: map<K, Spot>, contents: map<K, V>,
                                    out: seq<(K, V)>)
    requires Indexed(heads, over, index, -1) && contents == Stored(heads, over, index, -1)
    requires Walked(|heads|, index, contents, out, |heads| + |over|)
    ensures Lists(contents, out)
  {
    forall k | k in contents ensures (k, contents[k]) in out {
      assert IsAt(heads, over, -1, k, index[k]);
    }
  }
}
