/** The skiplist behind sorted sets (engine/skiplist.go), over any strict total order
    of keys. */
module Skiplist {
  import opened Options
  import opened SkipShape

  const MaxLevel: nat := 32

  /** `less` orders keys strictly and totally. */
  ghost predicate TotalOrder<K(!new)>(less: (K, K) -> bool) {
    && (forall a :: !less(a, a))
    && (forall a, b :: a == b || less(a, b) || less(b, a))
    && (forall a, b, c :: less(a, b) && less(b, c) ==> less(a, c))
  }

  ghost predicate Sorted<K>(less: (K, K) -> bool, keys: seq<K>) {
    forall i, j | 0 <= i < j < |keys| :: less(keys[i], keys[j])
  }

  /** How many keys a downward-closed condition takes, which is a prefix of them. */
  ghost predicate Splits<K>(keys: seq<K>, goes: K -> bool, r: nat) {
    r <= |keys| && (forall p | 0 <= p < |keys| :: goes(keys[p]) <==> p < r)
  }

  /** The list's level is at least every node's height, and the head has no links
      above it. */
  ghost predicate TallLinks<N>(links: seq<seq<Link<N>>>, none: N, level: nat) {
    && 1 <= level <= MaxLevel && |links| > 0 && |links[0]| == MaxLevel
    && (forall p | 0 < p < |links| :: 1 <= |links[p]| <= level)
    && (forall i | level <= i < MaxLevel :: links[0][i].next == none)
  }

  class Node<K> {
    const key: Option<K>
    var back: Node?<K>
    var levels: seq<Link<Node?<K>>>

    constructor (key: Option<K>, height: nat)
      ensures this.key == key && back == null && |levels| == height
      ensures forall i | 0 <= i < height :: levels[i] == Link(null, 0)
    {
      this.key, back := key, null;
      levels := seq(height, i => Link(null, 0));
    }
  }

  ghost predicate Owned<N>(nodes: seq<N>, repr: set<N>) {
    forall p | 0 <= p < |nodes| :: nodes[p] in repr
  }

  lemma OwnedSpliced<N>(nodes: seq<N>, repr: set<N>, r: nat, node: N)
    requires Owned(nodes, repr) && r < |nodes|
    ensures Owned(Spliced(nodes, r, node), repr + {node})
  {
  }

  lemma OwnedRemoved<N>(nodes: seq<N>, repr: set<N>, d: nat)
    requires Owned(nodes, repr) && d < |nodes|
    ensures Owned(Removed(nodes, d), repr)
  {
  }

  ghost predicate Distinct<N>(nodes: seq<N>) {
    forall p, q | 0 <= p < q < |nodes| :: nodes[p] != nodes[q]
  }

  ghost predicate Keyed<K>(nodes: seq<Node<K>>, keys: seq<K>) {
    |nodes| == |keys| + 1 && forall p | 0 < p < |nodes| :: nodes[p].key == Some(keys[p - 1])
  }

  lemma ChainSpliced<K>(nodes: seq<Node<K>>, keys: seq<K>, r: nat, node: Node<K>, key: K)
    requires Distinct(nodes) && Keyed(nodes, keys) && r < |nodes| && node !in nodes && node.key == Some(key)
    ensures Distinct(Spliced(nodes, r, node)) && Keyed(Spliced(nodes, r, node), keys[..r] + [key] + keys[r..])
  {
    var ns := Spliced(nodes, r, node);
    assert forall p | r + 1 < p < |ns| :: ns[p] == nodes[p - 1];
    forall p, q | 0 <= p < q < |ns| ensures ns[p] != ns[q] {
      assert p == r + 1 || ns[p] == nodes[if p <= r then p else p - 1];
      assert q == r + 1 || ns[q] == nodes[if q <= r then q else q - 1];
    }
  }

  class Skiplist<K(==,!new)> {
    const less: (K, K) -> bool
    const head: Node<K>
    var tail: Node?<K>
    var length: nat
    var level: nat
    /** The head and then the level-0 chain. */
    ghost var nodes: seq<Node<K>>
    ghost var keys: seq<K>
    ghost var links: seq<seq<Link<Node?<K>>>>
    ghost var repr: set<Node<K>>

    /** The nodes' links, by position. */
    ghost predicate Mirrors()
      reads this`nodes, this`links, nodes`levels
    {
      |links| == |nodes| && forall p | 0 <= p < |nodes| :: nodes[p].levels == links[p]
    }

    /** Positions are nodes, in the order of their keys. */
    ghost predicate Chain()
      reads this`nodes, this`keys, this`length
    {
      |nodes| == length + 1 && nodes[0] == head && Distinct(nodes) && Keyed(nodes, keys)
    }

    ghost predicate BackedAs(ns: seq<Node<K>>)
      reads this`tail, ns`back
    {
      && (forall p | 0 < p < |ns| :: ns[p].back == if p == 1 then null else ns[p - 1])
      && tail == if |ns| <= 1 then null else ns[|ns| - 1]
    }

    ghost predicate Backed()
      reads this`nodes, this`tail, nodes`back
    {
      BackedAs(nodes)
    }

    ghost predicate Shape()
      reads this`nodes, this`links, this`keys, this`length, this`level, nodes`levels
    {
      Chain() && Mirrors() && TallLinks(links, null, level) && Linked(nodes, null, links, level)
    }

    ghost predicate Valid()
      reads this, repr
    {
      Owned(nodes, repr) && Sorted(less, keys) && Shape() && Backed()
    }

    constructor (less: (K, K) -> bool)
      ensures Valid() && keys == [] && this.less == less && fresh(repr)
    {
      var h := new Node(None, MaxLevel);
      this.less, head, tail, length, level := less, h, null, 0, 1;
      nodes, keys, links, repr := [h], [], [h.levels], {h};
    }

    /** Where a link leads. */
    lemma Leads(p: nat, i: nat)
      requires Shape() && p < |nodes| && i < level && i < |nodes[p].levels|
      ensures var q, link := Succ(Heights(links), p, i), nodes[p].levels[i];
              && link.next == (if q < |nodes| then nodes[q] else null)
              && p < q <= |nodes|
              && (q < |nodes| ==> link.span == q - p && nodes[q].key == Some(keys[q - 1]) && i < |nodes[q].levels|)
              && (q == |nodes| ==> link.span == length - p)
    {
      SuccSpec(Heights(links), p, i);
      assert links[p][i] == LinkAt(nodes, null, Heights(links), p, i);
    }

    /** One step along level i, if the next node's key still goes before the place
        sought. */
    method Hop(goes: K -> bool, x: Node<K>, at: nat, i: nat, ghost r: nat) returns (on: bool, y: Node<K>, to: nat)
      requires Shape() && Splits(keys, goes, r)
      requires at <= r && x == nodes[at] && i < level && i < |x.levels|
      ensures on == (Succ(Heights(links), at, i) <= r)
      ensures on ==> at < to <= r && y == nodes[to] && i < |y.levels|
      ensures !on ==> y == x && to == at
    {
      Leads(at, i);
      var next := x.levels[i].next;
      on, y, to := next != null && goes(next.key.value), x, at;
      if on {
        y, to := next, at + x.levels[i].span;
      }
    }

    /** Along level i to the last node whose key goes before the place sought. */
    method Forward(goes: K -> bool, start: Node<K>, from: nat, i: nat, ghost r: nat) returns (x: Node<K>, at: nat)
      requires Shape() && Splits(keys, goes, r)
      requires from <= r && start == nodes[from] && i < level && i < |start.levels|
      ensures at <= r && x == nodes[at] && Covers(Heights(links), r, at, i)
    {
      x, at := start, from;
      var on := true;
      while on
        invariant at <= r && x == nodes[at] && i < |x.levels|
        invariant !on ==> Succ(Heights(links), at, i) > r
        decreases r - at, on
      {
        on, x, at := Hop(goes, x, at, i, r);
      }
    }

    /** The descent every operation starts with: from the top level down, forward
        along each, remembering per level the last node and its position. */
    method Descend(goes: K -> bool, ghost r: nat) returns (update: seq<Node<K>>, rank: seq<nat>)
      requires Shape() && Splits(keys, goes, r)
      ensures |update| == |rank| == level && Found(links, r, rank) && rank[0] == r
      ensures forall i | 0 <= i < level :: rank[i] < |nodes| && update[i] == nodes[rank[i]]
    {
      var x, at: nat := head, 0;
      update, rank := seq(level, _ => head), seq(level, _ => 0);
      var i := level;
      ghost var h := Heights(links);
      while i > 0
        invariant 0 <= i <= level && |update| == |rank| == level
        invariant at <= r <= length && x == nodes[at] && |x.levels| >= i
        invariant forall j | i <= j < level :: Covers(h, r, rank[j], j) && update[j] == nodes[rank[j]]
      {
        i := i - 1;
        x, at := Forward(goes, x, at, i, r);
        update, rank := update[i := x], rank[i := at];
      }
      SuccZero(h, rank[0]);
    }

    // ------------------------------------------------------------------- inserting

    /** One link of one node is replaced. */
    method SetLink(x: Node<K>, i: nat, link: Link<Node?<K>>, ghost p: nat)
      requires Chain() && Mirrors() && p < |nodes| && x == nodes[p] && i < |x.levels|
      modifies x`levels, this`links
      ensures Mirrors() && links == old(links)[p := old(links)[p][i := link]]
    {
      x.levels := x.levels[i := link];
      links := links[p := x.levels];
    }

    /** The next of a series of replacements, one per level. */
    method Relink(x: Node<K>, i: nat, link: Link<Node?<K>>, ghost l: seq<seq<Link<Node?<K>>>>, ghost rank: seq<nat>,
                  ghost to: seq<Link<Node?<K>>>)
      requires Chain() && Mirrors() && Patchable(l, rank) && i < |rank| == |to| && |l| == |nodes|
      requires x == nodes[rank[i]] && link == to[i]
      requires links == Patch(l, rank, to, i)
      modifies x`levels, this`links
      ensures Mirrors() && links == Patch(l, rank, to, i + 1)
    {
      PatchNext(l, rank, to, i);
      SetLink(x, i, link, rank[i]);
    }

    /** One level of the new node: it takes over its predecessor's link. */
    method AttachLevel(node: Node<K>, x: Node<K>, i: nat, over: int, ghost l: seq<seq<Link<Node?<K>>>>, ghost rank: seq<nat>,
                       ghost to: seq<Link<Node?<K>>>)
      requires Chain() && Mirrors() && node !in nodes && i < |node.levels| <= |rank| == |to| && |l| == |nodes|
      requires Patchable(l, rank) && x == nodes[rank[i]] && over + rank[i] == rank[0] && to[i] == Link(node, over + 1)
      requires links == Patch(l, rank, to, i)
      modifies node`levels, x`levels, this`links
      ensures Mirrors() && links == Patch(l, rank, to, i + 1)
      ensures node.levels == old(node.levels)[i := Link(l[rank[i]][i].next, l[rank[i]][i].span - over)]
    {
      var was := x.levels[i];
      assert was == l[rank[i]][i];
      node.levels := node.levels[i := Link(was.next, was.span - over)];
      Relink(x, i, Link(node, over + 1), l, rank, to);
    }

    /** Insert's first write loop: the levels the new node has. */
    method Attach(node: Node<K>, update: seq<Node<K>>, rank: seq<nat>, ghost l: seq<seq<Link<Node?<K>>>>,
                  ghost to: seq<Link<Node?<K>>>)
      requires Chain() && Mirrors() && node !in nodes && 0 < |rank| == |update| && |node.levels| <= |rank|
      requires l == links && Patchable(l, rank) && to == InsertedLinks(l, rank, rank[0], node, |node.levels|)
      requires forall i | 0 <= i < |rank| :: update[i] == nodes[rank[i]]
      modifies node`levels, nodes`levels, this`links
      ensures Mirrors() && links == Patch(l, rank, to, |old(node.levels)|)
      ensures node.levels == NewNode(l, rank, rank[0], |old(node.levels)|)
    {
      ghost var lv := |node.levels|;
      var i := 0;
      PatchNone(l, rank, to);
      while i < |node.levels|
        invariant 0 <= i <= lv && |node.levels| == lv
        invariant Mirrors() && links == Patch(l, rank, to, i)
        invariant forall j | 0 <= j < i :: node.levels[j] == NewNode(l, rank, rank[0], lv)[j]
      {
        AttachLevel(node, update[i], i, rank[0] as int - rank[i], l, rank, to);
        i := i + 1;
      }
    }

    /** Insert's second write loop: the levels above gained one node underneath. */
    method Widen(update: seq<Node<K>>, rank: seq<nat>, lv: nat, ghost node: Node<K>, ghost l: seq<seq<Link<Node?<K>>>>,
                 ghost to: seq<Link<Node?<K>>>)
      requires Chain() && Mirrors() && 0 < |rank| == |update| && lv <= |rank| && |l| == |nodes|
      requires Patchable(l, rank) && to == InsertedLinks(l, rank, rank[0], node, lv) && links == Patch(l, rank, to, lv)
      requires forall i | 0 <= i < |rank| :: update[i] == nodes[rank[i]]
      modifies nodes`levels, this`links
      ensures Mirrors() && links == Patch(l, rank, to, |rank|)
    {
      var i := lv;
      while i < |rank|
        invariant lv <= i <= |rank|
        invariant Mirrors() && links == Patch(l, rank, to, i)
      {
        var was := update[i].levels[i];
        assert was == l[rank[i]][i];
        Relink(update[i], i, Link(was.next, was.span + 1), l, rank, to);
        i := i + 1;
      }
    }

    /** The head's links from one level to another trail to the end. */
    method Trail(from: nat, height: nat)
      requires from <= height <= |head.levels|
      modifies head`levels
      ensures |head.levels| == |old(head.levels)|
      ensures forall j | 0 <= j < |head.levels| ::
                head.levels[j] == if from <= j < height then Link(old(head.levels)[j].next, length) else old(head.levels)[j]
    {
      var i := from;
      while i < height
        invariant from <= i <= height && |head.levels| == |old(head.levels)|
        invariant forall j | 0 <= j < |head.levels| ::
                    head.levels[j] == if from <= j < i then Link(old(head.levels)[j].next, length) else old(head.levels)[j]
      {
        head.levels := head.levels[i := Link(head.levels[i].next, length)];
        i := i + 1;
      }
    }

    /** The list grows taller. */
    method Raise(height: nat)
      requires Shape() && level < height <= MaxLevel
      modifies this`level, this`links, head`levels
      ensures Shape() && level == height && Heights(links) == old(Heights(links))
    {
      ghost var l := links;
      Trail(level, height);
      links := links[0 := head.levels];
      RaisedLinked(nodes, null, l, links, level, height);
      level := height;
    }

    /** The back pointers and the tail. */
    method Hook(node: Node<K>, prev: Node<K>, ghost r: nat)
      requires Chain() && Backed() && node !in nodes && node.back == null
      requires r < |nodes| && prev == nodes[r] && |node.levels| > 0
      requires node.levels[0].next == if r + 1 < |nodes| then nodes[r + 1] else null
      modifies node`back, nodes`back, this`tail
      ensures BackedAs(Spliced(nodes, r, node))
    {
      if prev != head {
        node.back := prev;
      }
      if node.levels[0].next != null {
        node.levels[0].next.back := node;
      } else {
        tail := node;
      }
      ghost var ns := Spliced(nodes, r, node);
      assert forall p | r + 1 < p <= |nodes| :: ns[p] == nodes[p - 1];
    }

    /** Insert's search: per level the node the new one comes behind, and its
        position, the list grown taller if need be. */
    method Find(goes: K -> bool, height: nat, ghost r: nat) returns (update: seq<Node<K>>, rank: seq<nat>)
      requires Shape() && Splits(keys, goes, r) && height <= MaxLevel
      modifies this`level, this`links, head`levels
      ensures Shape() && height <= level == |rank| == |update|
      ensures rank[0] == r && Placed(nodes, null, links, rank, r)
      ensures forall i | 0 <= i < level :: update[i] == nodes[rank[i]]
    {
      update, rank := Descend(goes, r);
      if height > level {
        ghost var h := Heights(links);
        ghost var more := rank;
        update, rank := update + seq(height - level, _ => head), rank + seq(height - level, _ => 0);
        CoversHead(h, r, level, height, more, rank);
        Raise(height);
      }
    }

    /** The new node's links and those around it. */
    method WriteLinks(node: Node<K>, update: seq<Node<K>>, rank: seq<nat>, ghost patched: seq<seq<Link<Node?<K>>>>,
                      ghost own: seq<Link<Node?<K>>>)
      requires Chain() && Mirrors() && Patchable(links, rank) && node !in nodes
      requires 0 < |node.levels| <= |rank| == |update|
      requires forall i | 0 <= i < |rank| :: update[i] == nodes[rank[i]]
      requires patched == Patch(links, rank, InsertedLinks(links, rank, rank[0], node, |node.levels|), |rank|)
      requires own == NewNode(links, rank, rank[0], |node.levels|)
      modifies this`links, nodes`levels, node`levels
      ensures Mirrors() && links == patched && node.levels == own
    {
      var lv := |node.levels|;
      ghost var l := links;
      ghost var to := InsertedLinks(l, rank, rank[0], node, lv);
      Attach(node, update, rank, l, to);
      Widen(update, rank, lv, node, l, to);
    }

    /** The new node takes its place among the nodes. */
    method Adopt(ghost node: Node<K>, ghost key: K, ghost r: nat)
      requires Chain() && Mirrors() && node !in nodes && node.key == Some(key) && r < |nodes|
      requires BackedAs(Spliced(nodes, r, node))
      modifies this`length, this`nodes, this`keys, this`links
      ensures Chain() && Mirrors() && Backed() && nodes == Spliced(old(nodes), r, node)
      ensures links == Spliced(old(links), r, node.levels)
      ensures keys == old(keys)[..r] + [key] + old(keys)[r..]
    {
      ChainSpliced(nodes, keys, r, node, key);
      nodes, links := Spliced(nodes, r, node), Spliced(links, r, node.levels);
      keys := keys[..r] + [key] + keys[r..];
      length := length + 1;
    }

    /** The new node is hooked up and joins the nodes. */
    method Join(node: Node<K>, prev: Node<K>, ghost key: K, ghost r: nat)
      requires Chain() && Mirrors() && Backed() && node !in nodes && node.key == Some(key) && node.back == null
      requires r < |nodes| && prev == nodes[r] && |node.levels| > 0
      requires node.levels[0].next == if r + 1 < |nodes| then nodes[r + 1] else null
      requires Linked(Spliced(nodes, r, node), null, Spliced(links, r, node.levels), level)
      requires TallLinks(Spliced(links, r, node.levels), null, level)
      modifies this`tail, this`length, this`nodes, this`keys, this`links, nodes`back, node`back
      ensures Shape() && Backed() && nodes == Spliced(old(nodes), r, node)
      ensures keys == old(keys)[..r] + [key] + old(keys)[r..]
    {
      Hook(node, prev, r);
      Adopt(node, key, r);
    }

    /** Every write of Insert to a link: with the new node counted in, the links are
        as they should be. */
    method LinkIn(node: Node<K>, update: seq<Node<K>>, rank: seq<nat>, ghost r: nat)
      requires Shape() && Placed(nodes, null, links, rank, r) && rank != [] && rank[0] == r && |rank| == |update| == level
      requires node !in nodes && 0 < |node.levels| <= level
      requires forall i | 0 <= i < |rank| :: update[i] == nodes[rank[i]]
      modifies this`links, nodes`levels, node`levels
      ensures Mirrors() && |node.levels| == |old(node.levels)|
      ensures node.levels[0].next == if r + 1 < |nodes| then nodes[r + 1] else null
      ensures Linked(Spliced(nodes, r, node), null, Spliced(links, r, node.levels), level)
      ensures TallLinks(Spliced(links, r, node.levels), null, level)
    {
      var lv := |node.levels|;
      Leads(r, 0);
      SuccZero(Heights(links), r);
      ghost var patched := Patch(links, rank, InsertedLinks(links, rank, r, node, lv), |rank|);
      ghost var own := NewNode(links, rank, r, lv);
      EnterShape(nodes, null, links, rank, r, node, lv, level, patched, own);
      WriteLinks(node, update, rank, patched, own);
    }

    /** Insert once the place is known. */
    method Enter(key: K, height: nat, update: seq<Node<K>>, rank: seq<nat>, ghost r: nat) returns (node: Node<K>)
      requires Shape() && Backed() && Placed(nodes, null, links, rank, r) && 1 <= height <= level == |rank| == |update|
      requires rank[0] == r && forall i | 0 <= i < |rank| :: update[i] == nodes[rank[i]]
      modifies this`tail, this`length, this`nodes, this`keys, this`links, nodes
      ensures Shape() && Backed() && fresh(node) && nodes == Spliced(old(nodes), r, node)
      ensures keys == old(keys)[..r] + [key] + old(keys)[r..]
    {
      node := new Node(Some(key), height);
      LinkIn(node, update, rank, r);
      Join(node, update[0], key, r);
    }

    /** Insert below the order of the keys. */
    method InsertAt(key: K, height: nat, goes: K -> bool, ghost r: nat) returns (node: Node<K>)
      requires Shape() && Backed() && Splits(keys, goes, r) && 1 <= height <= MaxLevel
      modifies this`tail, this`length, this`level, this`nodes, this`keys, this`links, nodes
      ensures Shape() && Backed() && fresh(node) && nodes == Spliced(old(nodes), r, node)
      ensures keys == old(keys)[..r] + [key] + old(keys)[r..]
    {
      var update, rank := Find(goes, height, r);
      node := Enter(key, height, update, rank, r);
    }

    /** Insert, with the height randomLevel drew. */
    method Insert(key: K, height: nat) returns (node: Node<K>, ghost r: nat)
      requires Valid() && TotalOrder(less) && 1 <= height <= MaxLevel && key !in keys
      modifies this, repr
      ensures Valid() && fresh(node) && repr == old(repr) + {node} && r < |old(nodes)| && nodes == Spliced(old(nodes), r, node)
      ensures keys == old(keys)[..r] + [key] + old(keys)[r..]
    {
      var goes := (k: K) => less(k, key);
      r := Place(keys, goes);
      PlaceSplits(less, keys, goes);
      SortedSplice(less, keys, key, r);
      ghost var ns := nodes;
      node := InsertAt(key, height, goes, r);
      OwnedSpliced(ns, repr, r, node);
      assert Sorted(less, keys);
      repr := repr + {node};
      assert Owned(nodes, repr);
    }

    // -------------------------------------------------------------------- deleting

    /** unlink's loop: at each level the node before takes over the link, or has one
        node fewer underneath. */
    method Detach(node: Node<K>, update: seq<Node<K>>, ghost rank: seq<nat>, ghost r: nat, ghost patched: seq<seq<Link<Node?<K>>>>)
      requires Chain() && Mirrors() && Patchable(links, rank) && |rank| == |update| && r + 1 < |nodes|
      requires node == nodes[r + 1]
      requires forall i | 0 <= i < |rank| ::
                 rank[i] <= r && update[i] == nodes[rank[i]] && (links[rank[i]][i].next == node <==> i < |links[r + 1]|)
      requires patched == Patch(links, rank, DeletedLinks(links, rank, r), |rank|)
      modifies this`links, nodes`levels
      ensures Mirrors() && links == patched && node.levels == old(node.levels)
    {
      ghost var l := links;
      ghost var to := DeletedLinks(l, rank, r);
      var i := 0;
      PatchNone(l, rank, to);
      while i < |update|
        invariant 0 <= i <= |update|
        invariant Mirrors() && links == Patch(l, rank, to, i)
      {
        DetachLevel(node, update[i], i, l, rank, to, r);
        i := i + 1;
      }
      assert Row(l[r + 1], r + 1, rank, to, |rank|) == l[r + 1];
    }

    method DetachLevel(node: Node<K>, x: Node<K>, i: nat, ghost l: seq<seq<Link<Node?<K>>>>, ghost rank: seq<nat>,
                       ghost to: seq<Link<Node?<K>>>, ghost r: nat)
      requires Chain() && Mirrors() && Patchable(l, rank) && i < |rank| && r + 1 < |nodes| == |l|
      requires node == nodes[r + 1] && x == nodes[rank[i]] && (forall j | 0 <= j < |rank| :: rank[j] <= r)
      requires l[rank[i]][i].next == node <==> i < |l[r + 1]|
      requires to == DeletedLinks(l, rank, r) && links == Patch(l, rank, to, i)
      modifies this`links, x`levels
      ensures Mirrors() && links == Patch(l, rank, to, i + 1)
    {
      var was := x.levels[i];
      assert was == l[rank[i]][i];
      assert Row(l[r + 1], r + 1, rank, to, i) == l[r + 1] == node.levels;
      if was.next == node {
        Relink(x, i, Link(node.levels[i].next, was.span + node.levels[i].span - 1), l, rank, to);
      } else {
        Relink(x, i, Link(was.next, was.span - 1), l, rank, to);
      }
    }

    /** The back pointers and the tail without the node. */
    method Unhook(node: Node<K>, ghost d: nat)
      requires Chain() && Backed() && 0 < d < |nodes| && node == nodes[d] && |node.levels| > 0
      requires node.levels[0].next == if d + 1 < |nodes| then nodes[d + 1] else null
      modifies nodes`back, this`tail
      ensures BackedAs(Removed(nodes, d))
    {
      if node.levels[0].next != null {
        node.levels[0].next.back := node.back;
      } else {
        tail := node.back;
      }
      ghost var ns := Removed(nodes, d);
      assert forall p | d <= p < |ns| :: ns[p] == nodes[p + 1];
    }

    /** The node leaves the nodes. */
    method Leave(node: Node<K>, ghost d: nat)
      requires Chain() && Mirrors() && Backed() && 0 < d < |nodes| && node == nodes[d] && |node.levels| > 0
      requires node.levels[0].next == if d + 1 < |nodes| then nodes[d + 1] else null
      modifies this`tail, this`length, this`nodes, this`keys, this`links, nodes`back
      ensures Chain() && Mirrors() && Backed()
      ensures nodes == Removed(old(nodes), d) && links == Removed(old(links), d) && keys == Removed(old(keys), d - 1)
    {
      Unhook(node, d);
      ChainRemoved(nodes, keys, d);
      nodes, links, keys := Removed(nodes, d), Removed(links, d), Removed(keys, d - 1);
      length := length - 1;
    }

    /** Levels that hold nothing any more are dropped. */
    method Lower()
      requires Shape()
      modifies this`level
      ensures Shape()
    {
      while level > 1 && head.levels[level - 1].next == null
        invariant Shape()
        decreases level
      {
        LowerShape(nodes, null, links, level);
        level := level - 1;
      }
    }

    /** Every write of unlink to a link: with the node left out, the links are as they
        should be. */
    method LinkOut(node: Node<K>, update: seq<Node<K>>, ghost rank: seq<nat>, ghost r: nat)
      requires Shape() && Placed(nodes, null, links, rank, r) && |rank| == |update| == level
      requires r + 1 < |nodes| && node == nodes[r + 1]
      requires forall i | 0 <= i < level :: update[i] == nodes[rank[i]]
      modifies this`links, nodes`levels
      ensures Mirrors() && |node.levels| > 0
      ensures node.levels[0].next == if r + 2 < |nodes| then nodes[r + 2] else null
      ensures Linked(Removed(nodes, r + 1), null, Removed(links, r + 1), level)
      ensures TallLinks(Removed(links, r + 1), null, level)
    {
      Leads(r + 1, 0);
      SuccZero(Heights(links), r + 1);
      ghost var patched := Patch(links, rank, DeletedLinks(links, rank, r), |rank|);
      LeaveShape(nodes, null, links, rank, r, level, patched);
      Detach(node, update, rank, r, patched);
    }

    /** unlink before it lowers the list. */
    method Cut(node: Node<K>, update: seq<Node<K>>, ghost rank: seq<nat>, ghost r: nat)
      requires Shape() && Backed() && Placed(nodes, null, links, rank, r) && |rank| == |update| == level
      requires r + 1 < |nodes| && node == nodes[r + 1]
      requires forall i | 0 <= i < level :: update[i] == nodes[rank[i]]
      modifies this`tail, this`length, this`nodes, this`keys, this`links, nodes
      ensures Shape() && Backed()
      ensures nodes == Removed(old(nodes), r + 1) && keys == Removed(old(keys), r)
    {
      LinkOut(node, update, rank, r);
      Leave(node, r + 1);
    }

    /** unlink. */
    method Unlink(node: Node<K>, update: seq<Node<K>>, ghost rank: seq<nat>, ghost r: nat)
      requires Shape() && Backed() && Placed(nodes, null, links, rank, r) && |rank| == |update| == level
      requires r + 1 < |nodes| && node == nodes[r + 1]
      requires forall i | 0 <= i < level :: update[i] == nodes[rank[i]]
      modifies this`tail, this`length, this`level, this`nodes, this`keys, this`links, nodes
      ensures Shape() && Backed()
      ensures nodes == Removed(old(nodes), r + 1) && keys == Removed(old(keys), r)
    {
      Cut(node, update, rank, r);
      Lower();
    }

    /** Delete below the order of the keys. */
    method DeleteAt(key: K, goes: K -> bool, ghost r: nat) returns (ok: bool)
      requires Shape() && Backed() && Splits(keys, goes, r)
      modifies this`tail, this`length, this`level, this`nodes, this`keys, this`links, nodes
      ensures Shape() && Backed() && ok == (r < |old(keys)| && old(keys)[r] == key)
      ensures ok ==> nodes == Removed(old(nodes), r + 1) && keys == Removed(old(keys), r)
      ensures !ok ==> unchanged(this) && unchanged(nodes)
    {
      var update, rank := Descend(goes, r);
      Leads(r, 0);
      SuccZero(Heights(links), r);
      var target := update[0].levels[0].next;
      if target == null || target.key != Some(key) {
        return false;
      }
      Unlink(target, update, rank, r);
      return true;
    }

    /** Delete. */
    method Delete(key: K) returns (ok: bool)
      requires Valid() && TotalOrder(less)
      modifies this, repr
      ensures Valid() && repr == old(repr) && ok == (key in old(keys))
      ensures ok ==> exists r :: 0 <= r < |old(keys)| && old(keys)[r] == key && keys == Removed(old(keys), r)
      ensures !ok ==> unchanged(this) && unchanged(repr)
    {
      var goes := (k: K) => less(k, key);
      ghost var r := Place(keys, goes);
      PlaceSplits(less, keys, goes);
      HereOrNowhere(less, keys, key, r);
      if r < |keys| {
        SortedRemoved(less, keys, r);
        OwnedRemoved(nodes, repr, r + 1);
      }
      ghost var was := keys;
      ok := DeleteAt(key, goes, r);
      assert Sorted(less, keys) && Owned(nodes, repr);
      assert ok ==> was[r] == key && keys == Removed(was, r);
    }

    // --------------------------------------------------------------------- ranking

    /** Rank: the 1-based position of a key, 0 when it is absent. */
    method Rank(key: K) returns (rank: nat)
      requires Valid() && TotalOrder(less)
      ensures rank <= |keys|
      ensures rank > 0 ==> keys[rank - 1] == key
      ensures rank == 0 ==> key !in keys
    {
      var goes := (k: K) => !less(key, k);
      ghost var r := Place(keys, goes);
      PlaceSplits(less, keys, goes);
      LastOrNowhere(less, keys, key, r);
      rank := RankAt(key, goes, r);
    }

    /** Rank's descent, which stops at the first level where it meets the key. */
    method RankAt(key: K, goes: K -> bool, ghost r: nat) returns (rank: nat)
      requires Shape() && Splits(keys, goes, r)
      ensures rank <= |keys|
      ensures rank > 0 ==> keys[rank - 1] == key
      ensures rank == 0 ==> r == 0 || keys[r - 1] != key
    {
      var x, i := head, level;
      rank := 0;
      while i > 0
        invariant 0 <= i <= level && rank <= r && x == nodes[rank] && |x.levels| >= i
        invariant i == 0 ==> rank == r && (r > 0 ==> keys[r - 1] != key)
      {
        i := i - 1;
        x, rank := Forward(goes, x, rank, i, r);
        if x != head && x.key == Some(key) {
          return;
        }
        if i == 0 {
          SuccZero(Heights(links), rank);
        }
      }
      return 0;
    }

    /** One step of NodeByRank along level i. */
    method HopTo(rank: nat, x: Node<K>, at: nat, i: nat) returns (on: bool, y: Node<K>, to: nat)
      requires Shape() && at <= rank <= length && x == nodes[at] && i < level && i < |x.levels|
      ensures on == (Succ(Heights(links), at, i) <= rank)
      ensures on ==> at < to <= rank && y == nodes[to] && i < |y.levels|
      ensures !on ==> y == x && to == at
    {
      Leads(at, i);
      var link := x.levels[i];
      on, y, to := link.next != null && at + link.span <= rank, x, at;
      if on {
        y, to := link.next, at + link.span;
      }
    }

    /** NodeByRank. */
    method NodeByRank(rank: int) returns (node: Node?<K>)
      requires Valid()
      ensures node == if 1 <= rank <= |keys| then nodes[rank] else null
    {
      if rank <= 0 || rank > length {
        return null;
      }
      var x, at: nat, i := head, 0, level;
      while i > 0
        invariant 0 <= i <= level && at <= rank && x == nodes[at] && |x.levels| >= i
        invariant i == 0 ==> at == rank
      {
        i := i - 1;
        var on := true;
        while on
          invariant at <= rank && x == nodes[at] && i < |x.levels|
          invariant !on ==> Succ(Heights(links), at, i) > rank
          decreases rank - at, on
        {
          on, x, at := HopTo(rank, x, at, i);
        }
        if at == rank {
          return x;
        }
        if i == 0 {
          SuccZero(Heights(links), at);
        }
      }
      return x;
    }

    // ---------------------------------------------------------------- range searches

    /** The lowest node whose key no longer goes, as the First... searches find it. */
    method FirstNot(goes: K -> bool) returns (node: Node?<K>)
      requires Valid() && (forall i, j | 0 <= i < j < |keys| :: goes(keys[j]) ==> goes(keys[i]))
      ensures node == null ==> forall p | 0 <= p < |keys| :: goes(keys[p])
      ensures node != null ==> exists p :: && 0 <= p < |keys| && node == nodes[p + 1] && node.key == Some(keys[p])
                                           && !goes(keys[p]) && forall q | 0 <= q < p :: goes(keys[q])
    {
      ghost var r := Place(keys, goes);
      PlaceSplits(less, keys, goes);
      var update, rank := Descend(goes, r);
      Leads(r, 0);
      SuccZero(Heights(links), r);
      node := update[0].levels[0].next;
      assert node != null ==> node == nodes[r + 1];
    }

    /** The highest node whose key still goes, as the Last... searches find it. */
    method LastThat(goes: K -> bool) returns (node: Node?<K>)
      requires Valid() && (forall i, j | 0 <= i < j < |keys| :: goes(keys[j]) ==> goes(keys[i]))
      ensures node == null ==> forall p | 0 <= p < |keys| :: !goes(keys[p])
      ensures node != null ==> exists p :: && 0 <= p < |keys| && node == nodes[p + 1] && node.key == Some(keys[p])
                                           && goes(keys[p]) && forall q | p < q < |keys| :: !goes(keys[q])
    {
      ghost var r := Place(keys, goes);
      PlaceSplits(less, keys, goes);
      var update, rank := Descend(goes, r);
      if update[0] == head {
        return null;
      }
      node := update[0];
      assert r > 0 && node == nodes[(r - 1) + 1];
    }

    /** A range of keys: `above` its lower end, `below` its upper one; an empty one is
        noticed before the search. */
    ghost predicate RangeOf(empty: bool, above: K -> bool, below: K -> bool)
      reads this
    {
      && (forall i, j | 0 <= i < j < |keys| :: above(keys[i]) ==> above(keys[j]))
      && (forall i, j | 0 <= i < j < |keys| :: below(keys[j]) ==> below(keys[i]))
      && (empty ==> forall p | 0 <= p < |keys| :: !(above(keys[p]) && below(keys[p])))
    }

    /** FirstInScoreRange, FirstInLexRange: the lowest node in the range, nil exactly when
        there is none. */
    method FirstInRange(empty: bool, above: K -> bool, below: K -> bool) returns (node: Node?<K>)
      requires Valid() && RangeOf(empty, above, below)
      ensures node == null ==> forall p | 0 <= p < |keys| :: !(above(keys[p]) && below(keys[p]))
      ensures node != null ==> exists p :: && 0 <= p < |keys| && node == nodes[p + 1] && above(keys[p]) && below(keys[p])
                                           && forall q | 0 <= q < p :: !above(keys[q])
    {
      if empty {
        return null;
      }
      node := FirstNot(k => !above(k));
      if node != null {
        ghost var p :| && 0 <= p < |keys| && node == nodes[p + 1] && node.key == Some(keys[p]) && above(keys[p])
                       && forall q | 0 <= q < p :: !above(keys[q]);
        if !below(node.key.value) {
          assert forall q | p < q < |keys| :: !below(keys[q]);
          node := null;
        }
      }
    }

    /** LastInScoreRange, LastInLexRange: the highest node in the range. */
    method LastInRange(empty: bool, above: K -> bool, below: K -> bool) returns (node: Node?<K>)
      requires Valid() && RangeOf(empty, above, below)
      ensures node == null ==> forall p | 0 <= p < |keys| :: !(above(keys[p]) && below(keys[p]))
      ensures node != null ==> exists p :: && 0 <= p < |keys| && node == nodes[p + 1] && above(keys[p]) && below(keys[p])
                                           && forall q | p < q < |keys| :: !below(keys[q])
    {
      if empty {
        return null;
      }
      node := LastThat(below);
      if node != null {
        ghost var p :| && 0 <= p < |keys| && node == nodes[p + 1] && node.key == Some(keys[p]) && below(keys[p])
                       && forall q | p < q < |keys| :: !below(keys[q]);
        if !above(node.key.value) {
          assert forall q | 0 <= q < p :: !above(keys[q]);
          node := null;
        }
      }
    }
  }

  /** With the keys sorted, the last not after a key is that key or it is absent. */
  lemma LastOrNowhere<K(!new)>(less: (K, K) -> bool, keys: seq<K>, key: K, r: nat)
    requires TotalOrder(less) && Sorted(less, keys) && r <= |keys|
    requires forall p | 0 <= p < |keys| :: !less(key, keys[p]) <==> p < r
    ensures key in keys <==> r > 0 && keys[r - 1] == key
  {
    if key in keys {
      var p :| 0 <= p < |keys| && keys[p] == key;
      assert !less(key, keys[p]);
    }
  }

  lemma LeaveShape<N>(nodes: seq<N>, none: N, l: seq<seq<Link<N>>>, rank: seq<nat>, r: nat, level: nat, patched: seq<seq<Link<N>>>)
    requires Placed(nodes, none, l, rank, r) && TallLinks(l, none, level) && |rank| == level && r + 1 < |l|
    requires Distinct(nodes) && none !in nodes && patched == Patch(l, rank, DeletedLinks(l, rank, r), |rank|)
    ensures Linked(Removed(nodes, r + 1), none, Removed(patched, r + 1), level)
    ensures TallLinks(Removed(patched, r + 1), none, level)
    ensures forall i | 0 <= i < |rank| :: rank[i] <= r && (l[rank[i]][i].next == nodes[r + 1] <==> i < |l[r + 1]|)
  {
    DeleteLinked(nodes, none, l, rank, r);
    forall i | 0 <= i < |rank| ensures rank[i] <= r && (l[rank[i]][i].next == nodes[r + 1] <==> i < |l[r + 1]|) {
      NextIsNode(nodes, none, l, rank, r, i);
    }
    assert forall p | 0 <= p < |patched| :: |patched[p]| == |l[p]|;
    assert forall i | level <= i < MaxLevel :: patched[0][i] == l[0][i];
  }

  /** unlink's test: the link leads to the node exactly at the levels it has. */
  lemma NextIsNode<N>(nodes: seq<N>, none: N, l: seq<seq<Link<N>>>, rank: seq<nat>, r: nat, i: nat)
    requires Placed(nodes, none, l, rank, r) && i < |rank| && r + 1 < |l| && Distinct(nodes) && none !in nodes
    ensures rank[i] <= r && (l[rank[i]][i].next == nodes[r + 1] <==> i < |l[r + 1]|)
  {
    var h := Heights(l);
    assert Covers(h, r, rank[i], i);
    var q := Succ(h, rank[i], i);
    SuccSpec(h, rank[i], i);
    assert l[rank[i]][i] == LinkAt(nodes, none, h, rank[i], i);
    assert h[r + 1] > i <==> q == r + 1;
    assert r + 1 < q < |h| ==> nodes[r + 1] != nodes[q];
  }

  /** With the keys sorted, the first not before a key is that key or it is absent. */
  lemma HereOrNowhere<K(!new)>(less: (K, K) -> bool, keys: seq<K>, key: K, r: nat)
    requires TotalOrder(less) && Sorted(less, keys) && r <= |keys|
    requires forall p | 0 <= p < |keys| :: less(keys[p], key) <==> p < r
    ensures key in keys <==> r < |keys| && keys[r] == key
  {
    if key in keys {
      var p :| 0 <= p < |keys| && keys[p] == key;
      assert !less(keys[p], key);
    }
  }

  lemma SortedRemoved<K>(less: (K, K) -> bool, keys: seq<K>, r: nat)
    requires Sorted(less, keys) && r < |keys|
    ensures Sorted(less, Removed(keys, r))
  {
    var ks := Removed(keys, r);
    forall i, j | 0 <= i < j < |ks| ensures less(ks[i], ks[j]) {
      assert ks[i] == keys[if i < r then i else i + 1] && ks[j] == keys[if j < r then j else j + 1];
    }
  }

  lemma ChainRemoved<K>(nodes: seq<Node<K>>, keys: seq<K>, d: nat)
    requires Distinct(nodes) && Keyed(nodes, keys) && 0 < d < |nodes|
    ensures Distinct(Removed(nodes, d)) && Keyed(Removed(nodes, d), Removed(keys, d - 1))
  {
    var ns := Removed(nodes, d);
    forall p, q | 0 <= p < q < |ns| ensures ns[p] != ns[q] {
      assert ns[p] == nodes[if p < d then p else p + 1] && ns[q] == nodes[if q < d then q else q + 1];
    }
  }

  lemma LowerShape<N>(nodes: seq<N>, none: N, links: seq<seq<Link<N>>>, level: nat)
    requires Linked(nodes, none, links, level) && TallLinks(links, none, level) && level > 1 && none !in nodes
    requires links[0][level - 1].next == none
    ensures Linked(nodes, none, links, level - 1) && TallLinks(links, none, level - 1)
  {
    var h := Heights(links);
    assert links[0][level - 1] == LinkAt(nodes, none, h, 0, level - 1);
    SuccSpec(h, 0, level - 1);
    assert Succ(h, 0, level - 1) == |h|;
    forall p | 0 < p < |links| ensures |links[p]| <= level - 1 {
      assert h[p] <= level - 1;
    }
  }

  lemma TallAfter<N>(l: seq<seq<Link<N>>>, none: N, rank: seq<nat>, r: nat, node: N, lv: nat, level: nat)
    requires TallLinks(l, none, level) && Patchable(l, rank) && r < |l| && 1 <= lv <= |rank| == level
    ensures TallLinks(After(l, rank, r, node, lv), none, level)
  {
  }

  lemma EnterShape<N>(nodes: seq<N>, none: N, l: seq<seq<Link<N>>>, rank: seq<nat>, r: nat, node: N, lv: nat, level: nat,
                      patched: seq<seq<Link<N>>>, own: seq<Link<N>>)
    requires Placed(nodes, none, l, rank, r) && TallLinks(l, none, level) && 1 <= lv <= |rank| == level
    requires patched == Patch(l, rank, InsertedLinks(l, rank, r, node, lv), |rank|) && own == NewNode(l, rank, r, lv)
    ensures |patched| == |nodes| && Linked(Spliced(nodes, r, node), none, Spliced(patched, r, own), level)
    ensures TallLinks(Spliced(patched, r, own), none, level)
  {
    InsertLinked(nodes, none, l, rank, r, node, lv);
    TallAfter(l, none, rank, r, node, lv, level);
  }

  lemma SortedSplice<K(!new)>(less: (K, K) -> bool, keys: seq<K>, key: K, r: nat)
    requires TotalOrder(less) && Sorted(less, keys) && key !in keys
    requires r <= |keys| && forall p | 0 <= p < |keys| :: less(keys[p], key) <==> p < r
    ensures Sorted(less, keys[..r] + [key] + keys[r..])
  {
    forall p | r <= p < |keys| ensures less(key, keys[p]) {
      assert keys[p] != key;
    }
  }

  /** The head covers every level no node has. */
  lemma CoversHead(h: seq<nat>, r: nat, level: nat, height: nat, rank: seq<nat>, more: seq<nat>)
    requires r < |h| && h[0] >= height >= level == |rank| && (forall p | 0 < p < |h| :: h[p] <= level)
    requires |more| == height && more[..level] == rank && (forall i | level <= i < height :: more[i] == 0)
    requires forall i | 0 <= i < |rank| :: Covers(h, r, rank[i], i)
    ensures forall i | 0 <= i < height :: Covers(h, r, more[i], i)
  {
    forall i | 0 <= i < height ensures Covers(h, r, more[i], i) {
      if i < level {
        assert more[i] == rank[i];
      } else {
        SuccIs(h, 0, i, |h|);
      }
    }
  }

  /** Above every node's height the head's link leads to the end. */
  lemma RaisedLinked<N>(nodes: seq<N>, none: N, l: seq<seq<Link<N>>>, m: seq<seq<Link<N>>>, level: nat, height: nat)
    requires Linked(nodes, none, l, level) && 0 < |l| == |m| && level <= height <= |m[0]| == |l[0]|
    requires forall p | 0 < p < |l| :: m[p] == l[p] && |l[p]| <= level
    requires forall i | 0 <= i < level :: m[0][i] == l[0][i]
    requires forall i | level <= i < height :: m[0][i] == Link(none, |l| - 1)
    ensures Linked(nodes, none, m, height) && Heights(m) == Heights(l)
  {
    var h := Heights(l);
    assert Heights(m) == h;
    forall i | level <= i < height ensures m[0][i] == LinkAt(nodes, none, h, 0, i) {
      SuccIs(h, 0, i, |h|);
    }
  }

  /** How many keys from the first on satisfy a condition. */
  ghost function Place<K>(keys: seq<K>, goes: K -> bool): (r: nat)
    ensures r <= |keys|
  {
    if keys == [] || !goes(keys[0]) then 0 else 1 + Place(keys[1..], goes)
  }

  lemma {:induction false} PlaceSplits<K>(less: (K, K) -> bool, keys: seq<K>, goes: K -> bool)
    requires Sorted(less, keys) && (forall i, j | 0 <= i < j < |keys| :: goes(keys[j]) ==> goes(keys[i]))
    ensures Splits(keys, goes, Place(keys, goes))
  {
    if keys != [] && goes(keys[0]) {
      var rest := keys[1..];
      assert forall i, j | 0 <= i < j < |rest| :: rest[i] == keys[i + 1] && rest[j] == keys[j + 1];
      PlaceSplits(less, rest, goes);
      assert forall p | 0 < p < |keys| :: keys[p] == rest[p - 1];
    }
  }
}
