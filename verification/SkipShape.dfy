/** The shape of a skiplist as values: node heights by position, where each link must
    lead and what its span must be (engine/skiplist.go). */
module SkipShape {
  /** A forward link.  N is the reference type; position 0 is the head. */
  datatype Link<+N> = Link(next: N, span: int)

  function Heights<N>(links: seq<seq<Link<N>>>): (h: seq<nat>)
    ensures |h| == |links|
  {
    seq(|links|, p requires 0 <= p < |links| => |links[p]|)
  }

  /** The position a link at level i of position p leads to: the next one tall
      enough, or the end. */
  function Succ(h: seq<nat>, p: nat, i: nat): nat
    requires p < |h|
    decreases |h| - p
  {
    if p + 1 == |h| then |h|
    else if h[p + 1] > i then p + 1
    else Succ(h, p + 1, i)
  }

  lemma {:induction false} SuccSpec(h: seq<nat>, p: nat, i: nat)
    requires p < |h|
    ensures var q := Succ(h, p, i);
            p < q <= |h| && (q < |h| ==> h[q] > i) && (forall x | p < x < q :: h[x] <= i)
    decreases |h| - p
  {
    if p + 1 < |h| && h[p + 1] <= i {
      SuccSpec(h, p + 1, i);
    }
  }

  /** A link's span: the distance to its target, or for a trailing link to the last
      node. */
  function Span(h: seq<nat>, p: nat, i: nat): int
    requires p < |h|
  {
    var q := Succ(h, p, i);
    (if q < |h| then q else |h| - 1) - p
  }

  function At<N>(nodes: seq<N>, none: N, q: nat): N {
    if q < |nodes| then nodes[q] else none
  }

  function LinkAt<N>(nodes: seq<N>, none: N, h: seq<nat>, p: nat, i: nat): Link<N>
    requires p < |h|
  {
    Link(At(nodes, none, Succ(h, p, i)), Span(h, p, i))
  }

  /** Every link below the list's level leads where it should with the span it
      should have. */
  ghost predicate Linked<N>(nodes: seq<N>, none: N, links: seq<seq<Link<N>>>, level: nat) {
    && |nodes| == |links|
    && (forall p, i | 0 <= p < |links| && 0 <= i < |links[p]| && i < level ::
          links[p][i] == LinkAt(nodes, none, Heights(links), p, i))
  }

  lemma SuccIs(h: seq<nat>, p: nat, i: nat, q: nat)
    requires p < q <= |h| && (q < |h| ==> h[q] > i) && (forall x | p < x < q :: h[x] <= i)
    ensures Succ(h, p, i) == q
  {
    SuccSpec(h, p, i);
  }

  /** At level 0 every node is the next. */
  lemma SuccZero(h: seq<nat>, p: nat)
    requires p < |h| && (p + 1 < |h| ==> h[p + 1] > 0)
    ensures Succ(h, p, 0) == p + 1
  {
  }

  /** p is the last position up to r that has level i. */
  predicate Covers(h: seq<nat>, r: nat, p: nat, i: nat) {
    p <= r < |h| && h[p] > i && Succ(h, p, i) > r
  }

  lemma CoversOnce(h: seq<nat>, r: nat, p: nat, q: nat, i: nat)
    requires Covers(h, r, p, i) && Covers(h, r, q, i)
    ensures p == q
  {
    SuccSpec(h, p, i);
    SuccSpec(h, q, i);
  }

  lemma CoverOnly(h: seq<nat>, r: nat, p: nat, q: nat, i: nat)
    requires p <= r && Covers(h, r, q, i) && h[p] > i
    ensures p == q <==> Succ(h, p, i) > r
  {
    SuccSpec(h, p, i);
    if Succ(h, p, i) > r {
      CoversOnce(h, r, p, q, i);
    }
  }

  // --------------------------------------------------------------- adding a position

  /** A node of height lv enters behind position r. */
  function Grown(h: seq<nat>, r: nat, lv: nat): (g: seq<nat>)
    requires r < |h|
    ensures |g| == |h| + 1 && g[r + 1] == lv
    ensures forall p | 0 <= p <= r :: g[p] == h[p]
    ensures forall p | r < p < |h| :: g[p + 1] == h[p]
  {
    h[..r + 1] + [lv] + h[r + 1..]
  }

  /** Links that pass over the new position. */
  lemma SuccOver(h: seq<nat>, r: nat, lv: nat, p: nat, i: nat)
    requires p <= r < |h| && Succ(h, p, i) > r
    ensures Succ(Grown(h, r, lv), p, i) == if lv > i then r + 1 else Succ(h, p, i) + 1
    ensures Succ(Grown(h, r, lv), r + 1, i) == Succ(h, p, i) + 1
  {
    SuccSpec(h, p, i);
    var g, q := Grown(h, r, lv), Succ(h, p, i);
    forall x | r + 1 < x < q + 1 ensures g[x] <= i {
      assert g[x] == h[x - 1];
    }
    assert q < |h| ==> g[q + 1] == h[q];
    SuccIs(g, r + 1, i, q + 1);
    SuccIs(g, p, i, if lv > i then r + 1 else q + 1);
  }

  /** Links that end before it. */
  lemma SuccBelow(h: seq<nat>, r: nat, lv: nat, p: nat, i: nat)
    requires p <= r < |h| && Succ(h, p, i) <= r
    ensures Succ(Grown(h, r, lv), p, i) == Succ(h, p, i)
  {
    SuccSpec(h, p, i);
    SuccIs(Grown(h, r, lv), p, i, Succ(h, p, i));
  }

  /** Links that start after it. */
  lemma SuccAbove(h: seq<nat>, r: nat, lv: nat, p: nat, i: nat)
    requires r < p < |h|
    ensures Succ(Grown(h, r, lv), p + 1, i) == Succ(h, p, i) + 1
  {
    SuccSpec(h, p, i);
    var g, q := Grown(h, r, lv), Succ(h, p, i);
    forall x | p + 1 < x < q + 1 ensures g[x] <= i {
      assert g[x] == h[x - 1];
    }
    assert q < |h| ==> g[q + 1] == h[q];
    SuccIs(g, p + 1, i, q + 1);
  }

  /** What becomes of a link when a node enters behind r. */
  lemma LinkGrows<N>(nodes: seq<N>, none: N, h: seq<nat>, r: nat, node: N, lv: nat, p: nat, i: nat)
    requires p <= r < |h| == |nodes|
    ensures var was, now := LinkAt(nodes, none, h, p, i), LinkAt(Spliced(nodes, r, node), none, Grown(h, r, lv), p, i);
            now == if Succ(h, p, i) <= r then was
                    else if i < lv then Link(node, r - p + 1)
                    else Link(was.next, was.span + 1)
  {
    if Succ(h, p, i) <= r {
      SuccBelow(h, r, lv, p, i);
    } else {
      SuccOver(h, r, lv, p, i);
    }
  }

  lemma LinkEnters<N>(nodes: seq<N>, none: N, h: seq<nat>, r: nat, node: N, lv: nat, p: nat, i: nat)
    requires Covers(h, r, p, i) && |h| == |nodes|
    ensures var was := LinkAt(nodes, none, h, p, i);
            LinkAt(Spliced(nodes, r, node), none, Grown(h, r, lv), r + 1, i) == Link(was.next, was.span - (r - p))
  {
    SuccOver(h, r, lv, p, i);
  }

  lemma LinkShifts<N>(nodes: seq<N>, none: N, h: seq<nat>, r: nat, node: N, lv: nat, p: nat, i: nat)
    requires r < p < |h| == |nodes|
    ensures LinkAt(Spliced(nodes, r, node), none, Grown(h, r, lv), p + 1, i) == LinkAt(nodes, none, h, p, i)
  {
    SuccSpec(h, p, i);
    SuccAbove(h, r, lv, p, i);
  }

  // ------------------------------------------------------------------ patching links

  predicate Patchable<N>(links: seq<seq<Link<N>>>, rank: seq<nat>) {
    forall i | 0 <= i < |rank| :: rank[i] < |links| && i < |links[rank[i]]|
  }

  /** The links of position p with, at each level below k where p is the position to
      change, the link replaced. */
  function Row<N>(row: seq<Link<N>>, p: nat, rank: seq<nat>, to: seq<Link<N>>, k: nat): seq<Link<N>>
    requires k <= |rank| == |to|
  {
    seq(|row|, i requires 0 <= i < |row| => if i < k && p == rank[i] then to[i] else row[i])
  }

  function Patch<N>(links: seq<seq<Link<N>>>, rank: seq<nat>, to: seq<Link<N>>, k: nat): seq<seq<Link<N>>>
    requires k <= |rank| == |to|
  {
    seq(|links|, p requires 0 <= p < |links| => Row(links[p], p, rank, to, k))
  }

  lemma PatchNone<N>(links: seq<seq<Link<N>>>, rank: seq<nat>, to: seq<Link<N>>)
    requires |rank| == |to|
    ensures Patch(links, rank, to, 0) == links
  {
    forall q | 0 <= q < |links| ensures Patch(links, rank, to, 0)[q] == links[q] {
      assert Row(links[q], q, rank, to, 0) == links[q];
    }
  }

  lemma PatchNext<N>(links: seq<seq<Link<N>>>, rank: seq<nat>, to: seq<Link<N>>, k: nat)
    requires Patchable(links, rank) && k < |rank| == |to|
    ensures var m, p := Patch(links, rank, to, k), rank[k];
            |m| == |links| && k < |m[p]| && Patch(links, rank, to, k + 1) == m[p := m[p][k := to[k]]]
  {
    var m, p := Patch(links, rank, to, k), rank[k];
    var n, m' := Patch(links, rank, to, k + 1), m[p := m[p][k := to[k]]];
    forall q | 0 <= q < |links| ensures n[q] == m'[q] {
      assert Row(links[q], q, rank, to, k + 1) == if q == p then m[p][k := to[k]] else m[q];
    }
  }

  /** What Insert writes at level i of the node that covers the new position: below
      the new node's height a link to it, above one node more underneath. */
  function InsertedLink<N>(links: seq<seq<Link<N>>>, rank: seq<nat>, r: nat, node: N, lv: nat, i: nat): Link<N>
    requires Patchable(links, rank) && i < |rank|
  {
    if i < lv then Link(node, r - rank[i] + 1)
    else Link(links[rank[i]][i].next, links[rank[i]][i].span + 1)
  }

  function InsertedLinks<N>(links: seq<seq<Link<N>>>, rank: seq<nat>, r: nat, node: N, lv: nat): seq<Link<N>>
    requires Patchable(links, rank)
  {
    seq(|rank|, i requires 0 <= i < |rank| => InsertedLink(links, rank, r, node, lv, i))
  }

  /** What Insert gives the new node. */
  function NewNode<N>(links: seq<seq<Link<N>>>, rank: seq<nat>, r: nat, lv: nat): seq<Link<N>>
    requires Patchable(links, rank) && lv <= |rank|
  {
    seq(lv, i requires 0 <= i < lv => Link(links[rank[i]][i].next, links[rank[i]][i].span - (r - rank[i])))
  }

  function Spliced<T>(s: seq<T>, r: nat, x: T): seq<T>
    requires r < |s|
  {
    s[..r + 1] + [x] + s[r + 1..]
  }

  ghost predicate Found<N>(links: seq<seq<Link<N>>>, r: nat, rank: seq<nat>) {
    forall i | 0 <= i < |rank| :: Covers(Heights(links), r, rank[i], i)
  }

  ghost function After<N>(links: seq<seq<Link<N>>>, rank: seq<nat>, r: nat, node: N, lv: nat): seq<seq<Link<N>>>
    requires Patchable(links, rank) && r < |links| && lv <= |rank|
  {
    Spliced(Patch(links, rank, InsertedLinks(links, rank, r, node, lv), |rank|), r, NewNode(links, rank, r, lv))
  }

  lemma HeightsAfter<N>(links: seq<seq<Link<N>>>, rank: seq<nat>, r: nat, node: N, lv: nat)
    requires Patchable(links, rank) && r < |links| && lv <= |rank|
    ensures Heights(After(links, rank, r, node, lv)) == Grown(Heights(links), r, lv)
  {
    var a, g := Heights(After(links, rank, r, node, lv)), Grown(Heights(links), r, lv);
    forall p | 0 <= p < |a| ensures a[p] == g[p] {
      if p > r + 1 {
        assert g[p - 1 + 1] == Heights(links)[p - 1];
      }
    }
  }

  /** Everything Insert has found out when it starts to write. */
  ghost predicate Placed<N>(nodes: seq<N>, none: N, links: seq<seq<Link<N>>>, rank: seq<nat>, r: nat) {
    && Linked(nodes, none, links, |rank|) && Patchable(links, rank) && Found(links, r, rank)
    && r < |links|
  }

  lemma InsertBefore<N>(nodes: seq<N>, none: N, links: seq<seq<Link<N>>>, rank: seq<nat>, r: nat, node: N, lv: nat, p: nat, i: nat)
    requires Placed(nodes, none, links, rank, r) && lv <= |rank| && p <= r && i < |links[p]| && i < |rank|
    ensures Patch(links, rank, InsertedLinks(links, rank, r, node, lv), |rank|)[p][i] ==
            LinkAt(Spliced(nodes, r, node), none, Grown(Heights(links), r, lv), p, i)
  {
    var h := Heights(links);
    assert Covers(h, r, rank[i], i);
    LinkGrows(nodes, none, h, r, node, lv, p, i);
    CoverOnly(h, r, p, rank[i], i);
    assert links[p][i] == LinkAt(nodes, none, h, p, i);
  }

  lemma InsertNew<N>(nodes: seq<N>, none: N, links: seq<seq<Link<N>>>, rank: seq<nat>, r: nat, node: N, lv: nat, i: nat)
    requires Placed(nodes, none, links, rank, r) && i < lv <= |rank|
    ensures NewNode(links, rank, r, lv)[i] == LinkAt(Spliced(nodes, r, node), none, Grown(Heights(links), r, lv), r + 1, i)
  {
    var h := Heights(links);
    assert Covers(h, r, rank[i], i);
    assert links[rank[i]][i] == LinkAt(nodes, none, h, rank[i], i);
    LinkEnters(nodes, none, h, r, node, lv, rank[i], i);
  }

  lemma InsertBehind<N>(nodes: seq<N>, none: N, links: seq<seq<Link<N>>>, rank: seq<nat>, r: nat, node: N, lv: nat, p: nat, i: nat)
    requires Placed(nodes, none, links, rank, r) && lv <= |rank| && r < p < |links| && i < |links[p]| && i < |rank|
    ensures Patch(links, rank, InsertedLinks(links, rank, r, node, lv), |rank|)[p][i] ==
            LinkAt(Spliced(nodes, r, node), none, Grown(Heights(links), r, lv), p + 1, i)
  {
    var h := Heights(links);
    assert Covers(h, r, rank[i], i);
    LinkShifts(nodes, none, h, r, node, lv, p, i);
    assert links[p][i] == LinkAt(nodes, none, h, p, i);
  }

  /** Insert's writes keep every link and span right, whatever the new height. */
  lemma InsertLinked<N>(nodes: seq<N>, none: N, links: seq<seq<Link<N>>>, rank: seq<nat>, r: nat, node: N, lv: nat)
    requires Placed(nodes, none, links, rank, r) && lv <= |rank|
    ensures Linked(Spliced(nodes, r, node), none, After(links, rank, r, node, lv), |rank|)
  {
    var after, g := After(links, rank, r, node, lv), Grown(Heights(links), r, lv);
    HeightsAfter(links, rank, r, node, lv);
    forall p, i | 0 <= p < |after| && 0 <= i < |after[p]| && i < |rank|
      ensures after[p][i] == LinkAt(Spliced(nodes, r, node), none, g, p, i)
    {
      if p <= r {
        InsertBefore(nodes, none, links, rank, r, node, lv, p, i);
      } else if p == r + 1 {
        InsertNew(nodes, none, links, rank, r, node, lv, i);
      } else {
        InsertBehind(nodes, none, links, rank, r, node, lv, p - 1, i);
      }
    }
  }

  // ------------------------------------------------------------- removing a position

  function Removed<T>(s: seq<T>, d: nat): seq<T>
    requires d < |s|
  {
    s[..d] + s[d + 1..]
  }

  /** What unlink writes at level i of the node before the one at r + 1: below that
      node's height its link taken over, above one node fewer underneath. */
  function DeletedLink<N>(links: seq<seq<Link<N>>>, rank: seq<nat>, r: nat, i: nat): Link<N>
    requires Patchable(links, rank) && i < |rank| && r + 1 < |links|
  {
    var was := links[rank[i]][i];
    if i < |links[r + 1]| then Link(links[r + 1][i].next, was.span + links[r + 1][i].span - 1)
    else Link(was.next, was.span - 1)
  }

  function DeletedLinks<N>(links: seq<seq<Link<N>>>, rank: seq<nat>, r: nat): seq<Link<N>>
    requires Patchable(links, rank) && r + 1 < |links|
  {
    seq(|rank|, i requires 0 <= i < |rank| => DeletedLink(links, rank, r, i))
  }

  ghost function Without<N>(links: seq<seq<Link<N>>>, rank: seq<nat>, r: nat): seq<seq<Link<N>>>
    requires Patchable(links, rank) && r + 1 < |links|
  {
    Removed(Patch(links, rank, DeletedLinks(links, rank, r), |rank|), r + 1)
  }

  lemma Regrown(h: seq<nat>, d: nat)
    requires 0 < d < |h|
    ensures Grown(Removed(h, d), d - 1, h[d]) == h
  {
  }

  lemma Respliced<T>(s: seq<T>, d: nat)
    requires 0 < d < |s|
    ensures Spliced(Removed(s, d), d - 1, s[d]) == s
  {
  }

  lemma HeightsWithout<N>(links: seq<seq<Link<N>>>, rank: seq<nat>, r: nat)
    requires Patchable(links, rank) && r + 1 < |links|
    ensures Heights(Without(links, rank, r)) == Removed(Heights(links), r + 1)
  {
    var w, g := Heights(Without(links, rank, r)), Removed(Heights(links), r + 1);
    assert forall p | 0 <= p < |w| :: w[p] == g[p];
  }

  /** Removing a position undoes adding it, link by link. */
  lemma LinkShrinks<N>(nodes: seq<N>, none: N, h: seq<nat>, r: nat, p: nat, i: nat)
    requires p <= r && r + 1 < |h| == |nodes| && h[p] > i
    ensures var was, now := LinkAt(nodes, none, h, p, i), LinkAt(Removed(nodes, r + 1), none, Removed(h, r + 1), p, i);
            var gone := LinkAt(nodes, none, h, r + 1, i);
            now == if Succ(h, p, i) <= r then was
                   else if i < h[r + 1] then Link(gone.next, was.span + gone.span - 1)
                   else Link(was.next, was.span - 1)
  {
    var small, g, node, lv := Removed(nodes, r + 1), Removed(h, r + 1), nodes[r + 1], h[r + 1];
    Regrown(h, r + 1);
    Respliced(nodes, r + 1);
    LinkGrows(small, none, g, r, node, lv, p, i);
    if Succ(g, p, i) <= r {
      SuccBelow(g, r, lv, p, i);
    } else {
      SuccOver(g, r, lv, p, i);
      LinkEnters(small, none, g, r, node, lv, p, i);
    }
  }

  lemma SuccUnshifts(h: seq<nat>, d: nat, p: nat, i: nat)
    requires d < p < |h|
    ensures Succ(Removed(h, d), p - 1, i) == Succ(h, p, i) - 1
  {
    SuccSpec(h, p, i);
    var g, q := Removed(h, d), Succ(h, p, i);
    forall x | p - 1 < x < q - 1 ensures g[x] <= i {
      assert g[x] == h[x + 1];
    }
    SuccIs(g, p - 1, i, q - 1);
  }

  lemma LinkUnshifts<N>(nodes: seq<N>, none: N, h: seq<nat>, d: nat, p: nat, i: nat)
    requires d < p < |h| == |nodes|
    ensures LinkAt(Removed(nodes, d), none, Removed(h, d), p - 1, i) == LinkAt(nodes, none, h, p, i)
  {
    SuccSpec(h, p, i);
    SuccUnshifts(h, d, p, i);
  }

  lemma DeleteBefore<N>(nodes: seq<N>, none: N, links: seq<seq<Link<N>>>, rank: seq<nat>, r: nat, p: nat, i: nat)
    requires Placed(nodes, none, links, rank, r) && r + 1 < |links| && p <= r && i < |links[p]| && i < |rank|
    ensures Patch(links, rank, DeletedLinks(links, rank, r), |rank|)[p][i] ==
            LinkAt(Removed(nodes, r + 1), none, Removed(Heights(links), r + 1), p, i)
  {
    var h := Heights(links);
    assert Covers(h, r, rank[i], i);
    LinkShrinks(nodes, none, h, r, p, i);
    CoverOnly(h, r, p, rank[i], i);
    assert links[p][i] == LinkAt(nodes, none, h, p, i);
    assert i < |links[r + 1]| ==> links[r + 1][i] == LinkAt(nodes, none, h, r + 1, i);
  }

  lemma DeleteBehind<N>(nodes: seq<N>, none: N, links: seq<seq<Link<N>>>, rank: seq<nat>, r: nat, p: nat, i: nat)
    requires Placed(nodes, none, links, rank, r) && r + 1 < p < |links| && i < |links[p]| && i < |rank|
    ensures Patch(links, rank, DeletedLinks(links, rank, r), |rank|)[p][i] ==
            LinkAt(Removed(nodes, r + 1), none, Removed(Heights(links), r + 1), p - 1, i)
  {
    var h := Heights(links);
    assert Covers(h, r, rank[i], i);
    LinkUnshifts(nodes, none, h, r + 1, p, i);
    assert links[p][i] == LinkAt(nodes, none, h, p, i);
  }

  /** unlink's writes keep every link and span right. */
  lemma DeleteLinked<N>(nodes: seq<N>, none: N, links: seq<seq<Link<N>>>, rank: seq<nat>, r: nat)
    requires Placed(nodes, none, links, rank, r) && r + 1 < |links|
    ensures Linked(Removed(nodes, r + 1), none, Without(links, rank, r), |rank|)
  {
    var without, g := Without(links, rank, r), Removed(Heights(links), r + 1);
    HeightsWithout(links, rank, r);
    forall p, i | 0 <= p < |without| && 0 <= i < |without[p]| && i < |rank|
      ensures without[p][i] == LinkAt(Removed(nodes, r + 1), none, g, p, i)
    {
      if p <= r {
        DeleteBefore(nodes, none, links, rank, r, p, i);
      } else {
        DeleteBehind(nodes, none, links, rank, r, p + 1, i);
      }
    }
  }
}
