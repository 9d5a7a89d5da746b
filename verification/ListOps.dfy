/** Lists (engine/list.go): a flat listpack while small, a quicklist of bounded nodes
    above the thresholds.  A listpack is represented by its entries, which is what
    Listpack implements. */
module ListOps {
  import opened Seqs
  import opened Options
  import opened Bytes

  type Elems = seq<bytes>

  function Flat(nodes: seq<Elems>): Elems {
    if nodes == [] then [] else nodes[0] + Flat(nodes[1..])
  }

  lemma {:induction false} FlatConcat(a: seq<Elems>, b: seq<Elems>)
    ensures Flat(a + b) == Flat(a) + Flat(b)
  {
    if a == [] {
      assert a + b == b;
    } else {
      FlatConcat(a[1..], b);
      assert (a + b)[1..] == a[1..] + b;
    }
  }

  lemma FlatAt(nodes: seq<Elems>, n: nat)
    requires n < |nodes|
    ensures Flat(nodes) == Flat(nodes[..n]) + nodes[n] + Flat(nodes[n + 1..])
  {
    assert nodes == nodes[..n] + nodes[n..];
    FlatConcat(nodes[..n], nodes[n..]);
    assert nodes[n..][1..] == nodes[n + 1..];
  }

  /** One node replaced by some nodes. */
  lemma FlatReplace(nodes: seq<Elems>, n: nat, mid: seq<Elems>)
    requires n < |nodes|
    ensures Flat(nodes[..n] + mid + nodes[n + 1..]) == Flat(nodes[..n]) + Flat(mid) + Flat(nodes[n + 1..])
  {
    FlatConcat(nodes[..n] + mid, nodes[n + 1..]);
    FlatConcat(nodes[..n], mid);
  }

  lemma FlatOne(e: Elems)
    ensures Flat([e]) == e
  {
    assert [e][1..] == [];
  }

  lemma FlatTwo(a: Elems, b: Elems)
    ensures Flat([a, b]) == a + b
  {
    assert [a, b][1..] == [b];
    FlatOne(b);
  }

  function Without(s: Elems, i: nat): Elems
    requires i < |s|
  {
    s[..i] + s[i + 1..]
  }

  /** No node is empty and none is above twice the fill. */
  ghost predicate Bounded(nodes: seq<Elems>, fill: nat) {
    forall n | 0 <= n < |nodes| :: 0 < |nodes[n]| <= 2 * fill
  }

  /** The elements from a place on, collected in one pass. */
  method From(node: Elems, half: nat) returns (tail: Elems)
    requires half <= |node|
    ensures tail == node[half..]
  {
    tail := [];
    var i := 0;
    while i < |node|
      invariant 0 <= i <= |node| && tail == if i <= half then [] else node[half..i]
    {
      if i >= half {
        tail := tail + [node[i]];
      }
      i := i + 1;
    }
    assert node[half..|node|] == node[half..];
  }

  class Quicklist {
    var nodes: seq<Elems>
    var count: nat
    const fill: nat

    ghost predicate Valid()
      reads this
    {
      fill >= 8 && count == |Flat(nodes)| && Bounded(nodes, fill)
    }

    ghost function Contents(): Elems
      reads this
    {
      Flat(nodes)
    }

    constructor (fill: int)
      ensures Valid() && Contents() == []
    {
      this.fill := if fill < 8 then 8 else fill;
      nodes, count := [], 0;
    }

    method PushFront(v: bytes)
      requires Valid()
      modifies this
      ensures Valid() && Contents() == [v] + old(Contents())
    {
      if |nodes| == 0 || |nodes[0]| >= fill {
        FlatConcat([[v]], nodes);
        FlatOne([v]);
        nodes := [[]] + nodes;
      }
      nodes := nodes[0 := [v] + nodes[0]];
      count := count + 1;
      assert nodes[1..] == if |old(nodes)| == 0 || |old(nodes)[0]| >= fill then old(nodes) else old(nodes)[1..];
    }

    method PushBack(v: bytes)
      requires Valid()
      modifies this
      ensures Valid() && Contents() == old(Contents()) + [v]
    {
      var last := |nodes| - 1;
      if last < 0 || |nodes[last]| >= fill {
        FlatConcat(nodes, [[v]]);
        FlatOne([v]);
        nodes := nodes + [[v]];
      } else {
        ghost var init, e := nodes[..last], nodes[last];
        assert nodes == init + [e];
        FlatConcat(init, [e]);
        FlatConcat(init, [e + [v]]);
        FlatOne(e);
        FlatOne(e + [v]);
        nodes := nodes[last := nodes[last] + [v]];
        assert nodes == init + [e + [v]];
      }
      count := count + 1;
    }

    /** locate: the node and place of a logical index. */
    method Locate(i: int) returns (ok: bool, n: nat, off: nat)
      requires Valid()
      ensures ok == (0 <= i < count)
      ensures ok ==> n < |nodes| && off < |nodes[n]| && i == |Flat(nodes[..n])| + off
    {
      if i < 0 || i >= count {
        return false, 0, 0;
      }
      n, off := 0, i;
      assert nodes[0..] == nodes;
      while off >= |nodes[n]|
        invariant n < |nodes| && 0 <= off < |Flat(nodes[n..])| && i == |Flat(nodes[..n])| + off
        decreases |nodes| - n
      {
        off := off - |nodes[n]|;
        assert nodes[..n + 1] == nodes[..n] + [nodes[n]];
        FlatConcat(nodes[..n], [nodes[n]]);
        FlatOne(nodes[n]);
        assert nodes[n..][1..] == nodes[n + 1..];
        n := n + 1;
      }
      return true, n, off;
    }

    method At(i: int) returns (e: Option<bytes>)
      requires Valid()
      ensures e == if 0 <= i < |Contents()| then Some(Contents()[i]) else None
    {
      var ok, n, off := Locate(i);
      if !ok {
        return None;
      }
      FlatAt(nodes, n);
      return Some(nodes[n][off]);
    }

    /** A node changed, or dropped when it became empty. */
    method Change(n: nat, e: Elems)
      requires fill >= 8 && Bounded(nodes, fill) && n < |nodes| && |e| <= 2 * fill
      modifies this`nodes
      ensures Bounded(nodes, fill)
      ensures Contents() == Flat(old(nodes)[..n]) + e + Flat(old(nodes)[n + 1..])
    {
      FlatReplace(nodes, n, [e]);
      FlatReplace(nodes, n, []);
      FlatOne(e);
      if |e| == 0 {
        assert e == [] && Flat([]) == e;
        nodes := nodes[..n] + [] + nodes[n + 1..];
      } else {
        nodes := nodes[..n] + [e] + nodes[n + 1..];
      }
    }

    method SetAt(i: int, v: bytes) returns (ok: bool)
      requires Valid()
      modifies this
      ensures Valid() && ok == (0 <= i < |old(Contents())|)
      ensures Contents() == if ok then old(Contents())[i := v] else old(Contents())
    {
      var n, off;
      ok, n, off := Locate(i);
      if !ok {
        return;
      }
      FlatAt(nodes, n);
      Change(n, nodes[n][off := v]);
      assert Contents() == old(Contents())[i := v];
    }

    method DeleteAt(i: int) returns (ok: bool)
      requires Valid()
      modifies this
      ensures Valid() && ok == (0 <= i < |old(Contents())|)
      ensures Contents() == if ok then Without(old(Contents()), i) else old(Contents())
    {
      var n, off;
      ok, n, off := Locate(i);
      if !ok {
        return;
      }
      FlatAt(nodes, n);
      Change(n, Without(nodes[n], off));
      count := count - 1;
      assert Contents() == Without(old(Contents()), i);
    }

    method PopFront() returns (v: Option<bytes>)
      requires Valid()
      modifies this
      ensures Valid()
      ensures var s := old(Contents());
              if s == [] then v == None && Contents() == [] else v == Some(s[0]) && Contents() == s[1..]
    {
      if count == 0 {
        return None;
      }
      v := At(0);
      var ok := DeleteAt(0);
    }

    method PopBack() returns (v: Option<bytes>)
      requires Valid()
      modifies this
      ensures Valid()
      ensures var s := old(Contents());
              if s == [] then v == None && Contents() == []
              else v == Some(s[|s| - 1]) && Contents() == s[..|s| - 1]
    {
      if count == 0 {
        return None;
      }
      v := At(count - 1);
      var ok := DeleteAt(count - 1);
    }

    /** splitIfLarge: a node past twice the fill becomes two halves. */
    method SplitIfLarge(n: nat)
      requires fill >= 8 && n < |nodes| && 0 < |nodes[n]| <= 2 * fill + 1
      requires forall m | 0 <= m < |nodes| && m != n :: 0 < |nodes[m]| <= 2 * fill
      modifies this`nodes
      ensures Bounded(nodes, fill) && Contents() == old(Contents())
    {
      var node := nodes[n];
      if |node| <= fill * 2 {
        return;
      }
      var half := |node| / 2;
      var tail := From(node, half);
      FlatAt(nodes, n);
      FlatReplace(nodes, n, [node[..half], tail]);
      FlatTwo(node[..half], tail);
      assert node[..half] + tail == node;
      nodes := nodes[..n] + [node[..half], tail] + nodes[n + 1..];
    }

    /** An element enters a node. */
    method Enter(n: nat, off: nat, v: bytes)
      requires Valid() && n < |nodes| && off <= |nodes[n]|
      modifies this
      ensures Valid()
      ensures var k := |Flat(old(nodes)[..n])| + off;
              k <= |old(Contents())| && Contents() == old(Contents())[..k] + [v] + old(Contents())[k..]
    {
      ghost var k := |Flat(nodes[..n])| + off;
      var e := nodes[n][..off] + [v] + nodes[n][off..];
      FlatAt(nodes, n);
      FlatReplace(nodes, n, [e]);
      FlatOne(e);
      ghost var was := Contents();
      nodes := nodes[..n] + [e] + nodes[n + 1..];
      count := count + 1;
      assert Contents() == was[..k] + [v] + was[k..];
      SplitIfLarge(n);
    }

    /** InsertAt: before a logical index, at an end if it is outside. */
    method InsertAt(i: int, v: bytes)
      requires Valid()
      modifies this
      ensures Valid()
      ensures var s := old(Contents());
              var k := if i < 0 then 0 else if i > |s| then |s| else i;
              Contents() == s[..k] + [v] + s[k..]
    {
      if i <= 0 {
        PushFront(v);
        return;
      }
      if i >= count {
        PushBack(v);
        return;
      }
      var ok, n, off := Locate(i);
      Enter(n, off, v);
    }
  }

  // ------------------------------------------------------------------ specifications

  /** clampRange: the inclusive range two signed indices name, if it is not empty. */
  function ClampRange(start: int, stop: int, length: nat): (r: Option<(nat, nat)>)
    ensures r.Some? ==> r.value.0 <= r.value.1 < length
  {
    if length == 0 then None
    else
      var lo := if start < 0 then start + length else start;
      var hi := if stop < 0 then stop + length else stop;
      var lo' := if lo < 0 then 0 else lo;
      var hi' := if hi >= length then length - 1 else hi;
      if lo' > hi' || lo' >= length then None else Some((lo', hi'))
  }

  function Between(s: Elems, start: int, stop: int): Elems {
    var r := ClampRange(start, stop, |s|);
    if r.None? then [] else s[r.value.0..r.value.1 + 1]
  }

  function Occurrences(s: Elems, v: bytes): nat {
    if s == [] then 0 else Occurrences(s[..|s| - 1], v) + if s[|s| - 1] == v then 1 else 0
  }

  /** The list without the occurrences of v numbered lo to hi - 1. */
  function Strip(s: Elems, v: bytes, lo: int, hi: int): Elems {
    if s == [] then []
    else
      var n := |s| - 1;
      var k := Occurrences(s[..n], v);
      Strip(s[..n], v, lo, hi) + if s[n] == v && lo <= k < hi then [] else [s[n]]
  }

  /** LREM: a positive count takes that many from the head, a negative one from the
      tail, zero takes all. */
  function Removed(s: Elems, count: int, v: bytes): Elems {
    var m := Occurrences(s, v);
    if count > 0 then Strip(s, v, 0, count)
    else if count < 0 then Strip(s, v, m + count, m)
    else Strip(s, v, 0, m)
  }

  /** Where v occurs, in order. */
  function Matches(s: Elems, v: bytes): (ms: seq<nat>)
    ensures |ms| == Occurrences(s, v) && forall i | 0 <= i < |ms| :: ms[i] < |s|
  {
    if s == [] then []
    else Matches(s[..|s| - 1], v) + if s[|s| - 1] == v then [|s| - 1] else []
  }

  lemma {:induction false} MatchesAscend(s: Elems, v: bytes, i: nat, j: nat)
    requires i < j < |Matches(s, v)|
    ensures Matches(s, v)[i] < Matches(s, v)[j]
  {
    if j < |Matches(s[..|s| - 1], v)| {
      MatchesAscend(s[..|s| - 1], v, i, j);
    }
  }

  ghost predicate Ascending(ms: seq<nat>, bound: nat) {
    && (forall i, j | 0 <= i < j < |ms| :: ms[i] < ms[j])
    && (forall i | 0 <= i < |ms| :: ms[i] < bound)
  }

  /** Deleting places from the back, so that the earlier ones stay valid. */
  function DeleteAll(s: Elems, ms: seq<nat>): Elems
    requires Ascending(ms, |s|)
    decreases |ms|
  {
    if ms == [] then s else DeleteAll(Without(s, ms[|ms| - 1]), ms[..|ms| - 1])
  }

  /** Places before the last element leave it where it is. */
  lemma {:induction false} DeleteBefore(s: Elems, x: bytes, ms: seq<nat>)
    requires Ascending(ms, |s|)
    ensures Ascending(ms, |s + [x]|) && DeleteAll(s + [x], ms) == DeleteAll(s, ms) + [x]
    decreases |ms|
  {
    if ms != [] {
      var m := ms[|ms| - 1];
      assert Without(s + [x], m) == Without(s, m) + [x];
      DeleteBefore(Without(s, m), x, ms[..|ms| - 1]);
    }
  }

  function Clip(x: int, n: nat): nat {
    if x < 0 then 0 else if x > n then n else x
  }

  /** The occurrences numbered lo to hi - 1. */
  function Chosen(s: Elems, v: bytes, lo: int, hi: int): seq<nat>
    requires lo <= hi
  {
    var ms := Matches(s, v);
    ms[Clip(lo, |ms|)..Clip(hi, |ms|)]
  }

  lemma ChosenAscend(s: Elems, v: bytes, lo: int, hi: int)
    requires lo <= hi
    ensures Ascending(Chosen(s, v, lo, hi), |s|)
  {
    var ms, some := Matches(s, v), Chosen(s, v, lo, hi);
    forall i, j | 0 <= i < j < |some| ensures some[i] < some[j] {
      MatchesAscend(s, v, Clip(lo, |ms|) + i, Clip(lo, |ms|) + j);
    }
  }

  lemma MatchesSnoc(t: Elems, x: bytes, v: bytes)
    ensures Matches(t + [x], v) == Matches(t, v) + if x == v then [|t|] else []
  {
    assert (t + [x])[..|t|] == t;
  }

  lemma SliceSnoc(ms: seq<nat>, y: nat, lo: int, hi: int)
    requires lo <= hi
    ensures (ms + [y])[Clip(lo, |ms| + 1)..Clip(hi, |ms| + 1)] ==
            ms[Clip(lo, |ms|)..Clip(hi, |ms|)] + if lo <= |ms| < hi then [y] else []
  {
    if hi <= |ms| {
      assert (ms + [y])[Clip(lo, |ms|)..Clip(hi, |ms|)] == ms[Clip(lo, |ms|)..Clip(hi, |ms|)];
    } else if lo <= |ms| {
      assert (ms + [y])[Clip(lo, |ms|)..|ms| + 1] == ms[Clip(lo, |ms|)..] + [y];
    }
  }

  lemma ChosenSnoc(t: Elems, x: bytes, v: bytes, lo: int, hi: int)
    requires lo <= hi
    ensures x == v && lo <= Occurrences(t, v) < hi ==> Chosen(t + [x], v, lo, hi) == Chosen(t, v, lo, hi) + [|t|]
    ensures !(x == v && lo <= Occurrences(t, v) < hi) ==> Chosen(t + [x], v, lo, hi) == Chosen(t, v, lo, hi)
  {
    MatchesSnoc(t, x, v);
    if x == v {
      SliceSnoc(Matches(t, v), |t|, lo, hi);
    } else {
      assert Matches(t, v) + [] == Matches(t, v);
    }
  }

  lemma StripSnoc(t: Elems, x: bytes, v: bytes, lo: int, hi: int)
    ensures x == v && lo <= Occurrences(t, v) < hi ==> Strip(t + [x], v, lo, hi) == Strip(t, v, lo, hi)
    ensures !(x == v && lo <= Occurrences(t, v) < hi) ==> Strip(t + [x], v, lo, hi) == Strip(t, v, lo, hi) + [x]
  {
    assert (t + [x])[..|t|] == t;
  }

  /** The last place and then those before it. */
  lemma DeleteLast(t: Elems, x: bytes, ms: seq<nat>)
    requires Ascending(ms, |t|)
    ensures Ascending(ms + [|t|], |t + [x]|) && DeleteAll(t + [x], ms + [|t|]) == DeleteAll(t, ms)
  {
    assert (ms + [|t|])[..|ms|] == ms;
    assert Without(t + [x], |t|) == t;
  }

  /** Deleting some consecutive occurrences is stripping them. */
  lemma {:induction false} DeleteStrips(s: Elems, v: bytes, lo: int, hi: int)
    requires lo <= hi
    ensures Ascending(Chosen(s, v, lo, hi), |s|) && DeleteAll(s, Chosen(s, v, lo, hi)) == Strip(s, v, lo, hi)
  {
    ChosenAscend(s, v, lo, hi);
    if s != [] {
      var t, x := s[..|s| - 1], s[|s| - 1];
      assert s == t + [x];
      DeleteStrips(t, v, lo, hi);
      ChosenSnoc(t, x, v, lo, hi);
      StripSnoc(t, x, v, lo, hi);
      DeleteBefore(t, x, Chosen(t, v, lo, hi));
      DeleteLast(t, x, Chosen(t, v, lo, hi));
    }
  }

  // ------------------------------------------------------- what the specifications mean

  /** Position i is also position i - n, counted from the end; it is not before the
      start and not after the stop, each in its own counting. */
  predicate Named(start: int, stop: int, n: nat, i: nat) {
    && (if start >= 0 then start <= i else start <= i - n)
    && (if stop >= 0 then i <= stop else i - n <= stop)
  }

  /** The range is exactly the elements at the named positions, in order. */
  lemma BetweenIs(s: Elems, start: int, stop: int) returns (lo: nat)
    ensures lo + |Between(s, start, stop)| <= |s|
    ensures forall j | 0 <= j < |Between(s, start, stop)| :: Between(s, start, stop)[j] == s[lo + j]
    ensures forall i | 0 <= i < |s| :: Named(start, stop, |s|, i) <==> lo <= i < lo + |Between(s, start, stop)|
  {
    var r := ClampRange(start, stop, |s|);
    lo := if r.Some? then r.value.0 else 0;
  }

  /** The elements that are not v. */
  function Others(s: Elems, v: bytes): Elems {
    if s == [] then [] else (if s[0] == v then [] else [s[0]]) + Others(s[1..], v)
  }

  lemma OthersCons(x: bytes, s: Elems, v: bytes)
    ensures Others([x] + s, v) == (if x == v then [] else [x]) + Others(s, v)
  {
    assert ([x] + s)[1..] == s;
  }

  lemma {:induction false} OthersConcat(a: Elems, b: Elems, v: bytes)
    ensures Others(a + b, v) == Others(a, v) + Others(b, v)
  {
    if a == [] {
      assert a + b == b;
    } else {
      var x, rest := a[0], a[1..];
      OthersConcat(rest, b, v);
      OthersCons(x, rest + b, v);
      assert a + b == [x] + (rest + b);
      ConcatAssoc(if x == v then [] else [x], Others(rest, v), Others(b, v));
    }
  }

  lemma OccurrencesSnoc(s: Elems, x: bytes, v: bytes)
    ensures Occurrences(s + [x], v) == Occurrences(s, v) + if x == v then 1 else 0
  {
    assert (s + [x])[..|s|] == s;
  }

  lemma {:induction false} OccurrencesConcat(a: Elems, b: Elems, v: bytes)
    ensures Occurrences(a + b, v) == Occurrences(a, v) + Occurrences(b, v)
  {
    if b == [] {
      assert a + b == a;
    } else {
      var init, x := b[..|b| - 1], b[|b| - 1];
      OccurrencesConcat(a, init, v);
      assert a + b == (a + init) + [x];
      OccurrencesSnoc(a + init, x, v);
    }
  }

  lemma {:induction false} NoneAmong(s: Elems, v: bytes)
    requires Occurrences(s, v) == 0
    ensures Others(s, v) == s
  {
    if s != [] {
      var t, x := s[..|s| - 1], s[|s| - 1];
      NoneAmong(t, v);
      OthersConcat(t, [x], v);
      OthersCons(x, [], v);
      assert s == t + [x];
    }
  }

  /** Occurrences lo to hi - 1 lie in y. */
  ghost predicate Thirds(s: Elems, v: bytes, lo: nat, hi: nat, x: Elems, y: Elems, z: Elems) {
    && s == x + y + z
    && Strip(s, v, lo, hi) == x + Others(y, v) + z
    && Occurrences(s, v) == Occurrences(x, v) + Occurrences(y, v) + Occurrences(z, v)
    && Occurrences(x, v) == Least(lo, Occurrences(s, v))
    && Occurrences(x, v) + Occurrences(y, v) == Least(hi, Occurrences(s, v))
  }

  function Least(a: nat, b: nat): nat {
    if a < b then a else b
  }

  /** One v more, below the first that goes. */
  lemma ThirdsBelow(t: Elems, v: bytes, lo: nat, hi: nat, x: Elems, y: Elems, z: Elems)
    requires lo <= hi && Thirds(t, v, lo, hi, x, y, z) && Occurrences(t, v) < lo
    ensures Thirds(t + [v], v, lo, hi, t + [v], [], [])
  {
    StripSnoc(t, v, v, lo, hi);
    OccurrencesSnoc(t, v, v);
    NoneAmong(y, v);
    assert Others([], v) == [] && t + [v] + [] + [] == t + [v];
  }

  lemma Regrouped(x: Elems, y: Elems, z: Elems, w: Elems)
    ensures x + y + z + w == x + (y + z + w) + [] && x + y + z == x + (y + z) + [] && x + y + (z + w) == x + y + z + w
  {
    ConcatAssoc(x, y, z);
    ConcatAssoc(x, y + z, w);
    ConcatAssoc(x + y, z, w);
  }

  lemma OthersWithin(y: Elems, z: Elems, v: bytes)
    requires Occurrences(z, v) == 0
    ensures Others(y + z + [v], v) == Others(y, v) + z
    ensures Occurrences(y + z + [v], v) == Occurrences(y, v) + 1
  {
    OccurrencesConcat(y, z, v);
    OccurrencesSnoc(y + z, v, v);
    NoneAmong(z, v);
    OthersConcat(y, z, v);
    OthersConcat(y + z, [v], v);
    OthersCons(v, [], v);
  }

  /** One that goes. */
  lemma ThirdsWithin(t: Elems, v: bytes, lo: nat, hi: nat, x: Elems, y: Elems, z: Elems)
    requires lo <= hi && Thirds(t, v, lo, hi, x, y, z) && lo <= Occurrences(t, v) < hi
    ensures Thirds(t + [v], v, lo, hi, x, y + z + [v], [])
  {
    StripSnoc(t, v, v, lo, hi);
    OccurrencesSnoc(t, v, v);
    OthersWithin(y, z, v);
    Regrouped(x, y, z, [v]);
    Regrouped(x, Others(y, v), z, []);
  }

  /** An element that stays. */
  lemma ThirdsBeyond(t: Elems, e: bytes, v: bytes, lo: nat, hi: nat, x: Elems, y: Elems, z: Elems)
    requires lo <= hi && Thirds(t, v, lo, hi, x, y, z) && (e != v || Occurrences(t, v) >= hi)
    ensures Thirds(t + [e], v, lo, hi, x, y, z + [e])
  {
    StripSnoc(t, e, v, lo, hi);
    OccurrencesSnoc(t, e, v);
    OccurrencesSnoc(z, e, v);
    Regrouped(x, y, z, [e]);
    Regrouped(x, Others(y, v), z, [e]);
  }

  /** Stripping leaves a front and a back as they were and takes every v in between. */
  lemma {:induction false} StripThirds(s: Elems, v: bytes, lo: nat, hi: nat) returns (x: Elems, y: Elems, z: Elems)
    requires lo <= hi
    ensures Thirds(s, v, lo, hi, x, y, z)
  {
    x, y, z := [], [], [];
    if s != [] {
      var t, e := s[..|s| - 1], s[|s| - 1];
      assert s == t + [e];
      x, y, z := StripThirds(t, v, lo, hi);
      if e == v && Occurrences(t, v) < lo {
        ThirdsBelow(t, v, lo, hi, x, y, z);
        x, y, z := s, [], [];
      } else if e == v && Occurrences(t, v) < hi {
        ThirdsWithin(t, v, lo, hi, x, y, z);
        y, z := y + z + [v], [];
      } else {
        ThirdsBeyond(t, e, v, lo, hi, x, y, z);
        z := z + [e];
      }
    }
  }

  lemma {:induction false} StripBelow(s: Elems, v: bytes, lo: int, hi: int)
    requires lo <= 0
    ensures Strip(s, v, lo, hi) == Strip(s, v, 0, hi)
  {
    if s != [] {
      StripBelow(s[..|s| - 1], v, lo, hi);
    }
  }

  /** What LREM with a positive count does: the front loses every v and nothing else, and
      that is as many as were asked for, or all there are; the back stays. */
  lemma RemovedFront(s: Elems, count: int, v: bytes) returns (front: Elems, back: Elems)
    requires count > 0
    ensures s == front + back && Removed(s, count, v) == Others(front, v) + back
    ensures Occurrences(front, v) == Least(count, Occurrences(s, v))
  {
    var x, y, z := StripThirds(s, v, 0, count);
    front, back := x + y, z;
    NoneAmong(x, v);
    OthersConcat(x, y, v);
    OccurrencesConcat(x, y, v);
  }

  /** With a negative one it is the back, and with zero the whole list. */
  lemma RemovedBack(s: Elems, count: int, v: bytes) returns (front: Elems, back: Elems)
    requires count <= 0
    ensures s == front + back && Removed(s, count, v) == front + Others(back, v)
    ensures Occurrences(back, v) == if count < 0 then Least(-count, Occurrences(s, v)) else Occurrences(s, v)
  {
    var m := Occurrences(s, v);
    var lo := if count < 0 && m + count > 0 then m + count else 0;
    if count < 0 && m + count <= 0 {
      StripBelow(s, v, m + count, m);
    }
    var x, y, z := StripThirds(s, v, lo, m);
    front, back := x, y + z;
    NoneAmong(z, v);
    OthersConcat(y, z, v);
    OccurrencesConcat(y, z, v);
    ConcatAssoc(x, y, z);
    ConcatAssoc(x, Others(y, v), z);
  }

  datatype Thresholds = Thresholds(maxSize: int, maxValue: int)

  class List {
    var lp: Option<Elems>
    var ql: Quicklist?

    ghost predicate Valid()
      reads this, ql
    {
      if lp.Some? then ql == null else ql != null && ql.Valid()
    }

    ghost function Contents(): Elems
      requires Valid()
      reads this, ql
    {
      if lp.Some? then lp.value else ql.Contents()
    }

    constructor ()
      ensures Valid() && Contents() == []
    {
      lp, ql := Some([]), null;
    }

    method Len() returns (n: nat)
      requires Valid()
      ensures n == |Contents()|
    {
      return if lp.Some? then |lp.value| else ql.count;
    }

    /** promoteIfNeeded: the elements move to a quicklist. */
    method PromoteIfNeeded(t: Thresholds, longest: nat)
      requires Valid()
      modifies this
      ensures Valid() && Contents() == old(Contents()) && (ql == old(ql) || fresh(ql))
      ensures lp.Some? <==> old(lp).Some? && |Contents()| <= t.maxSize && longest <= t.maxValue
    {
      if lp.None? || (|lp.value| <= t.maxSize && longest <= t.maxValue) {
        return;
      }
      var q := new Quicklist(t.maxSize);
      var i := 0;
      while i < |lp.value|
        invariant lp == old(lp) && ql == old(ql) && 0 <= i <= |lp.value| && fresh(q) && q.Valid() && q.Contents() == lp.value[..i]
      {
        q.PushBack(lp.value[i]);
        i := i + 1;
      }
      assert lp.value[..i] == lp.value;
      lp, ql := None, q;
    }

    /** Push. */
    method Push(v: bytes, front: bool, t: Thresholds)
      requires Valid()
      modifies this, ql
      ensures Valid() && (ql == old(ql) || fresh(ql))
      ensures Contents() == if front then [v] + old(Contents()) else old(Contents()) + [v]
      ensures lp.Some? <==> old(lp).Some? && |Contents()| <= t.maxSize && |v| <= t.maxValue
    {
      if ql != null {
        if front {
          ql.PushFront(v);
        } else {
          ql.PushBack(v);
        }
        return;
      }
      lp := Some(if front then [v] + lp.value else lp.value + [v]);
      PromoteIfNeeded(t, |v|);
    }

    /** Pop. */
    method Pop(front: bool) returns (v: Option<bytes>)
      requires Valid()
      modifies this, ql
      ensures Valid() && ql == old(ql)
      ensures var s := old(Contents());
              if s == [] then v == None && Contents() == []
              else if front then v == Some(s[0]) && Contents() == s[1..]
              else v == Some(s[|s| - 1]) && Contents() == s[..|s| - 1]
    {
      if ql != null {
        if front {
          v := ql.PopFront();
        } else {
          v := ql.PopBack();
        }
        return;
      }
      var l := lp.value;
      if |l| == 0 {
        return None;
      }
      var i := if front then 0 else |l| - 1;
      v := Some(l[i]);
      lp := Some(Without(l, i));
    }

    /** deleteAt, for an index there is. */
    method DeleteAt(i: nat)
      requires Valid() && i < |Contents()|
      modifies this, ql
      ensures Valid() && ql == old(ql) && Contents() == Without(old(Contents()), i)
    {
      if ql != null {
        var ok := ql.DeleteAt(i);
        return;
      }
      lp := Some(Without(lp.value, i));
    }

    /** An element of either encoding. */
    method Get(i: nat) returns (e: bytes)
      requires Valid() && i < |Contents()|
      ensures e == Contents()[i]
    {
      if ql != null {
        var x := ql.At(i);
        return x.value;
      }
      return lp.value[i];
    }

    /** At: negative indices count from the end. */
    method At(index: int) returns (e: Option<bytes>)
      requires Valid()
      ensures var s := Contents();
              var i := if index < 0 then index + |s| else index;
              e == if 0 <= i < |s| then Some(s[i]) else None
    {
      var n := Len();
      var i := if index < 0 then index + n else index;
      if i < 0 || i >= n {
        return None;
      }
      var x := Get(i);
      return Some(x);
    }

    /** SetAt. */
    method SetAt(index: int, v: bytes, t: Thresholds) returns (ok: bool)
      requires Valid()
      modifies this, ql
      ensures Valid() && (ql == old(ql) || fresh(ql))
      ensures var s := old(Contents());
              var i := if index < 0 then index + |s| else index;
              ok == (0 <= i < |s|) && Contents() == if ok then s[i := v] else s
    {
      var n := Len();
      var i := if index < 0 then index + n else index;
      if i < 0 || i >= n {
        return false;
      }
      if ql != null {
        ok := ql.SetAt(i, v);
        return;
      }
      lp := Some(lp.value[i := v]);
      PromoteIfNeeded(t, |v|);
      return true;
    }

    /** Range. */
    method Range(start: int, stop: int) returns (out: Elems)
      requires Valid()
      ensures out == Between(Contents(), start, stop)
    {
      var n := Len();
      var r := ClampRange(start, stop, n);
      if r.None? {
        return [];
      }
      var (lo, hi) := r.value;
      out := [];
      var i := 0;
      while i < n && i <= hi
        invariant 0 <= i <= hi + 1
        invariant out == if i <= lo then [] else Contents()[lo..i]
      {
        if i >= lo {
          var e := Get(i);
          SliceGrows(Contents(), lo, i);
          out := out + [e];
        }
        i := i + 1;
      }
    }

    /** Insert: before or after the first occurrence of the pivot. */
    method Insert(pivot: bytes, v: bytes, before: bool, t: Thresholds) returns (n: int, ghost i: nat)
      requires Valid()
      modifies this, ql
      ensures Valid() && (ql == old(ql) || fresh(ql))
      ensures var s := old(Contents());
              if pivot !in s then n == -1 && Contents() == s
              else n == |s| + 1 && i < |s| && s[i] == pivot && pivot !in s[..i]
                   && Contents() == if before then s[..i] + [v] + s[i..] else s[..i + 1] + [v] + s[i + 1..]
    {
      var idx := Find(pivot);
      if idx < 0 {
        return -1, 0;
      }
      i := idx;
      var at := if before then idx else idx + 1;
      if ql != null {
        ql.InsertAt(at, v);
      } else {
        lp := Some(lp.value[..at] + [v] + lp.value[at..]);
        PromoteIfNeeded(t, |v|);
      }
      n := Len();
    }

    method Find(pivot: bytes) returns (idx: int)
      requires Valid()
      ensures -1 <= idx < |Contents()| && (idx == -1 <==> pivot !in Contents())
      ensures idx >= 0 ==> Contents()[idx] == pivot && pivot !in Contents()[..idx]
    {
      var n := Len();
      var i := 0;
      while i < n
        invariant 0 <= i <= n && pivot !in Contents()[..i]
      {
        var e := Get(i);
        if e == pivot {
          return i;
        }
        i := i + 1;
      }
      assert Contents()[..n] == Contents();
      return -1;
    }

    /** The places of v. */
    method FindAll(v: bytes) returns (ms: seq<nat>)
      requires Valid()
      ensures ms == Matches(Contents(), v)
    {
      ms := [];
      var n := Len();
      var i := 0;
      while i < n
        invariant 0 <= i <= n && ms == Matches(Contents()[..i], v)
      {
        assert Contents()[..i + 1][..i] == Contents()[..i];
        var e := Get(i);
        if e == v {
          ms := ms + [i];
        }
        i := i + 1;
      }
      assert Contents()[..n] == Contents();
    }

    method DeletePlaces(ms: seq<nat>)
      requires Valid() && Ascending(ms, |Contents()|)
      modifies this, ql
      ensures Valid() && ql == old(ql) && Contents() == DeleteAll(old(Contents()), ms)
    {
      var i := |ms|;
      assert ms[..i] == ms;
      while i > 0
        invariant 0 <= i <= |ms| && Valid() && ql == old(ql)
        invariant Ascending(ms[..i], |Contents()|) && DeleteAll(Contents(), ms[..i]) == DeleteAll(old(Contents()), ms)
      {
        i := i - 1;
        assert ms[..i + 1][..i] == ms[..i];
        DeleteAt(ms[i]);
      }
    }

    /** Remove. */
    method Remove(count: int, v: bytes) returns (removed: nat)
      requires Valid()
      modifies this, ql
      ensures Valid() && ql == old(ql) && Contents() == Removed(old(Contents()), count, v)
      ensures removed == |old(Contents())| - |Contents()|
    {
      ghost var s := Contents();
      var all := FindAll(v);
      var matches := Choose(all, count, s, v);
      DeletePlaces(matches);
      DeleteSize(s, matches);
      return |matches|;
    }

    /** Which of the places found are to go. */
    method Choose(all: seq<nat>, count: int, ghost s: Elems, ghost v: bytes) returns (some: seq<nat>)
      requires all == Matches(s, v)
      ensures Ascending(some, |s|) && DeleteAll(s, some) == Removed(s, count, v)
    {
      ghost var m := |all|;
      ghost var lo, hi := if count < 0 then m + count else 0, if count > 0 then count else m;
      DeleteStrips(s, v, lo, hi);
      some := all;
      if count > 0 && count < |all| {
        some := all[..count];
      } else if count < 0 && -count < |all| {
        some := all[|all| + count..];
      }
      assert some == Chosen(s, v, lo, hi);
    }

    /** Everything past an index is deleted, from the back. */
    method TrimBack(hi: nat)
      requires Valid() && hi < |Contents()|
      modifies this, ql
      ensures Valid() && ql == old(ql) && Contents() == old(Contents())[..hi + 1]
    {
      var n := Len();
      var i := n - 1;
      while i > hi
        invariant Valid() && ql == old(ql) && hi <= i < n && Contents() == old(Contents())[..i + 1]
      {
        DeleteAt(i);
        i := i - 1;
      }
    }

    /** Everything before an index is deleted, from the front. */
    method TrimFront(lo: nat)
      requires Valid() && lo <= |Contents()|
      modifies this, ql
      ensures Valid() && ql == old(ql) && Contents() == old(Contents())[lo..]
    {
      var k := 0;
      while k < lo
        invariant Valid() && ql == old(ql) && 0 <= k <= lo && Contents() == old(Contents())[k..]
      {
        DeleteAt(0);
        k := k + 1;
      }
    }

    /** Trim. */
    method Trim(start: int, stop: int)
      requires Valid()
      modifies this, ql
      ensures Valid() && Contents() == Between(old(Contents()), start, stop)
    {
      var n := Len();
      var r := ClampRange(start, stop, n);
      if r.None? {
        Clear();
        return;
      }
      TrimBack(r.value.1);
      TrimFront(r.value.0);
    }

    method Clear()
      requires Valid()
      modifies this, ql
      ensures Valid() && ql == old(ql) && Contents() == []
    {
      if ql != null {
        ql.nodes, ql.count := [], 0;
        return;
      }
      lp := Some([]);
    }
  }

  lemma {:induction false} DeleteSize(s: Elems, ms: seq<nat>)
    requires Ascending(ms, |s|)
    ensures |DeleteAll(s, ms)| + |ms| == |s|
    decreases |ms|
  {
    if ms != [] {
      DeleteSize(Without(s, ms[|ms| - 1]), ms[..|ms| - 1]);
    }
  }
}
