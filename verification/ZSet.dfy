/** Sorted sets (engine/zset.go): members with scores, ordered by score and then by
    member, in a flat sorted list while small and in a skiplist paired with a member
    map above the thresholds. */
module ZSet {
  import opened Options
  import opened Bytes
  import opened SkipShape
  import S = Skiplist

  /** A score: a float64 other than NaN. */
  datatype Score = NegInf | Finite(value: real) | PosInf

  datatype Key = Key(score: Score, member: bytes)

  predicate ScoreLess(a: Score, b: Score) {
    match (a, b)
    case (Finite(x), Finite(y)) => x < y
    case (NegInf, _) => b != NegInf
    case (_, PosInf) => a != PosInf
    case _ => false
  }

  /** bytes.Compare(a, b) < 0. */
  predicate BytesLess(a: bytes, b: bytes) {
    b != [] && (a == [] || a[0] < b[0] || (a[0] == b[0] && BytesLess(a[1..], b[1..])))
  }

  /** before, with the key given as a node's. */
  predicate Before(a: Key, b: Key) {
    if a.score != b.score then ScoreLess(a.score, b.score) else BytesLess(a.member, b.member)
  }

  lemma {:induction false} BytesTotal(a: bytes, b: bytes)
    ensures BytesLess(a, b) || BytesLess(b, a) || a == b
    ensures !(BytesLess(a, b) && BytesLess(b, a))
  {
    if a != [] && b != [] {
      BytesTotal(a[1..], b[1..]);
      assert a[1..] == b[1..] && a[0] == b[0] ==> a == b;
    }
  }

  lemma {:induction false} BytesTransitive(a: bytes, b: bytes, c: bytes)
    requires BytesLess(a, b) && BytesLess(b, c)
    ensures BytesLess(a, c)
  {
    if a != [] && a[0] == b[0] == c[0] {
      BytesTransitive(a[1..], b[1..], c[1..]);
    }
  }

  /** Scores compare as numbers, with the infinities at the ends. */
  lemma ScoreLessIs(a: Score, b: Score)
    ensures a.Finite? && b.Finite? ==> (ScoreLess(a, b) <==> a.value < b.value)
    ensures a == NegInf ==> (ScoreLess(a, b) <==> b != NegInf)
    ensures b == PosInf ==> (ScoreLess(a, b) <==> a != PosInf)
    ensures a == PosInf || b == NegInf ==> !ScoreLess(a, b)
  {
  }

  /** The first place where the two differ, or where one of them ends. */
  ghost predicate DifferAt(a: bytes, b: bytes, n: nat) {
    n <= |a| && n <= |b| && a[..n] == b[..n] && (n < |a| && n < |b| ==> a[n] != b[n])
  }

  /** Members compare at the first byte in which they differ; a prefix comes first. */
  lemma {:induction false} BytesLessIs(a: bytes, b: bytes, n: nat)
    requires DifferAt(a, b, n)
    ensures BytesLess(a, b) <==> (n == |a| && n < |b|) || (n < |a| && n < |b| && a[n] < b[n])
  {
    if n > 0 {
      var m := n - 1;
      assert a[0] == a[..n][0] && b[0] == b[..n][0];
      assert a[1..][..m] == a[..n][1..] && b[1..][..m] == b[..n][1..];
      BytesLessIs(a[1..], b[1..], m);
    }
  }

  lemma {:induction false} DifferSomewhere(a: bytes, b: bytes) returns (n: nat)
    ensures DifferAt(a, b, n)
  {
    n := 0;
    if a != [] && b != [] && a[0] == b[0] {
      var m := DifferSomewhere(a[1..], b[1..]);
      n := m + 1;
      assert a[..n] == [a[0]] + a[1..][..m] && b[..n] == [b[0]] + b[1..][..m];
    }
  }

  /** A key is before another if its score is lower, or the scores are equal and its member
      comes first, byte by byte. */
  lemma BeforeIs(a: Key, b: Key) returns (n: nat)
    ensures DifferAt(a.member, b.member, n)
    ensures Before(a, b) <==>
              || ScoreLess(a.score, b.score)
              || (a.score == b.score && n < |b.member| && (n == |a.member| || a.member[n] < b.member[n]))
  {
    n := DifferSomewhere(a.member, b.member);
    BytesLessIs(a.member, b.member, n);
  }

  /** The order of sorted sets is one. */
  lemma BeforeTotal()
    ensures S.TotalOrder(Before)
  {
    forall a: Key ensures !Before(a, a) {
      BytesTotal(a.member, a.member);
    }
    forall a: Key, b: Key ensures a == b || Before(a, b) || Before(b, a) {
      BytesTotal(a.member, b.member);
    }
    forall a: Key, b: Key, c: Key | Before(a, b) && Before(b, c) ensures Before(a, c) {
      BeforeTransitive(a, b, c);
    }
  }

  lemma BeforeTransitive(a: Key, b: Key, c: Key)
    requires Before(a, b) && Before(b, c)
    ensures Before(a, c)
  {
    if a.score == b.score == c.score {
      BytesTransitive(a.member, b.member, c.member);
    }
  }

  // ------------------------------------------------------------- keys and their map

  /** A list of keys is the contents of a map from members to scores. */
  ghost predicate Agrees(keys: seq<Key>, m: map<bytes, Score>) {
    && (forall i | 0 <= i < |keys| :: keys[i].member in m && m[keys[i].member] == keys[i].score)
    && (forall i, j | 0 <= i < j < |keys| :: keys[i].member != keys[j].member)
    && (forall x | x in m :: Key(m[x], x) in keys)
  }

  function Added(keys: seq<Key>, r: nat, key: Key): seq<Key>
    requires r <= |keys|
  {
    keys[..r] + [key] + keys[r..]
  }

  lemma AgreesAdded(keys: seq<Key>, m: map<bytes, Score>, r: nat, key: Key)
    requires Agrees(keys, m) && r <= |keys| && key.member !in m
    ensures Agrees(Added(keys, r, key), m[key.member := key.score])
  {
    var ks, n := Added(keys, r, key), m[key.member := key.score];
    forall x | x in n ensures Key(n[x], x) in ks {
      if x == key.member {
        assert ks[r] == key;
      } else {
        assert Key(m[x], x) in keys;
        var i :| 0 <= i < |keys| && keys[i] == Key(m[x], x);
        assert ks[if i < r then i else i + 1] == keys[i];
      }
    }
  }

  lemma RemovedAt(keys: seq<Key>, r: nat, i: nat)
    requires r < |keys| && i < |keys| && i != r
    ensures keys[i] in Removed(keys, r)
  {
    assert Removed(keys, r)[if i < r then i else i - 1] == keys[i];
  }

  lemma AgreesRemoved(keys: seq<Key>, m: map<bytes, Score>, r: nat)
    requires Agrees(keys, m) && r < |keys|
    ensures Agrees(Removed(keys, r), m - {keys[r].member})
  {
    var ks, n := Removed(keys, r), m - {keys[r].member};
    forall i | 0 <= i < |ks| ensures ks[i].member in n && n[ks[i].member] == ks[i].score {
      assert ks[i] == keys[if i < r then i else i + 1];
    }
    forall i, j | 0 <= i < j < |ks| ensures ks[i].member != ks[j].member {
      assert ks[i] == keys[if i < r then i else i + 1] && ks[j] == keys[if j < r then j else j + 1];
    }
    forall x | x in n ensures Key(n[x], x) in ks {
      var i :| 0 <= i < |keys| && keys[i] == Key(m[x], x);
      RemovedAt(keys, r, i);
    }
  }

  lemma Absent(keys: seq<Key>, m: map<bytes, Score>, member: bytes)
    requires Agrees(keys, m) && forall i | 0 <= i < |keys| :: keys[i].member != member
    ensures member !in m
  {
  }

  lemma {:induction false} AgreesSize(keys: seq<Key>, m: map<bytes, Score>)
    requires Agrees(keys, m)
    ensures |m| == |keys|
  {
    if keys == [] {
      assert m == map[];
    } else {
      var n := |keys| - 1;
      AgreesRemoved(keys, m, n);
      AgreesSize(Removed(keys, n), m - {keys[n].member});
      assert m == (m - {keys[n].member})[keys[n].member := keys[n].score];
    }
  }

  lemma BeforeAsymmetric(a: Key, b: Key)
    ensures !(Before(a, b) && Before(b, a))
  {
    BytesTotal(a.member, b.member);
  }

  lemma RestAgrees(a: seq<Key>, m: map<bytes, Score>)
    requires Agrees(a, m) && S.Sorted(Before, a) && a != []
    ensures Agrees(a[1..], m - {a[0].member}) && S.Sorted(Before, a[1..])
  {
    assert Removed(a, 0) == a[1..];
    AgreesRemoved(a, m, 0);
    S.SortedRemoved(Before, a, 0);
  }

  lemma SameFirst(a: seq<Key>, b: seq<Key>, m: map<bytes, Score>)
    requires Agrees(a, m) && Agrees(b, m) && S.Sorted(Before, a) && S.Sorted(Before, b) && a != [] && b != []
    ensures a[0] == b[0]
  {
    assert Key(m[a[0].member], a[0].member) in b && Key(m[b[0].member], b[0].member) in a;
    var i :| 0 <= i < |b| && b[i] == a[0];
    var j :| 0 <= j < |a| && a[j] == b[0];
    BeforeAsymmetric(a[0], b[0]);
  }

  ghost predicate Lists(keys: seq<Key>, m: map<bytes, Score>) {
    Agrees(keys, m) && S.Sorted(Before, keys)
  }

  lemma Peel(a: seq<Key>, b: seq<Key>, m: map<bytes, Score>) returns (rest: map<bytes, Score>)
    requires Lists(a, m) && Lists(b, m) && a != [] && b != []
    ensures a[0] == b[0] && Lists(a[1..], rest) && Lists(b[1..], rest)
  {
    SameFirst(a, b, m);
    RestAgrees(a, m);
    RestAgrees(b, m);
    rest := m - {a[0].member};
  }

  lemma Glue(a: seq<Key>, b: seq<Key>)
    requires a != [] && b != [] && a[0] == b[0] && a[1..] == b[1..]
    ensures a == b
  {
    assert a == [a[0]] + a[1..] && b == [b[0]] + b[1..];
  }

  /** The two encodings cannot differ: the sorted keys of a map are determined by it,
      so a rank computed from either is the same. */
  lemma {:induction false} OneOrder(a: seq<Key>, b: seq<Key>, m: map<bytes, Score>)
    requires Lists(a, m) && Lists(b, m)
    ensures a == b
  {
    if a == [] || b == [] {
      AgreesSize(a, m);
      AgreesSize(b, m);
    } else {
      var rest := Peel(a, b, m);
      OneOrder(a[1..], b[1..], rest);
      Glue(a, b);
    }
  }

  // ------------------------------------------------------------------ the flat form

  /** The listpack form: member and rendered score, alternately. */
  ghost predicate Flat(lp: seq<bytes>, parse: bytes -> Score, keys: seq<Key>) {
    |lp| == 2 * |keys| && forall i | 0 <= i < |keys| :: lp[2 * i] == keys[i].member && parse(lp[2 * i + 1]) == keys[i].score
  }

  /** lpFind, over IndexOfStep. */
  method LpFind(lp: seq<bytes>, parse: bytes -> Score, member: bytes, ghost keys: seq<Key>) returns (at: int)
    requires Flat(lp, parse, keys)
    ensures -1 <= at < |keys|
    ensures at == -1 ==> forall i | 0 <= i < |keys| :: keys[i].member != member
    ensures at >= 0 ==> keys[at].member == member
  {
    var i := 0;
    while 2 * i < |lp|
      invariant 0 <= i <= |keys|
      invariant forall j | 0 <= j < i :: keys[j].member != member
    {
      if lp[2 * i] == member {
        return i;
      }
      i := i + 1;
    }
    return -1;
  }

  /** lpSearch's test: the element is not before the key sought. */
  predicate AtOrAfter(k: Key, key: Key) {
    if k.score != key.score then ScoreLess(key.score, k.score) else !BytesLess(k.member, key.member)
  }

  lemma AtOrAfterIs(k: Key, key: Key)
    ensures AtOrAfter(k, key) <==> !Before(k, key)
  {
  }

  ghost predicate Splits(keys: seq<Key>, key: Key, at: nat) {
    at <= |keys| && forall p | 0 <= p < |keys| :: Before(keys[p], key) <==> p < at
  }

  /** lpSearch: sort.Search's bisection for where a key belongs. */
  method LpSearch(lp: seq<bytes>, parse: bytes -> Score, key: Key, ghost keys: seq<Key>) returns (at: nat)
    requires Flat(lp, parse, keys) && S.Sorted(Before, keys)
    ensures Splits(keys, key, at)
  {
    var lo, hi := 0, |lp| / 2;
    while lo < hi
      invariant 0 <= lo <= hi <= |keys|
      invariant forall p | 0 <= p < lo :: Before(keys[p], key)
      invariant forall p | hi <= p < |keys| :: !Before(keys[p], key)
    {
      var mid := (lo + hi) / 2;
      var k := Key(parse(lp[2 * mid + 1]), lp[2 * mid]);
      assert k == keys[mid];
      AtOrAfterIs(k, key);
      BelowAll(keys, key, mid);
      if !AtOrAfter(k, key) {
        lo := mid + 1;
      } else {
        hi := mid;
      }
    }
    at := lo;
  }

  lemma BelowAll(keys: seq<Key>, key: Key, mid: nat)
    requires S.Sorted(Before, keys) && mid < |keys|
    ensures Before(keys[mid], key) ==> forall p | 0 <= p <= mid :: Before(keys[p], key)
    ensures !Before(keys[mid], key) ==> forall p | mid <= p < |keys| :: !Before(keys[p], key)
  {
    forall p | 0 <= p < mid && Before(keys[mid], key) ensures Before(keys[p], key) {
      BeforeTransitive(keys[p], keys[mid], key);
    }
    forall p | mid < p < |keys| && Before(keys[p], key) ensures Before(keys[mid], key) {
      BeforeTransitive(keys[mid], keys[p], key);
    }
  }

  /** Two entries enter at an even place. */
  lemma FlatAdded(lp: seq<bytes>, parse: bytes -> Score, keys: seq<Key>, at: nat, key: Key, text: bytes)
    requires Flat(lp, parse, keys) && at <= |keys| && parse(text) == key.score
    ensures Flat(lp[..2 * at] + [key.member, text] + lp[2 * at..], parse, Added(keys, at, key))
  {
    var l, ks := lp[..2 * at] + [key.member, text] + lp[2 * at..], Added(keys, at, key);
    forall i | 0 <= i < |ks| ensures l[2 * i] == ks[i].member && parse(l[2 * i + 1]) == ks[i].score {
      if i > at {
        assert l[2 * i] == lp[2 * (i - 1)] && l[2 * i + 1] == lp[2 * (i - 1) + 1] && ks[i] == keys[i - 1];
      }
    }
  }

  lemma FlatRemoved(lp: seq<bytes>, parse: bytes -> Score, keys: seq<Key>, at: nat)
    requires Flat(lp, parse, keys) && at < |keys|
    ensures Flat(lp[..2 * at] + lp[2 * at + 2..], parse, Removed(keys, at))
  {
    var l, ks := lp[..2 * at] + lp[2 * at + 2..], Removed(keys, at);
    forall i | 0 <= i < |ks| ensures l[2 * i] == ks[i].member && parse(l[2 * i + 1]) == ks[i].score {
      if i >= at {
        assert l[2 * i] == lp[2 * (i + 1)] && l[2 * i + 1] == lp[2 * (i + 1) + 1] && ks[i] == keys[i + 1];
      }
    }
  }

  lemma SortedAdded(keys: seq<Key>, key: Key, at: nat)
    requires S.Sorted(Before, keys) && Splits(keys, key, at) && key !in keys
    ensures S.Sorted(Before, Added(keys, at, key))
  {
    BeforeTotal();
    S.SortedSplice(Before, keys, key, at);
  }

  /** lpInsert. */
  method LpInsert(lp: seq<bytes>, parse: bytes -> Score, render: Score -> bytes, key: Key, ghost keys: seq<Key>)
    returns (out: seq<bytes>, ghost at: nat)
    requires Flat(lp, parse, keys) && S.Sorted(Before, keys) && key !in keys && parse(render(key.score)) == key.score
    ensures at <= |keys| && Flat(out, parse, Added(keys, at, key)) && S.Sorted(Before, Added(keys, at, key))
  {
    var place := LpSearch(lp, parse, key, keys);
    at := place;
    out := lp[..2 * place] + [key.member] + lp[2 * place..];
    out := out[..2 * place + 1] + [render(key.score)] + out[2 * place + 1..];
    assert out == lp[..2 * place] + [key.member, render(key.score)] + lp[2 * place..];
    FlatAdded(lp, parse, keys, at, key, render(key.score));
    SortedAdded(keys, key, at);
  }

  // --------------------------------------------------------------------- the object

  datatype Thresholds = Thresholds(maxEntries: int, maxValue: int)

  ghost predicate RoundTrip(render: Score -> bytes, parse: bytes -> Score) {
    forall x :: parse(render(x)) == x
  }

  /** The skiplist form holds a map. */
  ghost predicate Holds(sl: S.Skiplist<Key>, m: map<bytes, Score>)
    reads sl, sl.repr
  {
    sl.Valid() && sl.less == Before && Agrees(sl.keys, m)
  }

  /** Delete of a key that is there. */
  method DeleteKey(sl: S.Skiplist<Key>, key: Key, ghost m: map<bytes, Score>)
    requires Holds(sl, m) && key in sl.keys
    modifies sl, sl.repr
    ensures Holds(sl, m - {key.member}) && sl.repr == old(sl.repr)
  {
    ghost var keys := sl.keys;
    BeforeTotal();
    var ok := sl.Delete(key);
    ghost var q :| 0 <= q < |keys| && keys[q] == key && sl.keys == Removed(keys, q);
    AgreesRemoved(keys, m, q);
  }

  /** Insert of a member that is not there. */
  method InsertKey(sl: S.Skiplist<Key>, key: Key, height: nat, ghost m: map<bytes, Score>)
    requires Holds(sl, m) && key.member !in m && 1 <= height <= S.MaxLevel
    modifies sl, sl.repr
    ensures Holds(sl, m[key.member := key.score]) && fresh(sl.repr - old(sl.repr))
  {
    ghost var keys := sl.keys;
    BeforeTotal();
    ghost var r;
    var node;
    node, r := sl.Insert(key, height);
    AgreesAdded(keys, m, r, key);
  }

  method RankKey(sl: S.Skiplist<Key>, key: Key) returns (rank: nat)
    requires sl.Valid() && sl.less == Before && key in sl.keys
    ensures 0 < rank <= |sl.keys| && sl.keys[rank - 1] == key
  {
    BeforeTotal();
    rank := sl.Rank(key);
  }

  /** A sorted set in one of its two encodings.  `parse` reads a rendered score. */
  datatype ZSet =
    | Packed(lp: seq<bytes>)
    | Indexed(sl: S.Skiplist<Key>, m: map<bytes, Score>)

  function Unflat(lp: seq<bytes>, parse: bytes -> Score): seq<Key> {
    seq(|lp| / 2, i requires 0 <= i < |lp| / 2 => Key(parse(lp[2 * i + 1]), lp[2 * i]))
  }

  /** The members in order. */
  ghost function Keys(z: ZSet, parse: bytes -> Score): seq<Key>
    reads if z.Indexed? then {z.sl} else {}
  {
    if z.Packed? then Unflat(z.lp, parse) else z.sl.keys
  }

  ghost predicate FlatHolds(lp: seq<bytes>, parse: bytes -> Score, c: map<bytes, Score>) {
    |lp| % 2 == 0 && Agrees(Unflat(lp, parse), c) && S.Sorted(Before, Unflat(lp, parse))
  }

  /** A set stands for a map, whichever its encoding. */
  ghost predicate Is(z: ZSet, parse: bytes -> Score, c: map<bytes, Score>)
    reads if z.Indexed? then {z.sl} else {}
    reads if z.Indexed? then z.sl.repr else {}
  {
    if z.Packed? then FlatHolds(z.lp, parse, c) else z.m == c && Holds(z.sl, c)
  }

  /** Score. */
  method ScoreOf(z: ZSet, parse: bytes -> Score, member: bytes, ghost c: map<bytes, Score>) returns (score: Option<Score>)
    requires Is(z, parse, c)
    ensures score == if member in c then Some(c[member]) else None
  {
    if z.Indexed? {
      return if member in z.m then Some(z.m[member]) else None;
    }
    var i := LpFind(z.lp, parse, member, Unflat(z.lp, parse));
    if i < 0 {
      Absent(Unflat(z.lp, parse), c, member);
      return None;
    }
    return Some(parse(z.lp[2 * i + 1]));
  }

  /** Rank before the direction is applied. */
  method Position(z: ZSet, parse: bytes -> Score, member: bytes, ghost c: map<bytes, Score>, ghost keys: seq<Key>)
    returns (at: int)
    requires Is(z, parse, c) && keys == Keys(z, parse)
    ensures at == -1 ==> member !in c
    ensures at != -1 ==> member in c && 0 <= at < |keys| && keys[at] == Key(c[member], member)
  {
    if z.Indexed? {
      if member !in z.m {
        return -1;
      }
      assert Key(c[member], member) in z.sl.keys;
      at := RankKey(z.sl, Key(z.m[member], member));
      return at - 1;
    }
    at := LpFind(z.lp, parse, member, Unflat(z.lp, parse));
    if at < 0 {
      Absent(Unflat(z.lp, parse), c, member);
    }
  }

  lemma SizeIs(z: ZSet, parse: bytes -> Score, c: map<bytes, Score>)
    requires Is(z, parse, c)
    ensures |Keys(z, parse)| == |c| == if z.Packed? then |z.lp| / 2 else |z.m|
  {
    AgreesSize(Keys(z, parse), c);
  }

  /** Rank: the zero-based position in order, from either end. */
  method Rank(z: ZSet, parse: bytes -> Score, member: bytes, reverse: bool, ghost c: map<bytes, Score>)
    returns (rank: Option<int>)
    requires Is(z, parse, c)
    ensures rank.Some? == (member in c)
    ensures rank.Some? ==>
              var at := if reverse then |c| - 1 - rank.value else rank.value;
              0 <= at < |Keys(z, parse)| && Keys(z, parse)[at] == Key(c[member], member)
  {
    SizeIs(z, parse, c);
    ghost var keys := Keys(z, parse);
    var n := if z.Packed? then |z.lp| / 2 else |z.m|;
    var at := Position(z, parse, member, c, keys);
    if at < 0 {
      return None;
    }
    assert Keys(z, parse) == keys;
    return Some(if reverse then n - 1 - at else at);
  }

  lemma UnflatIs(lp: seq<bytes>, parse: bytes -> Score, keys: seq<Key>)
    requires Flat(lp, parse, keys)
    ensures Unflat(lp, parse) == keys
  {
  }

  lemma UnflatRemoved(lp: seq<bytes>, parse: bytes -> Score, i: nat)
    requires |lp| % 2 == 0 && 2 * i < |lp|
    ensures Unflat(lp[..2 * i] + lp[2 * i + 2..], parse) == Removed(Unflat(lp, parse), i)
  {
    FlatRemoved(lp, parse, Unflat(lp, parse), i);
    UnflatIs(lp[..2 * i] + lp[2 * i + 2..], parse, Removed(Unflat(lp, parse), i));
  }

  method RemoveFlat(lp: seq<bytes>, parse: bytes -> Score, i: nat, ghost c: map<bytes, Score>) returns (out: seq<bytes>)
    requires FlatHolds(lp, parse, c) && 2 * i < |lp|
    ensures FlatHolds(out, parse, c - {lp[2 * i]})
  {
    out := lp[..2 * i] + lp[2 * i + 2..];
    UnflatRemoved(lp, parse, i);
    AgreesRemoved(Unflat(lp, parse), c, i);
    S.SortedRemoved(Before, Unflat(lp, parse), i);
  }

  /** Remove. */
  method Remove(z: ZSet, parse: bytes -> Score, member: bytes, ghost c: map<bytes, Score>) returns (after: ZSet, present: bool)
    requires Is(z, parse, c)
    modifies if z.Indexed? then {z.sl} else {}
    modifies if z.Indexed? then z.sl.repr else {}
    ensures Is(after, parse, c - {member}) && present == (member in c)
  {
    if z.Indexed? {
      if member !in z.m {
        assert c - {member} == c;
        return z, false;
      }
      assert Key(c[member], member) in z.sl.keys;
      DeleteKey(z.sl, Key(z.m[member], member), c);
      return Indexed(z.sl, z.m - {member}), true;
    }
    var i := LpFind(z.lp, parse, member, Unflat(z.lp, parse));
    if i < 0 {
      Absent(Unflat(z.lp, parse), c, member);
      assert c - {member} == c;
      return z, false;
    }
    var out := RemoveFlat(z.lp, parse, i, c);
    return Packed(out), true;
  }

  method InsertFlat(lp: seq<bytes>, parse: bytes -> Score, render: Score -> bytes, key: Key, ghost c: map<bytes, Score>)
    returns (out: seq<bytes>)
    requires FlatHolds(lp, parse, c) && key.member !in c && parse(render(key.score)) == key.score
    ensures FlatHolds(out, parse, c[key.member := key.score])
  {
    ghost var at;
    out, at := LpInsert(lp, parse, render, key, Unflat(lp, parse));
    UnflatIs(out, parse, Added(Unflat(lp, parse), at, key));
    AgreesAdded(Unflat(lp, parse), c, at, key);
  }

  lemma SameMap(keys: seq<Key>, m: map<bytes, Score>, c: map<bytes, Score>)
    requires Agrees(keys, m) && Agrees(keys, c)
    ensures m == c
  {
    forall x | x in m ensures x in c && c[x] == m[x] {
      assert Key(m[x], x) in keys;
    }
    forall x | x in c ensures x in m {
      assert Key(c[x], x) in keys;
    }
  }

  lemma PrefixMember(keys: seq<Key>, m: map<bytes, Score>, c: map<bytes, Score>, i: nat)
    requires Agrees(keys, c) && i < |keys| && Agrees(keys[..i], m)
    ensures keys[i].member !in m && Agrees(keys[..i + 1], m[keys[i].member := keys[i].score])
  {
    Absent(keys[..i], m, keys[i].member);
    AgreesAdded(keys[..i], m, i, keys[i]);
    assert Added(keys[..i], i, keys[i]) == keys[..i + 1];
  }

  /** One pair moves into the skiplist form. */
  method Move(sl: S.Skiplist<Key>, m: map<bytes, Score>, key: Key, height: nat, ghost keys: seq<Key>, ghost i: nat,
              ghost c: map<bytes, Score>) returns (after: map<bytes, Score>)
    requires Holds(sl, m) && 1 <= height <= S.MaxLevel && Agrees(keys, c) && i < |keys| && Agrees(keys[..i], m) && key == keys[i]
    modifies sl, sl.repr
    ensures Holds(sl, after) && Agrees(keys[..i + 1], after) && fresh(sl.repr - old(sl.repr))
  {
    PrefixMember(keys, m, c, i);
    InsertKey(sl, key, height, m);
    after := m[key.member := key.score];
  }

  /** Every pair of the flat form enters a new skiplist and its map, at whatever
      heights are drawn. */
  method MoveAll(lp: seq<bytes>, parse: bytes -> Score, draw: nat -> nat, ghost keys: seq<Key>, ghost c: map<bytes, Score>)
    returns (sl: S.Skiplist<Key>, m: map<bytes, Score>)
    requires Flat(lp, parse, keys) && Agrees(keys, c) && forall n :: 1 <= draw(n) <= S.MaxLevel
    ensures fresh(sl) && fresh(sl.repr) && Agrees(keys, m) && Holds(sl, m)
  {
    sl := new S.Skiplist(Before);
    m := map[];
    var i := 0;
    while i < |lp| / 2
      invariant 0 <= i <= |keys| && fresh(sl) && fresh(sl.repr)
      invariant Agrees(keys[..i], m) && Holds(sl, m)
    {
      m := Move(sl, m, Key(parse(lp[2 * i + 1]), lp[2 * i]), draw(i), keys, i, c);
      i := i + 1;
    }
    assert keys[..i] == keys;
  }

  /** Promotion to the skiplist form. */
  method Promote(lp: seq<bytes>, parse: bytes -> Score, draw: nat -> nat, ghost c: map<bytes, Score>) returns (z: ZSet)
    requires FlatHolds(lp, parse, c) && forall n :: 1 <= draw(n) <= S.MaxLevel
    ensures z.Indexed? && fresh(z.sl) && fresh(z.sl.repr) && Is(z, parse, c)
  {
    ghost var keys := Unflat(lp, parse);
    var sl, m := MoveAll(lp, parse, draw, keys, c);
    SameMap(keys, m, c);
    z := Indexed(sl, m);
  }

  /** A member moves to a new score. */
  method Rescore(sl: S.Skiplist<Key>, was: Key, key: Key, height: nat, ghost m: map<bytes, Score>)
    requires Holds(sl, m) && 1 <= height <= S.MaxLevel && key.member == was.member && was in sl.keys
    modifies sl, sl.repr
    ensures Holds(sl, m[key.member := key.score]) && fresh(sl.repr - old(sl.repr))
  {
    ghost var rest := m - {key.member};
    assert rest[key.member := key.score] == m[key.member := key.score];
    DeleteKey(sl, was, m);
    InsertKey(sl, key, height, rest);
  }

  /** Add to the skiplist form. */
  method AddIndexed(sl: S.Skiplist<Key>, m: map<bytes, Score>, key: Key, height: nat) returns (after: map<bytes, Score>)
    requires Holds(sl, m) && 1 <= height <= S.MaxLevel
    modifies sl, sl.repr
    ensures after == m[key.member := key.score] && Holds(sl, after) && fresh(sl.repr - old(sl.repr))
  {
    after := m[key.member := key.score];
    if key.member !in m {
      InsertKey(sl, key, height, m);
    } else if m[key.member] != key.score {
      assert Key(m[key.member], key.member) in sl.keys;
      Rescore(sl, Key(m[key.member], key.member), key, height, m);
    } else {
      assert after == m;
    }
  }

  /** A member of the flat form moves to a new score: out, and in again. */
  method RescoreFlat(lp: seq<bytes>, parse: bytes -> Score, render: Score -> bytes, i: nat, key: Key, ghost c: map<bytes, Score>)
    returns (out: seq<bytes>)
    requires FlatHolds(lp, parse, c) && 2 * i < |lp| && lp[2 * i] == key.member && parse(render(key.score)) == key.score
    ensures FlatHolds(out, parse, c[key.member := key.score])
  {
    out := RemoveFlat(lp, parse, i, c);
    out := InsertFlat(out, parse, render, key, c - {key.member});
    assert (c - {key.member})[key.member := key.score] == c[key.member := key.score];
  }

  /** Add to the flat form. */
  method AddPacked(lp: seq<bytes>, parse: bytes -> Score, render: Score -> bytes, key: Key, ghost c: map<bytes, Score>)
    returns (out: seq<bytes>, isNew: bool)
    requires FlatHolds(lp, parse, c) && parse(render(key.score)) == key.score
    ensures FlatHolds(out, parse, c[key.member := key.score]) && isNew == (key.member !in c)
  {
    var i := LpFind(lp, parse, key.member, Unflat(lp, parse));
    if i >= 0 {
      if parse(lp[2 * i + 1]) == key.score {
        assert c[key.member := key.score] == c;
        return lp, false;
      }
      out := RescoreFlat(lp, parse, render, i, key, c);
      return out, false;
    }
    Absent(Unflat(lp, parse), c, key.member);
    out := InsertFlat(lp, parse, render, key, c);
    return out, true;
  }

  /** Add: insert or re-score a member, promoting a flat form that has outgrown its
      thresholds. */
  method Add(z: ZSet, parse: bytes -> Score, render: Score -> bytes, member: bytes, score: Score, t: Thresholds,
             draw: nat -> nat, ghost c: map<bytes, Score>) returns (after: ZSet, isNew: bool)
    requires Is(z, parse, c) && parse(render(score)) == score && forall n :: 1 <= draw(n) <= S.MaxLevel
    modifies if z.Indexed? then {z.sl} else {}
    modifies if z.Indexed? then z.sl.repr else {}
    ensures Is(after, parse, c[member := score]) && isNew == (member !in c)
    ensures after.Packed? <==> z.Packed? && (isNew ==> |c| + 1 <= t.maxEntries && |member| <= t.maxValue)
  {
    if z.Indexed? {
      isNew := member !in z.m;
      var m := AddIndexed(z.sl, z.m, Key(score, member), draw(0));
      return Indexed(z.sl, m), isNew;
    }
    var out;
    out, isNew := AddPacked(z.lp, parse, render, Key(score, member), c);
    SizeIs(Packed(out), parse, c[member := score]);
    if isNew && !(|out| / 2 <= t.maxEntries && |member| <= t.maxValue) {
      after := Promote(out, parse, draw, c[member := score]);
      return;
    }
    return Packed(out), isNew;
  }
}
