/** The SCAN cursor over a dict that may grow, shrink and rehash between calls
    (engine/dict.go scan), and over all the shards of a database (engine/generic.go
    Scan). */
module DictScan {
  import opened Arith
  import opened HashTable
  import opened TableOps
  import opened ScanOrder
  import D = Dict

  /** Base-two logarithm of a table size; the program carries mask = size - 1. */
  function Log2(n: nat): nat {
    if n <= 1 then 0 else 1 + Log2(n / 2)
  }

  lemma {:induction false} LogPow(k: nat)
    ensures Log2(Pow2(k)) == k
  {
    if k > 0 {
      LogPow(k - 1);
      assert Pow2(k) / 2 == Pow2(k - 1);
    }
  }

  /** What one scan call promises: it emits only entries of the dict, it emits every
      entry whose hash lies between the two cursors, and unless it has finished the
      cursor moves on. */
  ghost predicate Scanned<K(!new), V>(w: nat, hashOf: K -> nat, m: map<K, V>, cursor: nat, next: nat, out: seq<(K, V)>) {
    && (forall p | p in out :: p.0 in m && m[p.0] == p.1)
    && (forall k | k in m && Between(w, cursor, next, hashOf(k)) :: (k, m[k]) in out)
    && (next != 0 ==> Place(w, cursor) < Place(w, next))
  }

  /** scan while no rehash runs: one bucket. */
  method ScanOne<K(==,!new), V(!new)>(w: nat, t: Table<K, V>, cursor: nat, ghost k: nat) returns (next: nat, out: seq<(K, V)>)
    requires t.Valid() && |t.heads| == Pow2(k) && k <= w
    ensures Scanned(w, t.hashOf, t.contents, cursor, next, out) && next < Pow2(k)
  {
    LogPow(k);
    LowBound(k, cursor);
    out := t.Visit(Low(Log2(|t.heads|), cursor));
    next := NextCursor(w, cursor, Log2(|t.heads|));
    OneBucket(w, k, cursor, 0);
    forall key | key in t.contents && Between(w, cursor, next, t.hashOf(key)) ensures (key, t.contents[key]) in out {
      OneBucket(w, k, cursor, t.hashOf(key));
      LowIsMod(k, t.hashOf(key));
    }
  }

  /** One bucket of a table of 2^b: its entries are those whose place among 2^b is
      the cursor's. */
  method VisitPlace<K(==,!new), V(!new)>(table: Table<K, V>, cursor: nat, ghost b: nat) returns (out: seq<(K, V)>)
    requires table.Valid() && |table.heads| == Pow2(b)
    ensures forall p | p in out :: p.0 in table.contents && table.contents[p.0] == p.1
    ensures forall k | k in table.contents && Rev(b, table.hashOf(k)) == Rev(b, cursor) :: (k, table.contents[k]) in out
  {
    LogPow(b);
    LowBound(b, cursor);
    out := table.Visit(Low(Log2(|table.heads|), cursor));
    forall k | k in table.contents && Rev(b, table.hashOf(k)) == Rev(b, cursor) ensures (k, table.contents[k]) in out {
      RevInjective(b, table.hashOf(k), cursor);
      LowIsMod(b, table.hashOf(k));
    }
  }

  /** The next bucket of the large table, and whether it still belongs to the run. */
  method NextInRun(w: nat, cursor: nat, a: nat, b: nat, ghost start: nat, ghost t: nat) returns (next: nat, more: bool)
    requires a <= b <= w && Rev(b, start) <= t < RunEnd(a, b, start) && Rev(b, cursor) == t
    ensures more ==> t + 1 < RunEnd(a, b, start) && Rev(b, next) == t + 1
    ensures !more ==> t + 1 == RunEnd(a, b, start) && next == RunStop(a, b, start)
  {
    RunStep(w, a, b, start, t, cursor);
    next := NextCursor(w, cursor, b);
    more := Low(b - a, High(a, next)) != 0;
  }

  /** The inner loop of scan during a rehash: the buckets of the large table that the
      small table's bucket expands into, from the cursor to the end of the run. */
  method ScanRun<K(==,!new), V(!new)>(w: nat, large: Table<K, V>, small: nat, start: nat, ghost a: nat, ghost b: nat)
    returns (cursor: nat, out: seq<(K, V)>)
    requires large.Valid() && |large.heads| == Pow2(b) && small == Pow2(a) && a <= b <= w
    ensures cursor == RunStop(a, b, start)
    ensures forall p | p in out :: p.0 in large.contents && large.contents[p.0] == p.1
    ensures forall k | k in large.contents && Rev(b, start) <= Rev(b, large.hashOf(k)) < RunEnd(a, b, start) ::
              (k, large.contents[k]) in out
  {
    ghost var t0, end := Rev(b, start), RunEnd(a, b, start);
    RunEndBound(a, b, start);
    LogPow(a);
    LogPow(b);
    var sa, sb := Log2(small), Log2(|large.heads|);
    ghost var t := t0;
    cursor, out := start, [];
    var more := true;
    while more
      invariant t0 <= t <= end
      invariant more ==> t < end && Rev(b, cursor) == t
      invariant !more ==> t == end && cursor == RunStop(a, b, start)
      invariant forall p | p in out :: p.0 in large.contents && large.contents[p.0] == p.1
      invariant forall k | k in large.contents && t0 <= Rev(b, large.hashOf(k)) < t :: (k, large.contents[k]) in out
      decreases end - t, more
    {
      var got := VisitPlace(large, cursor, b);
      out := out + got;
      cursor, more := NextInRun(w, cursor, sa, sb, start, t);
      t := t + 1;
    }
  }

  /** scan during a rehash: the smaller table's bucket once, then the run of the
      larger table's buckets it expands into. */
  method ScanTwo<K(==,!new), V(!new)>(w: nat, small: Table<K, V>, large: Table<K, V>, cursor: nat, ghost a: nat, ghost b: nat)
    returns (next: nat, out: seq<(K, V)>)
    requires small.Valid() && large.Valid() && small.hashOf == large.hashOf
    requires |small.heads| == Pow2(a) && |large.heads| == Pow2(b) && a <= b <= w
    requires small.contents.Keys !! large.contents.Keys
    ensures Scanned(w, small.hashOf, small.contents + large.contents, cursor, next, out) && next < Pow2(b)
  {
    ghost var m, hashOf := small.contents + large.contents, small.hashOf;
    var first := VisitPlace(small, cursor, a);
    var rest;
    next, rest := ScanRun(w, large, |small.heads|, cursor, a, b);
    out := first + rest;
    TwoTables(w, a, b, cursor, next, 0);
    forall k | k in m && Between(w, cursor, next, hashOf(k)) ensures (k, m[k]) in out {
      TwoTables(w, a, b, cursor, next, hashOf(k));
      RevInjective(a, hashOf(k), cursor);
    }
  }

  /** Table sizes only ever differ by their exponent. */
  lemma {:induction false} PowOrder(a: nat, b: nat)
    ensures Pow2(a) <= Pow2(b) <==> a <= b
  {
    if a > 0 && b > 0 {
      PowOrder(a - 1, b - 1);
    }
  }

  /** scan during a rehash: order the tables by size. */
  method ScanBoth<K(==,!new), V(!new)>(w: nat, d: D.Dict<K, V>, cursor: nat) returns (next: nat, out: seq<(K, V)>)
    requires d.Valid() && d.tab1 != null && w >= 31
    ensures Scanned(w, d.hashOf, d.Contents(), cursor, next, out)
  {
    PowOrder(d.bits0, d.bits1);
    PowOrder(d.bits1, d.bits0);
    if |d.tab0.heads| > |d.tab1.heads| {
      next, out := ScanTwo(w, d.tab1, d.tab0, cursor, d.bits1, d.bits0);
      assert d.tab1.contents + d.tab0.contents == d.Contents();
    } else {
      next, out := ScanTwo(w, d.tab0, d.tab1, cursor, d.bits0, d.bits1);
    }
  }

  /** dict.scan, with cursors of w bits; w is 64 in the program, and table sizes stay
      below 2^32. */
  method Scan<K(==,!new), V(!new)>(w: nat, d: D.Dict<K, V>, cursor: nat) returns (next: nat, out: seq<(K, V)>)
    requires d.Valid() && w >= 31
    ensures Scanned(w, d.hashOf, d.Contents(), cursor, next, out)
  {
    var n := d.Len();
    if n == 0 {
      assert d.Contents() == map[];
      return 0, [];
    }
    if d.tab1 == null {
      next, out := ScanOne(w, d.tab0, cursor, d.bits0);
    } else {
      next, out := ScanBoth(w, d, cursor);
    }
  }

  // ------------------------------------------------------------- a whole iteration

  /** One call of an iteration: the contents it found, its cursors and its reply. */
  datatype Call<K, V> = Call(contents: map<K, V>, cursor: nat, next: nat, out: seq<(K, V)>)

  /** Calls chained by their cursors, from 0 on.  Between two calls the dict may change
      in any way: the contents of different calls are unrelated, and so are the sizes of
      the tables behind them. */
  ghost predicate Chain<K(!new), V>(w: nat, hashOf: K -> nat, calls: seq<Call<K, V>>) {
    && calls != []
    && calls[0].cursor == 0
    && (forall i | 0 <= i < |calls| :: Scanned(w, hashOf, calls[i].contents, calls[i].cursor, calls[i].next, calls[i].out))
    && (forall i | 0 <= i < |calls| - 1 :: calls[i].next != 0 && calls[i + 1].cursor == calls[i].next)
  }

  /** A whole iteration: a chain of calls until 0 comes back. */
  ghost predicate Iteration<K(!new), V>(w: nat, hashOf: K -> nat, calls: seq<Call<K, V>>) {
    Chain(w, hashOf, calls) && calls[|calls| - 1].next == 0
  }

  /** Some call of an iteration covers any given hash. */
  lemma {:induction false} Reaches<K(!new), V>(w: nat, hashOf: K -> nat, calls: seq<Call<K, V>>, h: nat, i: nat) returns (j: nat)
    requires Iteration(w, hashOf, calls) && i < |calls| && Place(w, calls[i].cursor) <= Place(w, h)
    ensures i <= j < |calls| && Between(w, calls[j].cursor, calls[j].next, h)
    decreases |calls| - i
  {
    if calls[i].next == 0 || Place(w, h) < Place(w, calls[i].next) {
      return i;
    }
    assert i < |calls| - 1;
    j := Reaches(w, hashOf, calls, h, i + 1);
  }

  /** The SCAN promise: a key present for the whole iteration is returned at least
      once, however the table was resized or rehashed between calls. */
  lemma ScanFindsAll<K(!new), V>(w: nat, hashOf: K -> nat, calls: seq<Call<K, V>>, key: K)
    requires Iteration(w, hashOf, calls)
    requires forall i | 0 <= i < |calls| :: key in calls[i].contents
    ensures exists i, v :: 0 <= i < |calls| && (key, v) in calls[i].out
  {
    ShiftZero(w);
    var j := Reaches(w, hashOf, calls, hashOf(key), 0);
    assert Scanned(w, hashOf, calls[j].contents, calls[j].cursor, calls[j].next, calls[j].out);
    assert (key, calls[j].contents[key]) in calls[j].out;
  }

  /** The reversed cursor strictly increases along any chain of calls. */
  lemma {:induction false} CursorRises<K(!new), V>(w: nat, hashOf: K -> nat, calls: seq<Call<K, V>>, i: nat)
    requires Chain(w, hashOf, calls) && i < |calls|
    ensures i <= Place(w, calls[i].cursor) < Pow2(w)
  {
    RevBound(w, calls[i].cursor);
    if i > 0 {
      CursorRises(w, hashOf, calls, i - 1);
      var c := calls[i - 1];
      assert Scanned(w, hashOf, c.contents, c.cursor, c.next, c.out);
    }
  }

  /** So no chain goes on for ever: it has at most 2^w calls, however the dict changes
      meanwhile, and can only end by returning 0. */
  lemma ScanEnds<K(!new), V>(w: nat, hashOf: K -> nat, calls: seq<Call<K, V>>)
    requires Chain(w, hashOf, calls)
    ensures |calls| <= Pow2(w)
    ensures |calls| == Pow2(w) ==> calls[|calls| - 1].next == 0
  {
    var n := |calls| - 1;
    CursorRises(w, hashOf, calls, n);
    var c := calls[n];
    assert Scanned(w, hashOf, c.contents, c.cursor, c.next, c.out);
    if c.next != 0 {
      RevBound(w, c.next);
      assert Place(w, c.cursor) < Place(w, c.next) < Pow2(w);
    }
  }
}
