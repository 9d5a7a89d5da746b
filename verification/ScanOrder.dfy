/** The reverse-binary cursor of engine/dict.go.  Words are natural numbers and the
    bit operations are defined bit by bit, so every step below is linear. */
module ScanOrder {
  import opened Arith

  // ---------------------------------------------------------------- bits of a word

  /** v & (2^k - 1). */
  function Low(k: nat, v: nat): nat {
    if k == 0 then 0 else v % 2 + 2 * Low(k - 1, v / 2)
  }

  /** v >> k. */
  function High(k: nat, v: nat): nat {
    if k == 0 then v else High(k - 1, v / 2)
  }

  /** v << k. */
  function Shift(k: nat, v: nat): nat {
    if k == 0 then v else 2 * Shift(k - 1, v)
  }

  /** v | ^(2^k - 1) in a w-bit word. */
  function Fill(w: nat, k: nat, v: nat): nat
    requires k <= w
  {
    if k == 0 then Pow2(w) - 1 else v % 2 + 2 * Fill(w - 1, k - 1, v / 2)
  }

  /** v + 1 in a w-bit word. */
  function Inc(w: nat, v: nat): nat {
    if v + 1 == Pow2(w) then 0 else v + 1
  }

  /** bits.Reverse on the low w bits: the lowest becomes the highest. */
  function Rev(w: nat, x: nat): nat {
    if w == 0 then 0 else HighBit(w, x) + Rev(w - 1, x / 2)
  }

  /** Where the lowest bit of a w-bit word goes. */
  function HighBit(w: nat, x: nat): nat
    requires w > 0
  {
    if x % 2 == 0 then 0 else Pow2(w - 1)
  }

  lemma {:induction false} ShiftZero(k: nat)
    ensures Shift(k, 0) == 0 && High(k, 0) == 0 && Rev(k, 0) == 0
  {
    if k > 0 {
      ShiftZero(k - 1);
    }
  }

  lemma {:induction false} ShiftAdd(k: nat, x: nat, y: nat)
    ensures Shift(k, x + y) == Shift(k, x) + Shift(k, y)
  {
    if k > 0 {
      ShiftAdd(k - 1, x, y);
    }
  }

  lemma {:induction false} ShiftOne(k: nat)
    ensures Shift(k, 1) == Pow2(k)
  {
    if k > 0 {
      ShiftOne(k - 1);
    }
  }

  lemma ShiftNext(k: nat, x: nat)
    ensures Shift(k, x + 1) == Shift(k, x) + Pow2(k)
  {
    ShiftAdd(k, x, 1);
    ShiftOne(k);
  }

  lemma {:induction false} ShiftMono(k: nat, x: nat, y: nat)
    ensures x < y <==> Shift(k, x) < Shift(k, y)
  {
    if k > 0 {
      ShiftMono(k - 1, x, y);
    }
  }

  lemma {:induction false} ShiftPow(k: nat, j: nat)
    ensures Shift(k, Pow2(j)) == Pow2(k + j)
  {
    if k > 0 {
      ShiftPow(k - 1, j);
    }
  }

  lemma {:induction false} ShiftBack(k: nat, x: nat)
    ensures High(k, Shift(k, x)) == x && Rev(k, Shift(k, x)) == 0
  {
    if k > 0 {
      ShiftBack(k - 1, x);
      assert Shift(k, x) / 2 == Shift(k - 1, x) && Shift(k, x) % 2 == 0;
    }
  }

  lemma {:induction false} LowBound(k: nat, v: nat)
    ensures Low(k, v) < Pow2(k)
    ensures v < Pow2(k) ==> Low(k, v) == v && High(k, v) == 0
  {
    if k > 0 {
      LowBound(k - 1, v / 2);
    }
  }

  lemma {:induction false} HighBound(k: nat, j: nat, v: nat)
    requires v < Pow2(k + j)
    ensures High(k, v) < Pow2(j)
  {
    if k > 0 {
      HighBound(k - 1, j, v / 2);
    }
  }

  lemma {:induction false} HighZero(k: nat, v: nat)
    requires High(k, v) == 0
    ensures v < Pow2(k)
  {
    if k > 0 {
      HighZero(k - 1, v / 2);
    }
  }

  /** Masking is the remainder the table uses to pick a bucket. */
  lemma {:induction false} LowIsMod(k: nat, v: nat)
    ensures Low(k, v) == v % Pow2(k)
  {
    if k > 0 {
      LowIsMod(k - 1, v / 2);
      DoubleMod(v, Pow2(k - 1));
    } else {
      DivUnique(v, 1, v, 0);
    }
  }

  lemma DoubleMod(v: nat, p: nat)
    requires p > 0
    ensures v % (2 * p) == v % 2 + 2 * (v / 2 % p)
  {
    DivMod(v / 2, p);
    var q: nat, r: nat := v / 2 / p, v / 2 % p;
    assert v == v % 2 + 2 * (r + q * p);
    assert q * (2 * p) == 2 * (q * p);
    DivUnique(v, 2 * p, q, v % 2 + 2 * r);
  }

  // --------------------------------------------------------------------- reversal

  lemma {:induction false} RevBound(w: nat, x: nat)
    ensures Rev(w, x) < Pow2(w)
  {
    if w > 0 {
      RevBound(w - 1, x / 2);
    }
  }

  /** Reversing a word reverses its two parts and swaps them. */
  lemma {:induction false} RevSplit(a: nat, b: nat, z: nat)
    ensures Rev(a + b, z) == Shift(b, Rev(a, z)) + Rev(b, High(a, z))
  {
    if a == 0 {
      ShiftZero(b);
    } else {
      RevSplit(a - 1, b, z / 2);
      ShiftAdd(b, HighBit(a, z), Rev(a - 1, z / 2));
      ShiftPow(b, a - 1);
      ShiftZero(b);
    }
  }

  lemma {:induction false} RevLow(w: nat, x: nat)
    ensures Rev(w, Low(w, x)) == Rev(w, x)
  {
    if w > 0 {
      RevLow(w - 1, x / 2);
      assert Low(w, x) % 2 == x % 2 && Low(w, x) / 2 == Low(w - 1, x / 2);
    }
  }

  /** Adding a bit above the word puts it lowest in the reversal. */
  lemma {:induction false} RevTop(w: nat, r: nat, bit: nat)
    requires r < Pow2(w) && bit < 2
    ensures Rev(w + 1, r + (if bit == 0 then 0 else Pow2(w))) == 2 * Rev(w, r) + bit
  {
    var z := r + (if bit == 0 then 0 else Pow2(w));
    if w == 0 {
      assert z == bit && Rev(0, z / 2) == 0 && Rev(0, r) == 0;
    } else {
      RevTop(w - 1, r / 2, bit);
      assert z % 2 == r % 2 && z / 2 == r / 2 + (if bit == 0 then 0 else Pow2(w - 1));
    }
  }

  /** Reversing twice gives back the low bits. */
  lemma {:induction false} RevRev(w: nat, x: nat)
    ensures Rev(w, Rev(w, x)) == Low(w, x)
  {
    if w > 0 {
      RevBound(w - 1, x / 2);
      RevRev(w - 1, x / 2);
      RevTop(w - 1, Rev(w - 1, x / 2), x % 2);
    }
  }

  lemma {:induction false} RevOnes(w: nat)
    ensures Rev(w, Pow2(w) - 1) == Pow2(w) - 1
  {
    if w > 0 {
      RevOnes(w - 1);
      var p := Pow2(w - 1);
      assert (2 * p - 1) % 2 == 1 && (2 * p - 1) / 2 == p - 1;
    }
  }

  /** Two words have the same low bits exactly when they reverse alike. */
  lemma RevInjective(k: nat, u: nat, v: nat)
    ensures Rev(k, u) == Rev(k, v) <==> Low(k, u) == Low(k, v)
  {
    RevRev(k, u);
    RevRev(k, v);
    RevLow(k, u);
    RevLow(k, v);
  }

  lemma RevBack(k: nat, t: nat)
    requires t < Pow2(k)
    ensures Rev(k, Rev(k, t)) == t
  {
    RevRev(k, t);
    LowBound(k, t);
  }

  lemma RevZeroLow(k: nat, x: nat)
    ensures Low(k, x) == 0 <==> Rev(k, x) == 0
  {
    RevInjective(k, x, 0);
    ShiftZero(k);
    LowBound(k, 0);
  }

  // -------------------------------------------------------------------- nextCursor

  /** nextCursor as written, for mask 2^k - 1 and w-bit words: set the bits above the
      mask, reverse, add one, reverse back, mask. */
  function NextCursor(w: nat, v: nat, k: nat): nat
    requires k <= w
  {
    Low(k, Rev(w, Inc(w, Rev(w, Fill(w, k, v)))))
  }

  /** The low bit goes to the top whatever the width. */
  lemma HighBitShift(n: nat, k: nat, v: nat)
    requires k > 0
    ensures Shift(n, HighBit(k, v)) == HighBit(n + k, v)
  {
    ShiftPow(n, k - 1);
    ShiftZero(n);
  }

  lemma FillStep(w: nat, k: nat, v: nat)
    requires 0 < k <= w
    ensures Fill(w, k, v) % 2 == v % 2 && Fill(w, k, v) / 2 == Fill(w - 1, k - 1, v / 2)
  {
  }

  lemma FillRevStep(w: nat, k: nat, v: nat, inner: nat)
    requires 0 < k <= w && inner == Rev(w - 1, Fill(w - 1, k - 1, v / 2)) && inner + 1 == Shift(w - k, Rev(k - 1, v / 2) + 1)
    ensures Rev(w, Fill(w, k, v)) + 1 == Shift(w - k, Rev(k, v) + 1)
  {
    var f, top := Fill(w, k, v), HighBit(k, v);
    FillStep(w, k, v);
    HighBitShift(w - k, k, v);
    ShiftAdd(w - k, top, Rev(k - 1, v / 2) + 1);
    assert Rev(w, f) == HighBit(w, f) + inner && HighBit(w, f) == HighBit(w, v);
  }

  lemma {:induction false} FillRev(w: nat, k: nat, v: nat)
    requires k <= w
    ensures Rev(w, Fill(w, k, v)) + 1 == Shift(w - k, Rev(k, v) + 1)
  {
    if k == 0 {
      ShiftNext(w, 0);
      RevOnes(w);
      ShiftZero(w);
    } else {
      FillRev(w - 1, k - 1, v / 2);
      FillRevStep(w, k, v, Rev(w - 1, Fill(w - 1, k - 1, v / 2)));
    }
  }

  lemma ShiftRev(w: nat, k: nat, n: nat)
    requires k <= w
    ensures Rev(w, Shift(w - k, n)) == Rev(k, n)
  {
    RevSplit(w - k, k, Shift(w - k, n));
    ShiftBack(w - k, n);
    ShiftZero(k);
  }

  /** The carry runs from the top of the bucket index down: the next bucket is the
      next one in reversed order, wrapping to 0. */
  lemma NextIs(w: nat, v: nat, k: nat)
    requires k <= w
    ensures NextCursor(w, v, k) == Rev(k, Inc(k, Rev(k, v)))
  {
    var t := Rev(k, v);
    FillRev(w, k, v);
    RevBound(k, v);
    RevBound(w, Fill(w, k, v));
    ShiftPow(w - k, k);
    ShiftMono(w - k, t + 1, Pow2(k));
    ShiftMono(w - k, Pow2(k), t + 1);
    ShiftZero(w - k);
    var n := Inc(k, t);
    assert Inc(w, Rev(w, Fill(w, k, v))) == Shift(w - k, n);
    ShiftRev(w, k, n);
    RevBound(k, n);
    LowBound(k, Rev(k, n));
  }

  // ----------------------------------------------------------------- scan intervals

  /** The place of a word in the order of the scan: its full reversal.  The first k
      bits of the place are Rev(k, v), the place of its bucket among 2^k. */
  function Place(w: nat, v: nat): nat {
    Rev(w, v)
  }

  /** The stretch of places between two cursors; a cursor of 0 after the first call
      is the end. */
  predicate Between(w: nat, cursor: nat, next: nat, h: nat) {
    Place(w, cursor) <= Place(w, h) && (next == 0 || Place(w, h) < Place(w, next))
  }

  /** Words that share a bucket of a 2^k table are a whole interval of places. */
  lemma PlaceTop(w: nat, k: nat, v: nat)
    requires k <= w
    ensures Shift(w - k, Rev(k, v)) <= Place(w, v) < Shift(w - k, Rev(k, v) + 1)
  {
    RevSplit(k, w - k, v);
    RevBound(w - k, High(k, v));
    ShiftNext(w - k, Rev(k, v));
  }

  lemma TopMono(w: nat, k: nat, u: nat, v: nat)
    requires k <= w && Place(w, u) <= Place(w, v)
    ensures Rev(k, u) <= Rev(k, v)
  {
    PlaceTop(w, k, u);
    PlaceTop(w, k, v);
    ShiftMono(w - k, Rev(k, u), Rev(k, v) + 1);
  }

  lemma TopBelow(w: nat, k: nat, v: nat, t: nat)
    requires k <= w && Place(w, v) < Shift(w - k, t)
    ensures Rev(k, v) < t
  {
    PlaceTop(w, k, v);
    ShiftMono(w - k, Rev(k, v), t);
  }

  /** Where a scan that has passed every bucket below place `t` resumes: at place
      `t`, or at 0 once every place has been passed. */
  lemma Resumes(w: nat, k: nat, cursor: nat, t: nat)
    requires k <= w && Rev(k, cursor) < t <= Pow2(k)
    ensures var n := Rev(k, if t == Pow2(k) then 0 else t);
            && n < Pow2(k)
            && (n == 0 <==> t == Pow2(k))
            && (n != 0 ==> Rev(k, n) == t && Place(w, n) == Shift(w - k, t) && Place(w, cursor) < Place(w, n))
  {
    ShiftZero(k);
    if t < Pow2(k) {
      var n := Rev(k, t);
      RevBound(k, t);
      RevRev(k, t);
      LowBound(k, t);
      RevSplit(k, w - k, n);
      LowBound(k, n);
      ShiftZero(w - k);
      PlaceTop(w, k, cursor);
      ShiftMono(w - k, t, Rev(k, cursor) + 1);
    }
  }

  /** Scanning one bucket of one table passes exactly the places up to the next
      cursor: every hash between the two is in that bucket. */
  lemma OneBucket(w: nat, k: nat, cursor: nat, h: nat)
    requires k <= w
    ensures var next := NextCursor(w, cursor, k);
            && next < Pow2(k)
            && (next != 0 ==> Place(w, cursor) < Place(w, next))
            && (Between(w, cursor, next, h) ==> Low(k, h) == Low(k, cursor))
  {
    var t := Rev(k, cursor);
    RevBound(k, cursor);
    RevBound(k, h);
    NextIs(w, cursor, k);
    Resumes(w, k, cursor, t + 1);
    var next := NextCursor(w, cursor, k);
    if Between(w, cursor, next, h) {
      TopMono(w, k, cursor, h);
      if next != 0 {
        TopBelow(w, k, h, t + 1);
      }
      RevInjective(k, h, cursor);
    }
  }

  /** The cursor after a run: the bucket where the next run begins, 0 after the last. */
  ghost function RunStop(a: nat, b: nat, start: nat): nat
    requires a <= b
  {
    Rev(b, if RunEnd(a, b, start) == Pow2(b) then 0 else RunEnd(a, b, start))
  }

  /** The place among 2^b where the run of the small table's bucket ends. */
  ghost function RunEnd(a: nat, b: nat, start: nat): nat
    requires a <= b
  {
    Shift(b - a, Rev(a, start) + 1)
  }

  lemma RunEndBound(a: nat, b: nat, start: nat)
    requires a <= b
    ensures Rev(b, start) < RunEnd(a, b, start) <= Pow2(b)
  {
    PlaceTop(b, a, start);
    RevBound(a, start);
    ShiftMono(b - a, Pow2(a), Rev(a, start) + 1);
    ShiftPow(b - a, a);
  }

  /** The large table's cursor is back at a boundary of the small one exactly when
      its bits between the two masks are clear. */
  lemma Boundary(a: nat, b: nat, start: nat, t: nat)
    requires a <= b && Rev(b, start) < t <= RunEnd(a, b, start)
    ensures t <= Pow2(b)
    ensures Low(b - a, High(a, Rev(b, if t == Pow2(b) then 0 else t))) == 0 <==> t == RunEnd(a, b, start)
  {
    RunEndBound(a, b, start);
    if t == Pow2(b) {
      ShiftZero(b);
      ShiftZero(a);
      LowBound(b - a, 0);
    } else {
      BoundaryInside(a, b, start, t);
    }
  }

  /** A place among 2^b: the small bucket it falls in, and how far into its run. */
  lemma SplitPlace(a: nat, b: nat, t: nat)
    requires a <= b && t < Pow2(b)
    ensures var v := Rev(b, t);
            var r := Rev(b - a, High(a, v));
            && t == Shift(b - a, Rev(a, v)) + r
            && r < Pow2(b - a)
            && (Low(b - a, High(a, v)) == 0 <==> r == 0)
  {
    var v := Rev(b, t);
    RevBack(b, t);
    RevSplit(a, b - a, v);
    RevBound(b - a, High(a, v));
    RevZeroLow(b - a, High(a, v));
  }

  /** Within one run only its end is a multiple of the run's length. */
  lemma RunMultiple(g: nat, s: nat, u: nat, r: nat)
    requires r < Pow2(g) && Shift(g, s) < Shift(g, u) + r <= Shift(g, s + 1)
    ensures r == 0 <==> Shift(g, u) + r == Shift(g, s + 1)
  {
    ShiftNext(g, u);
    ShiftMono(g, s, u);
    ShiftMono(g, u, s + 1);
    ShiftMono(g, s + 1, u);
    ShiftMono(g, s, u + 1);
    ShiftMono(g, s + 1, u + 1);
  }

  lemma BoundaryInside(a: nat, b: nat, start: nat, t: nat)
    requires a <= b && t < Pow2(b) && Rev(b, start) < t <= RunEnd(a, b, start)
    ensures Low(b - a, High(a, Rev(b, t))) == 0 <==> t == RunEnd(a, b, start)
  {
    SplitPlace(a, b, t);
    PlaceTop(b, a, start);
    RunMultiple(b - a, Rev(a, start), Rev(a, Rev(b, t)), Rev(b - a, High(a, Rev(b, t))));
  }

  /** One turn of the inner loop: the next place, and whether the run is over. */
  lemma RunStep(w: nat, a: nat, b: nat, start: nat, t: nat, cursor: nat)
    requires a <= b <= w && Rev(b, start) <= t < RunEnd(a, b, start) && Rev(b, cursor) == t
    ensures RunEnd(a, b, start) <= Pow2(b)
    ensures var next := NextCursor(w, cursor, b);
            if Low(b - a, High(a, next)) != 0 then t + 1 < RunEnd(a, b, start) && Rev(b, next) == t + 1
            else t + 1 == RunEnd(a, b, start) && next == Rev(b, if t + 1 == Pow2(b) then 0 else t + 1)
  {
    RunEndBound(a, b, start);
    NextIs(w, cursor, b);
    Boundary(a, b, start, t + 1);
    if t + 1 < RunEnd(a, b, start) {
      RevRev(b, t + 1);
      LowBound(b, t + 1);
    }
  }

  /** A hash between the cursor and the end of the run is in the small bucket and in its
      run. */
  lemma InRun(w: nat, a: nat, b: nat, cursor: nat, end: nat, h: nat)
    requires a <= b <= w && end == RunEnd(a, b, cursor) && Place(w, cursor) <= Place(w, h) && Rev(b, h) < end
    ensures Low(a, h) == Low(a, cursor) && Rev(b, cursor) <= Rev(b, h)
  {
    TopMono(w, a, cursor, h);
    TopMono(w, b, cursor, h);
    PlaceTop(b, a, h);
    ShiftMono(b - a, Rev(a, h), Rev(a, cursor) + 1);
    RevInjective(a, h, cursor);
  }

  lemma BelowStop(w: nat, a: nat, b: nat, cursor: nat, end: nat, next: nat, h: nat)
    requires a <= b <= w && end == RunEnd(a, b, cursor) && next == Rev(b, if end == Pow2(b) then 0 else end)
    ensures next < Pow2(b) && (next != 0 ==> Place(w, cursor) < Place(w, next))
    ensures Between(w, cursor, next, h) ==> Rev(b, h) < end
  {
    RunEndBound(a, b, cursor);
    Resumes(w, b, cursor, end);
    RevBound(b, h);
    if Between(w, cursor, next, h) && next != 0 {
      TopBelow(w, b, h, end);
    }
  }

  /** Scanning a small bucket and its run in the large table passes every place up to the
      next cursor, in both tables. */
  lemma TwoTables(w: nat, a: nat, b: nat, cursor: nat, next: nat, h: nat)
    requires a <= b <= w
    requires next == RunStop(a, b, cursor)
    ensures next < Pow2(b)
    ensures next != 0 ==> Place(w, cursor) < Place(w, next)
    ensures Between(w, cursor, next, h) ==>
              Low(a, h) == Low(a, cursor) && Rev(b, cursor) <= Rev(b, h) < RunEnd(a, b, cursor)
  {
    var end := RunEnd(a, b, cursor);
    BelowStop(w, a, b, cursor, end, next, h);
    if Between(w, cursor, next, h) {
      InRun(w, a, b, cursor, end, h);
    }
  }
}
