/** The log as a stream of bytes, and the segment files that hold a stretch of it
    (persist/segments.go): offsets, contiguity, and what growing, rolling and cutting keep. */
module Stream {
  import opened Records

  /** Stream offset of record `i`: the bytes before it. */
  function Off<A>(log: seq<Rec<A>>, i: nat): nat
    requires i <= |log|
  {
    if i == 0 then 0 else Off(log, i - 1) + log[i - 1].size
  }

  ghost predicate Sized<A>(log: seq<Rec<A>>) {
    forall i | 0 <= i < |log| :: log[i].size > 0
  }

  lemma {:induction false} OffMonotone<A>(log: seq<Rec<A>>, i: nat, j: nat)
    requires i <= j <= |log| && Sized(log)
    ensures Off(log, i) <= Off(log, j)
    ensures i < j ==> Off(log, i) < Off(log, j)
  {
    if i < j {
      OffMonotone(log, i, j - 1);
    }
  }

  lemma {:induction false} OffPrefix<A>(log: seq<Rec<A>>, more: seq<Rec<A>>, i: nat)
    requires i <= |log|
    ensures Off(log + more, i) == Off(log, i)
  {
    if i > 0 {
      OffPrefix(log, more, i - 1);
    }
  }

  lemma {:induction false} CutOff<A>(log: seq<Rec<A>>, e: nat, i: nat)
    requires i <= e <= |log|
    ensures Off(log[..e], i) == Off(log, i)
  {
    if i > 0 {
      CutOff(log, e, i - 1);
    }
  }

  /** Offsets below are record numbers below. */
  lemma OffBelow<A>(log: seq<Rec<A>>, i: nat, j: nat)
    requires i <= |log| && j <= |log| && Sized(log)
    ensures Off(log, i) < Off(log, j) <==> i < j
    ensures Off(log, i) <= Off(log, j) <==> i <= j
  {
    if i <= j {
      OffMonotone(log, i, j);
    } else {
      OffMonotone(log, j, i);
    }
  }

  // ------------------------------------------------------------------- segment files

  /** A segment file: the stream offset it begins at and its whole records. */
  datatype Seg<A> = Seg(base: nat, records: seq<Rec<A>>)

  function EndOf<A>(seg: Seg<A>): nat {
    seg.base + Off(seg.records, |seg.records|)
  }

  /** Segments: each file begins where the one before ended. */
  predicate Contiguous<A>(segs: seq<Seg<A>>) {
    forall i | 0 < i < |segs| :: segs[i].base == EndOf(segs[i - 1])
  }

  function Grow<A>(segs: seq<Seg<A>>, rs: seq<Rec<A>>): seq<Seg<A>>
    requires segs != []
  {
    var n := |segs| - 1;
    segs[n := Seg(segs[n].base, segs[n].records + rs)]
  }

  /** The segments hold log[lo..hi], each at its offset. */
  ghost predicate Holding<A>(log: seq<Rec<A>>, segs: seq<Seg<A>>, lo: nat, hi: nat) {
    if segs == [] then lo == hi
    else
      var mid := lo + |segs[0].records|;
      && mid <= |log| && segs[0].records == log[lo..mid] && segs[0].base == Off(log, lo)
      && Holding(log, segs[1..], mid, hi)
  }

  lemma {:induction false} OffSlice<A>(log: seq<Rec<A>>, lo: nat, mid: nat, n: nat)
    requires lo + n <= mid <= |log|
    ensures Off(log, lo) + Off(log[lo..mid], n) == Off(log, lo + n)
  {
    if n > 0 {
      OffSlice(log, lo, mid, n - 1);
    }
  }

  lemma {:induction false} HoldingBounds<A>(log: seq<Rec<A>>, segs: seq<Seg<A>>, lo: nat, hi: nat)
    requires Holding(log, segs, lo, hi) && segs != []
    ensures lo <= hi <= |log| && segs[0].base == Off(log, lo) && EndOf(segs[|segs| - 1]) == Off(log, hi)
    ensures EndOf(segs[0]) == Off(log, lo + |segs[0].records|)
    ensures Contiguous(segs)
  {
    var mid := lo + |segs[0].records|;
    OffSlice(log, lo, mid, |segs[0].records|);
    if |segs| > 1 {
      var rest := segs[1..];
      HoldingBounds(log, rest, mid, hi);
      forall i | 0 < i < |segs| ensures segs[i].base == EndOf(segs[i - 1]) {
        assert i > 1 ==> rest[i - 1].base == EndOf(rest[i - 2]);
      }
    }
  }

  lemma {:induction false} HoldingGrows<A>(log: seq<Rec<A>>, more: seq<Rec<A>>, segs: seq<Seg<A>>, lo: nat, hi: nat)
    requires Holding(log, segs, lo, hi) && lo <= |log|
    ensures Holding(log + more, segs, lo, hi)
  {
    if segs != [] {
      var mid := lo + |segs[0].records|;
      assert (log + more)[lo..mid] == log[lo..mid];
      OffPrefix(log, more, lo);
      HoldingGrows(log, more, segs[1..], mid, hi);
    }
  }

  /** More of the log reaches the last segment. */
  lemma {:induction false} HoldingWrites<A>(log: seq<Rec<A>>, segs: seq<Seg<A>>, lo: nat, hi: nat, upto: nat)
    requires Holding(log, segs, lo, hi) && segs != [] && hi <= upto <= |log| && lo <= hi
    ensures Holding(log, Grow(segs, log[hi..upto]), lo, upto)
  {
    var g := Grow(segs, log[hi..upto]);
    var mid := lo + |segs[0].records|;
    if |segs| == 1 {
      assert g[0].records == log[lo..upto];
      assert g[1..] == [] && segs[1..] == [];
    } else {
      HoldingBounds(log, segs[1..], mid, hi);
      HoldingWrites(log, segs[1..], mid, hi, upto);
      assert g[1..] == Grow(segs[1..], log[hi..upto]);
    }
  }

  /** A new segment begins where the stream has come to. */
  lemma {:induction false} HoldingRolls<A>(log: seq<Rec<A>>, segs: seq<Seg<A>>, lo: nat, hi: nat)
    requires Holding(log, segs, lo, hi) && lo <= hi <= |log|
    ensures Holding(log, segs + [Seg(Off(log, hi), [])], lo, hi)
  {
    var s := segs + [Seg(Off(log, hi), [])];
    if segs == [] {
      assert s[1..] == [] && log[lo..lo] == [];
    } else {
      var mid := lo + |segs[0].records|;
      if segs[1..] != [] {
        HoldingBounds(log, segs[1..], mid, hi);
      }
      HoldingRolls(log, segs[1..], mid, hi);
      assert s[1..] == segs[1..] + [Seg(Off(log, hi), [])];
    }
  }

  lemma MidBelow<A>(log: seq<Rec<A>>, segs: seq<Seg<A>>, lo: nat, hi: nat)
    requires Holding(log, segs, lo, hi) && segs != []
    ensures lo + |segs[0].records| <= hi
  {
    if segs[1..] != [] {
      HoldingBounds(log, segs[1..], lo + |segs[0].records|, hi);
    }
  }

  /** Where the records of one file are in the log. */
  lemma {:induction false} HoldingAt<A>(log: seq<Rec<A>>, segs: seq<Seg<A>>, lo: nat, hi: nat, k: nat) returns (a: nat)
    requires Holding(log, segs, lo, hi) && k < |segs|
    ensures var b := a + |segs[k].records|;
            && lo <= a && b <= hi <= |log| && segs[k].records == log[a..b]
            && segs[k].base == Off(log, a) && EndOf(segs[k]) == Off(log, b)
            && (k + 1 == |segs| ==> b == hi)
  {
    HoldingBounds(log, segs, lo, hi);
    if k == 0 {
      a := lo;
      MidBelow(log, segs, lo, hi);
    } else {
      a := HoldingAt(log, segs[1..], lo + |segs[0].records|, hi, k - 1);
    }
  }

  lemma {:induction false} HoldingCut<A>(log: seq<Rec<A>>, e: nat, segs: seq<Seg<A>>, lo: nat, hi: nat)
    requires Holding(log, segs, lo, hi) && lo <= hi <= e <= |log|
    ensures Holding(log[..e], segs, lo, hi)
  {
    if segs != [] {
      var mid := lo + |segs[0].records|;
      MidBelow(log, segs, lo, hi);
      CutOff(log, e, lo);
      assert log[..e][lo..mid] == log[lo..mid];
      HoldingCut(log, e, segs[1..], mid, hi);
    }
  }
}
