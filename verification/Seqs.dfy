/** Facts about sequences that the solver does not look for by itself. */
module Seqs {

  lemma ConcatAssoc<T>(a: seq<T>, b: seq<T>, c: seq<T>)
    ensures (a + b) + c == a + (b + c)
  {
  }

  lemma SliceGrows<T>(s: seq<T>, lo: nat, i: nat)
    requires lo <= i < |s|
    ensures s[lo..i + 1] == s[lo..i] + [s[i]]
  {
  }

  /** What holds at first and is kept by every move holds throughout. */
  lemma {:induction false} Preserved<S(!new), E(!new)>(states: seq<S>, events: seq<E>, move: (S, E, S) -> bool, good: S -> bool, i: nat)
    requires |states| == |events| + 1 && i < |states| && good(states[0])
    requires forall j | 0 <= j < |events| :: move(states[j], events[j], states[j + 1])
    requires forall s, e, s' | good(s) && move(s, e, s') :: good(s')
    ensures good(states[i])
  {
    if i > 0 {
      Preserved(states, events, move, good, i - 1);
      assert move(states[i - 1], events[i - 1], states[i - 1 + 1]);
    }
  }

  /** What does not hold at first and holds later came to hold in some step, and has held
      since. */
  lemma {:induction false} Entered<S>(states: seq<S>, holds: S -> bool, from: nat, j: nat) returns (i: nat)
    requires from <= j < |states| && !holds(states[from]) && holds(states[j])
    ensures from <= i < j && !holds(states[i]) && holds(states[i + 1])
    ensures forall k | i < k <= j :: holds(states[k])
  {
    var before := j - 1;
    if holds(states[before]) {
      i := Entered(states, holds, from, before);
    } else {
      i := before;
    }
  }

  /** Pairs that list a map, each key once. */
  ghost predicate Lists<K, V>(m: map<K, V>, ps: seq<(K, V)>) {
    && (forall i, j | 0 <= i < j < |ps| :: ps[i].0 != ps[j].0)
    && (forall i | 0 <= i < |ps| :: ps[i].0 in m && m[ps[i].0] == ps[i].1)
    && (forall k | k in m :: (k, m[k]) in ps)
  }

  /** Two maps without a common key, one listed after the other. */
  lemma ListsUnion<K, V>(a: map<K, V>, b: map<K, V>, ps: seq<(K, V)>, qs: seq<(K, V)>)
    requires a.Keys !! b.Keys && Lists(a, ps) && Lists(b, qs)
    ensures Lists(a + b, ps + qs)
  {
    var all := ps + qs;
    forall k | k in a + b ensures (k, (a + b)[k]) in all {
      if k in a {
        assert k !in b;
        assert (k, a[k]) in ps;
      } else {
        assert (k, b[k]) in qs;
      }
    }
  }

  /** A cut of two pieces falls into the first or into the second. */
  lemma CutAt<T>(first: seq<T>, rest: seq<T>, cut: nat)
    requires cut <= |first| + |rest|
    ensures (first + rest)[..cut] == if cut < |first| then first[..cut] else first + rest[..cut - |first|]
  {
  }
}
