/** A segment file's bytes and the segment of records that the recovery theorems speak of
    (persist/recover.go replaySegment): replaying the bytes is replaying the records. */
module ByteReplay {
  import opened Options
  import opened Bytes
  import L = LogFile
  import F = Framing
  import G = Segment
  import R = Records
  import S = Stream
  import C = CrashSafety

  /** The records as commands, each as long as its frame. */
  ghost predicate Lifts<A>(crc: F.Crc, rs: seq<F.Record>, lift: F.Record -> R.Rec<A>, lifted: seq<R.Rec<A>>) {
    && |lifted| == |rs|
    && forall i | 0 <= i < |rs| :: lifted[i] == lift(rs[i]) && lifted[i].size == |F.Frame(crc, rs[i])|
  }

  /** The applier does with a record what recovery's step does with the command. */
  ghost predicate Same<A(!new), T(!new)>(apply: (T, L.Entry<F.Record>) -> Option<T>, step: (nat, R.Rec<A>, T) -> Option<T>,
                                         lift: F.Record -> R.Rec<A>) {
    forall e: L.Entry<F.Record>, st :: apply(st, e) == step(e.offset, lift(e.record), st)
  }

  lemma OffsetIs<A>(crc: F.Crc, rs: seq<F.Record>, lift: F.Record -> R.Rec<A>, lifted: seq<R.Rec<A>>, n: nat)
    requires Lifts(crc, rs, lift, lifted) && n <= |rs|
    ensures |L.Encode(G.Writer(crc), rs[..n])| == S.Off(lifted, n)
  {
    assert rs[..0] == [];
    for k := 0 to n
      invariant |L.Encode(G.Writer(crc), rs[..k])| == S.Off(lifted, k)
    {
      L.EncodeNext(G.Writer(crc), rs, k);
    }
  }

  /** What a replay of bytes and one of commands come to. */
  ghost predicate Agrees<T>(went: G.Went<T>, out: Option<T>) {
    if out.Some? then went == G.Through(out.value) else !went.Through?
  }

  lemma OneAgrees<A(!new), T(!new)>(apply: (T, L.Entry<F.Record>) -> Option<T>, step: (nat, R.Rec<A>, T) -> Option<T>,
                                    lift: F.Record -> R.Rec<A>, from: nat, e: L.Entry<F.Record>, mid: T)
    requires Same(apply, step, lift) && e.record.kind == G.KindEffect
    ensures Agrees(G.OneMore(apply, from, e, mid), C.Onward(step, from, e.offset, lift(e.record), Some(mid)))
  {
    assert apply(mid, e) == step(e.offset, lift(e.record), mid);
  }

  /** The entries are those of the commands, at their offsets, and all of them effects. */
  ghost predicate Listed<A>(es: seq<L.Entry<F.Record>>, lift: F.Record -> R.Rec<A>, lifted: seq<R.Rec<A>>, base: nat) {
    |es| == |lifted| && forall i | 0 <= i < |es| :: ListedAt(es[i], lift, lifted, base, i)
  }

  ghost predicate ListedAt<A>(e: L.Entry<F.Record>, lift: F.Record -> R.Rec<A>, lifted: seq<R.Rec<A>>, base: nat, i: nat) {
    i < |lifted| && e.offset == base + S.Off(lifted, i) && lifted[i] == lift(e.record) && e.record.kind == G.KindEffect
  }

  lemma EntriesListed<A>(crc: F.Crc, rs: seq<F.Record>, lift: F.Record -> R.Rec<A>, lifted: seq<R.Rec<A>>, base: nat)
    requires Lifts(crc, rs, lift, lifted) && forall i | 0 <= i < |rs| :: rs[i].kind == G.KindEffect
    ensures Listed(L.Entries(G.Writer(crc), rs, base), lift, lifted, base)
  {
    var es := L.Entries(G.Writer(crc), rs, base);
    EntriesCount(crc, rs, base);
    forall i | 0 <= i < |es| ensures ListedAt(es[i], lift, lifted, base, i) {
      L.EntryAt(G.Writer(crc), rs, base, i);
      OffsetIs(crc, rs, lift, lifted, i);
    }
  }

  lemma AgreeNext<A(!new), T(!new)>(es: seq<L.Entry<F.Record>>, lift: F.Record -> R.Rec<A>, lifted: seq<R.Rec<A>>,
                                    apply: (T, L.Entry<F.Record>) -> Option<T>, step: (nat, R.Rec<A>, T) -> Option<T>,
                                    from: nat, base: nat, st: T, n: nat)
    requires Listed(es, lift, lifted, base) && Same(apply, step, lift) && n < |es|
    requires Agrees(G.Replaying(apply, from, es[..n], st), C.ReplayRecs(step, from, base, lifted[..n], st))
    ensures Agrees(G.Replaying(apply, from, es[..n + 1], st), C.ReplayRecs(step, from, base, lifted[..n + 1], st))
  {
    var e, before := es[n], G.Replaying(apply, from, es[..n], st);
    assert ListedAt(e, lift, lifted, base, n);
    S.CutOff(lifted, n, n);
    C.ReplayRecsSnoc(step, from, base, lifted[..n], lifted[n], st);
    assert lifted[..n + 1] == lifted[..n] + [lifted[n]] && es[..n + 1] == es[..n] + [e];
    assert es[..n + 1][..n] == es[..n];
    if before.Through? {
      G.ReplayingSnoc(apply, from, es[..n], e, st);
      OneAgrees(apply, step, lift, from, e, before.state);
    }
  }

  lemma AllAgree<A(!new), T(!new)>(es: seq<L.Entry<F.Record>>, lift: F.Record -> R.Rec<A>, lifted: seq<R.Rec<A>>,
                                   apply: (T, L.Entry<F.Record>) -> Option<T>, step: (nat, R.Rec<A>, T) -> Option<T>,
                                   from: nat, base: nat, st: T)
    requires Listed(es, lift, lifted, base) && Same(apply, step, lift)
    ensures Agrees(G.Replaying(apply, from, es, st), C.ReplayRecs(step, from, base, lifted, st))
  {
    assert es[..0] == [] && lifted[..0] == [];
    for n := 0 to |es|
      invariant Agrees(G.Replaying(apply, from, es[..n], st), C.ReplayRecs(step, from, base, lifted[..n], st))
    {
      AgreeNext(es, lift, lifted, apply, step, from, base, st, n);
    }
    assert es[..|es|] == es && lifted[..|es|] == lifted;
  }

  lemma WholeRead(crc: F.Crc, rs: seq<F.Record>, cut: nat, base: nat)
    requires (forall r | r in rs :: F.Writable(r)) && cut <= |L.Encode(G.Writer(crc), rs)|
    ensures var l, k := L.ReadAll(G.Reader(crc), L.Encode(G.Writer(crc), rs)[..cut], base), L.Whole(G.Writer(crc), rs, cut);
            var end := |L.Encode(G.Writer(crc), rs[..k])|;
            l.entries == L.Entries(G.Writer(crc), rs[..k], base) && l.end == base + end && (l.stop == L.Torn <==> end < cut)
  {
    G.TornTailRecovers(crc, rs, cut, base);
  }

  lemma PrefixListed<A>(crc: F.Crc, rs: seq<F.Record>, lift: F.Record -> R.Rec<A>, lifted: seq<R.Rec<A>>, base: nat, k: nat)
    requires Lifts(crc, rs, lift, lifted) && k <= |rs| && forall r | r in rs :: r.kind == G.KindEffect
    ensures Listed(L.Entries(G.Writer(crc), rs[..k], base), lift, lifted[..k], base)
    ensures |L.Encode(G.Writer(crc), rs[..k])| == S.Off(lifted[..k], k)
  {
    forall i | 0 <= i < k ensures rs[..k][i].kind == G.KindEffect {
      assert rs[i] in rs;
    }
    OffsetIs(crc, rs, lift, lifted, k);
    S.CutOff(lifted, k, k);
    EntriesListed(crc, rs[..k], lift, lifted[..k], base);
  }

  /** A file of the log, cut anywhere, is a segment of whole records and perhaps some torn
      bytes: what replaying its bytes gives is what recovery's theorems say of that segment,
      and it ends where that segment does. */
  lemma FileIsSegment<A(!new), T(!new)>(crc: F.Crc, rs: seq<F.Record>, lift: F.Record -> R.Rec<A>, lifted: seq<R.Rec<A>>, cut: nat,
                                        apply: (T, L.Entry<F.Record>) -> Option<T>, step: (nat, R.Rec<A>, T) -> Option<T>,
                                        from: nat, base: nat, st: T)
    returns (seg: S.Seg<A>)
    requires Lifts(crc, rs, lift, lifted) && Same(apply, step, lift)
    requires forall r | r in rs :: F.Writable(r) && r.kind == G.KindEffect
    requires cut <= |L.Encode(G.Writer(crc), rs)|
    ensures seg.base == base && |seg.records| <= |rs| && seg.records == lifted[..|seg.records|]
    ensures var l := L.ReadAll(G.Reader(crc), L.Encode(G.Writer(crc), rs)[..cut], base);
            && l.end == S.EndOf(seg) && (l.stop == L.Torn <==> S.EndOf(seg) < base + cut)
            && Agrees(G.Replaying(apply, from, l.entries, st), C.ReplayRecs(step, from, base, seg.records, st))
  {
    var k := L.Whole(G.Writer(crc), rs, cut);
    seg := S.Seg(base, lifted[..k]);
    WholeRead(crc, rs, cut, base);
    PrefixListed(crc, rs, lift, lifted, base, k);
    AllAgree(L.Entries(G.Writer(crc), rs[..k], base), lift, lifted[..k], apply, step, from, base, st);
  }

  lemma EntriesCount(crc: F.Crc, rs: seq<F.Record>, base: nat)
    ensures |L.Entries(G.Writer(crc), rs, base)| == |rs|
  {
    if rs != [] {
      L.EntryAt(G.Writer(crc), rs, base, 0);
    }
  }
}
