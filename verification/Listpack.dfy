/** The flat encoding of small collections (engine/listpack.go): entries end to end in
    one buffer, each a uvarint length and its bytes. */
module Listpack {
  import opened Seqs
  import opened Options
  import opened Bytes

  // ------------------------------------------------------------------------ varints

  /** binary.PutUvarint. */
  function Varint(n: nat): (b: bytes)
    ensures b != []
  {
    if n < 128 then [n] else [n % 128 + 128] + Varint(n / 128)
  }

  /** binary.Uvarint: the value and how many bytes it takes, 0 when they run out. */
  function ReadVarint(b: bytes): (nat, nat) {
    if b == [] then (0, 0)
    else if b[0] < 128 then (b[0], 1)
    else
      var (v, w) := ReadVarint(b[1..]);
      if w == 0 then (0, 0) else (b[0] - 128 + 128 * v, w + 1)
  }

  lemma {:induction false} VarintRoundTrip(n: nat, rest: bytes)
    ensures ReadVarint(Varint(n) + rest) == (n, |Varint(n)|)
  {
    if n >= 128 {
      VarintRoundTrip(n / 128, rest);
      assert (Varint(n) + rest)[1..] == Varint(n / 128) + rest;
    }
  }

  /** Base 128, lowest digit first: every byte but the last has its top bit set, and there
      is no needless byte. */
  lemma {:induction false} VarintShape(n: nat)
    ensures var b := Varint(n);
            && (forall i | 0 <= i < |b| :: b[i] >= 128 <==> i + 1 < |b|)
            && (|b| > 1 ==> b[|b| - 1] > 0)
            && b[0] % 128 == n % 128 && (n >= 128 ==> b[1..] == Varint(n / 128))
  {
    if n >= 128 {
      VarintShape(n / 128);
    }
  }

  // ------------------------------------------------------------------------ packing

  function Entry(e: bytes): bytes {
    Varint(|e|) + e
  }

  function Pack(es: seq<bytes>): bytes {
    if es == [] then [] else Pack(es[..|es| - 1]) + Entry(es[|es| - 1])
  }

  lemma PackSnoc(es: seq<bytes>, e: bytes)
    ensures Pack(es + [e]) == Pack(es) + Entry(e)
  {
    assert (es + [e])[..|es|] == es;
  }

  lemma {:induction false} PackConcat(a: seq<bytes>, b: seq<bytes>)
    ensures Pack(a + b) == Pack(a) + Pack(b)
  {
    if b == [] {
      assert a + b == a;
    } else {
      var n := |b| - 1;
      PackConcat(a, b[..n]);
      assert a + b == (a + b[..n]) + [b[n]];
      PackSnoc(a + b[..n], b[n]);
      ConcatAssoc(Pack(a), Pack(b[..n]), Entry(b[n]));
    }
  }

  lemma PackSplit(es: seq<bytes>, i: nat)
    requires i <= |es|
    ensures Pack(es) == Pack(es[..i]) + Pack(es[i..]) && |Pack(es[..i])| <= |Pack(es)|
  {
    assert es == es[..i] + es[i..];
    PackConcat(es[..i], es[i..]);
  }

  lemma PackTo(es: seq<bytes>, i: nat)
    requires i < |es|
    ensures Pack(es[..i + 1]) == Pack(es[..i]) + Entry(es[i])
  {
    PackSnoc(es[..i], es[i]);
    assert es[..i + 1] == es[..i] + [es[i]];
  }

  /** Where entry i starts, and what is there. */
  lemma PackAt(es: seq<bytes>, i: nat)
    requires i < |es|
    ensures Pack(es[..i + 1]) == Pack(es[..i]) + Entry(es[i])
    ensures Pack(es) == Pack(es[..i]) + Entry(es[i]) + Pack(es[i + 1..])
  {
    PackTo(es, i);
    PackSplit(es, i + 1);
  }

  /** Decoding at an entry's start. */
  lemma ReadAt(es: seq<bytes>, i: nat)
    requires i < |es|
    ensures var off := |Pack(es[..i])|;
            && off <= |Pack(es)| && ReadVarint(Pack(es)[off..]) == (|es[i]|, |Varint(|es[i]|)|)
            && off + |Varint(|es[i]|)| + |es[i]| == |Pack(es[..i + 1])| <= |Pack(es)|
            && Pack(es)[off + |Varint(|es[i]|)|..off + |Varint(|es[i]|)| + |es[i]|] == es[i]
  {
    PackAt(es, i);
    var off, v := |Pack(es[..i])|, Varint(|es[i]|);
    VarintRoundTrip(|es[i]|, es[i] + Pack(es[i + 1..]));
    assert Pack(es)[off..] == v + (es[i] + Pack(es[i + 1..]));
  }

  /** growCap. */
  method GrowCap(n: nat) returns (c: nat)
    ensures n <= c && 64 <= c
  {
    c := 64;
    while c < n
      invariant 64 <= c
      decreases n - c
    {
      c := c * 2;
    }
  }

  /** A listpack: the first `len` bytes of `buf` are its entries. */
  class Listpack {
    var buf: array<byte>
    var len: nat
    var count: nat
    ghost var entries: seq<bytes>

    ghost predicate Valid()
      reads this, buf
    {
      len <= buf.Length && count == |entries| && buf[..len] == Pack(entries)
    }

    constructor (capacity: nat)
      ensures Valid() && entries == [] && fresh(buf)
    {
      buf := new byte[capacity](_ => 0);
      len, count := 0, 0;
      entries := [];
    }

    /** locate. */
    method Locate(i: int) returns (off: int, size: nat, hdr: nat)
      requires Valid()
      ensures off == -1 <==> !(0 <= i < count)
      ensures 0 <= i < count ==>
                && off == |Pack(entries[..i])| && size == |entries[i]| && hdr == |Varint(|entries[i]|)|
                && off + hdr + size == |Pack(entries[..i + 1])| <= len
    {
      if i < 0 || i >= count {
        return -1, 0, 0;
      }
      off := 0;
      var n := 0;
      while true
        invariant 0 <= n <= i && off == |Pack(entries[..n])| <= len
        decreases i - n
      {
        ReadAt(entries, n);
        assert buf[off..len] == buf[..len][off..];
        var (v, w) := ReadVarint(buf[off..len]);
        if n == i {
          return off, v, w;
        }
        off := off + w + v;
        n := n + 1;
      }
    }

    /** At. */
    method At(i: int) returns (e: Option<bytes>)
      requires Valid()
      ensures e == if 0 <= i < count then Some(entries[i]) else None
    {
      var off, size, hdr := Locate(i);
      if off < 0 {
        return None;
      }
      ReadAt(entries, i);
      assert buf[off + hdr..off + hdr + size] == buf[..len][off + hdr..off + hdr + size];
      return Some(buf[off + hdr..off + hdr + size]);
    }

    // ------------------------------------------------------------------ rewriting

    /** Bytes copied into the buffer from a place on. */
    method Put(at: nat, p: bytes)
      requires at + |p| <= buf.Length
      modifies buf
      ensures buf[..] == old(buf[..at]) + p + old(buf[at + |p|..])
    {
      forall i | 0 <= i < |p| {
        buf[at + i] := p[i];
      }
      assert buf[..at] == old(buf[..at]) && buf[at..at + |p|] == p && buf[at + |p|..] == old(buf[at + |p|..]);
      assert buf[..] == buf[..at] + buf[at..at + |p|] + buf[at + |p|..];
    }

    /** splice, the in-place branch: what is put in is no longer than what it replaces,
        so the tail moves left. */
    method SpliceInPlace(from: nat, to: nat, p: bytes)
      requires from <= to <= len <= buf.Length && |p| <= to - from
      modifies buf, this`len
      ensures len <= buf.Length && buf[..len] == old(buf[..from]) + p + old(buf[to..len])
    {
      ghost var was := buf[..];
      Put(from, p);
      var w := from + |p|;
      assert buf[..w] == was[..from] + p && buf[to..len] == was[to..len];
      Put(w, buf[to..len]);
      len := len - (to - from) + |p|;
      assert buf[..len] == buf[..][..len];
    }

    /** splice, the reallocating branch. */
    method SpliceCopy(from: nat, to: nat, p: bytes)
      requires from <= to <= len <= buf.Length
      modifies this`buf, this`len
      ensures fresh(buf) && len <= buf.Length && buf[..len] == old(buf[..from]) + p + old(buf[to..len])
    {
      var next := buf[..from] + p + buf[to..len];
      var c := GrowCap(|next|);
      buf := new byte[c](i => if 0 <= i < |next| then next[i] else 0);
      len := |next|;
      assert buf[..len] == next;
    }

    /** splice: bytes [from, to) replaced. */
    method Splice(from: nat, to: nat, p: bytes)
      requires from <= to <= len <= buf.Length
      modifies this`buf, this`len, buf
      ensures (buf == old(buf) || fresh(buf)) && len <= buf.Length
      ensures buf[..len] == old(buf[..from]) + p + old(buf[to..len])
    {
      var need := len - (to - from) + |p|;
      if need <= buf.Length && |p| <= to - from {
        SpliceInPlace(from, to, p);
      } else {
        SpliceCopy(from, to, p);
      }
    }

    /** A run of entries replaced by others. */
    method Rewrite(from: nat, to: nat, p: bytes, ghost i: nat, ghost j: nat, ghost mid: seq<bytes>)
      requires len <= buf.Length && buf[..len] == Pack(entries) && i <= j <= |entries|
      requires from == |Pack(entries[..i])| && to == |Pack(entries[..j])| && p == Pack(mid)
      modifies this`buf, this`len, this`entries, buf
      ensures (buf == old(buf) || fresh(buf)) && len <= buf.Length && buf[..len] == Pack(entries)
      ensures entries == old(entries)[..i] + mid + old(entries)[j..]
    {
      PackReplace(entries, i, j, mid);
      ghost var packed := buf[..len];
      assert buf[..from] == packed[..from] && buf[to..len] == packed[to..];
      Splice(from, to, p);
      entries := entries[..i] + mid + entries[j..];
    }

    /** Go's append: in place when the buffer has room. */
    method AppendBytes(p: bytes)
      requires len <= buf.Length
      modifies this`buf, this`len, buf
      ensures (buf == old(buf) || fresh(buf)) && len <= buf.Length && buf[..len] == old(buf[..len]) + p
    {
      if len + |p| <= buf.Length {
        Put(len, p);
        len := len + |p|;
        assert buf[..len] == buf[..][..len];
      } else {
        SpliceCopy(len, len, p);
      }
    }

    /** Append. */
    method Append(b: bytes)
      requires Valid()
      modifies this, buf
      ensures Valid() && (buf == old(buf) || fresh(buf)) && entries == old(entries) + [b]
    {
      PackSnoc(entries, b);
      ConcatAssoc(Pack(entries), Varint(|b|), b);
      AppendBytes(Varint(|b|));
      AppendBytes(b);
      count := count + 1;
      entries := entries + [b];
    }

    /** InsertAt: an index past the end appends, a negative one inserts in front. */
    method InsertAt(i: int, b: bytes)
      requires Valid()
      modifies this, buf
      ensures Valid() && (buf == old(buf) || fresh(buf))
      ensures var k := if i < 0 then 0 else if i > |old(entries)| then |old(entries)| else i;
              entries == old(entries)[..k] + [b] + old(entries)[k..]
    {
      if i >= count {
        Append(b);
        assert old(entries)[..count - 1] == old(entries);
        return;
      }
      var off, size, hdr := Locate(i);
      if off < 0 {
        off := 0;
      }
      ghost var k := if i < 0 then 0 else i;
      PackOne(b);
      Rewrite(off, off, Varint(|b|) + b, k, k, [b]);
      count := count + 1;
    }

    /** SetAt. */
    method SetAt(i: int, b: bytes)
      requires Valid()
      modifies this, buf
      ensures Valid() && (buf == old(buf) || fresh(buf))
      ensures entries == if 0 <= i < |old(entries)| then old(entries)[i := b] else old(entries)
    {
      var off, size, hdr := Locate(i);
      if off < 0 {
        return;
      }
      PackOne(b);
      Rewrite(off, off + hdr + size, Varint(|b|) + b, i, i + 1, [b]);
      assert entries == old(entries)[i := b];
    }

    /** A run of entries taken out. */
    method RemoveRun(from: nat, to: nat, ghost i: nat, ghost j: nat)
      requires len <= buf.Length && buf[..len] == Pack(entries) && i <= j <= |entries|
      requires from == |Pack(entries[..i])| && to == |Pack(entries[..j])|
      modifies this`buf, this`len, this`entries, buf
      ensures (buf == old(buf) || fresh(buf)) && len <= buf.Length && buf[..len] == Pack(entries)
      ensures entries == old(entries)[..i] + old(entries)[j..]
    {
      ghost var was := entries;
      Rewrite(from, to, [], i, j, []);
      assert was[..i] + [] + was[j..] == was[..i] + was[j..];
    }

    /** entryEnd, for an entry there is. */
    method EntryEnd(i: int) returns (end: nat)
      requires Valid() && 0 <= i < count
      ensures end == |Pack(entries[..i + 1])|
    {
      var off, size, hdr := Locate(i);
      return off + hdr + size;
    }

    /** DeleteAt. */
    method DeleteAt(i: int)
      requires Valid()
      modifies this, buf
      ensures Valid() && (buf == old(buf) || fresh(buf))
      ensures entries == if 0 <= i < |old(entries)| then old(entries)[..i] + old(entries)[i + 1..] else old(entries)
    {
      var off, size, hdr := Locate(i);
      if off < 0 {
        return;
      }
      RemoveRun(off, off + hdr + size, i, i + 1);
      count := count - 1;
    }

    /** DeleteRun: up to n entries from i on. */
    method DeleteRun(i: int, n: int)
      requires Valid()
      modifies this, buf
      ensures Valid() && (buf == old(buf) || fresh(buf))
      ensures entries == if n <= 0 || i < 0 || i >= |old(entries)| then old(entries)
                         else old(entries)[..i] + old(entries)[if i + n > |old(entries)| then |old(entries)| else i + n..]
    {
      if n <= 0 || i < 0 || i >= count {
        return;
      }
      var m := if i + n > count then count - i else n;
      var start, size, hdr := Locate(i);
      var end := EntryEnd(i + m - 1);
      RemoveRun(start, end, i, i + m);
      count := count - m;
    }

    /** Truncate. */
    method Truncate(n: int)
      requires Valid()
      modifies this
      ensures Valid() && buf == old(buf)
      ensures entries == if n >= |old(entries)| then old(entries) else if n <= 0 then [] else old(entries)[..n]
    {
      if n >= count {
        return;
      }
      if n <= 0 {
        len, count := 0, 0;
        entries := [];
        return;
      }
      var off, size, hdr := Locate(n - 1);
      PackSplit(entries, n);
      assert buf[..off + hdr + size] == buf[..len][..off + hdr + size];
      len := off + hdr + size;
      count := n;
      entries := entries[..n];
    }

    /** One step of Each: the entry at an offset, and the offset of the next. */
    method Step(off: nat, ghost i: nat) returns (e: bytes, next: nat)
      requires Valid() && i < count && off == |Pack(entries[..i])| <= len
      ensures e == entries[i] && next == |Pack(entries[..i + 1])| <= len
    {
      ReadAt(entries, i);
      assert buf[off..len] == buf[..len][off..];
      var (v, w) := ReadVarint(buf[off..len]);
      assert buf[off + w..off + w + v] == buf[..len][off + w..off + w + v];
      return buf[off + w..off + w + v], off + w + v;
    }

    /** IndexOfStep: the first entry equal to b at a position congruent to offset. */
    method IndexOfStep(b: bytes, step: nat, offset: nat) returns (found: int)
      requires Valid() && step > 0
      ensures -1 <= found < count
      ensures found >= 0 ==> entries[found] == b && found % step == offset
      ensures forall i | 0 <= i < count && i % step == offset && (found < 0 || i < found) :: entries[i] != b
    {
      var off, i := 0, 0;
      while i < count
        invariant 0 <= i <= count && off == |Pack(entries[..i])| <= len
        invariant forall k | 0 <= k < i && k % step == offset :: entries[k] != b
      {
        var e, next := Step(off, i);
        if i % step == offset && e == b {
          return i;
        }
        off, i := next, i + 1;
      }
      return -1;
    }
  }

  lemma PackOne(b: bytes)
    ensures Pack([b]) == Varint(|b|) + b
  {
    PackSnoc([], b);
    assert [] + [b] == [b];
  }

  /** Replacing a run of entries replaces their bytes. */
  lemma PackReplace(es: seq<bytes>, i: nat, j: nat, mid: seq<bytes>)
    requires i <= j <= |es|
    ensures var from, to := |Pack(es[..i])|, |Pack(es[..j])|;
            && from <= to <= |Pack(es)|
            && Pack(es[..i] + mid + es[j..]) == Pack(es)[..from] + Pack(mid) + Pack(es)[to..]
  {
    PackSplit(es, i);
    PackSplit(es, j);
    PackSplit(es[..j], i);
    assert es[..j][..i] == es[..i];
    PackConcat(es[..i], mid);
    PackConcat(es[..i] + mid, es[j..]);
  }
}
