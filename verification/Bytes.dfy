/** Bytes, and the number encodings the log files share: little-endian integers and
    decimal text as strconv writes and reads it. */
module Bytes {
  import opened Options

  type byte = x: int | 0 <= x < 256

  type bytes = seq<byte>

  // ------------------------------------------------------------------ little-endian

  function Pow256(k: nat): nat {
    if k == 0 then 1 else 256 * Pow256(k - 1)
  }

  /** The low k bytes of n. */
  function LE(n: nat, k: nat): (b: bytes)
    ensures |b| == k
  {
    if k == 0 then [] else [n % 256] + LE(n / 256, k - 1)
  }

  function UnLE(b: bytes): nat {
    if b == [] then 0 else b[0] + 256 * UnLE(b[1..])
  }

  /** What comes back is the number cut to its field. */
  lemma {:induction false} LERoundTrip(n: nat, k: nat)
    ensures UnLE(LE(n, k)) < Pow256(k)
    ensures n < Pow256(k) <==> UnLE(LE(n, k)) == n
  {
    if k > 0 {
      var b := LE(n, k);
      assert b[1..] == LE(n / 256, k - 1);
      LERoundTrip(n / 256, k - 1);
    }
  }

  /** The lowest byte comes first. */
  lemma LEFields(a: byte, rest: nat, k: nat)
    ensures LE(a + 256 * rest, k + 1) == [a] + LE(rest, k) && LE(rest, 0) == []
  {
    var n := a + 256 * rest;
    assert n % 256 == a && n / 256 == rest;
  }

  lemma {:induction false} UnLEBound(b: bytes)
    ensures UnLE(b) < Pow256(|b|)
  {
    if b != [] {
      UnLEBound(b[1..]);
    }
  }

  // ------------------------------------------------------------------------ decimal

  const CR: byte := 13
  const LF: byte := 10
  const CRLF: bytes := [13, 10]

  /** strconv.AppendInt of a length. */
  function Decimal(n: nat): (s: bytes)
    ensures s != []
  {
    if n < 10 then [48 + n] else Decimal(n / 10) + [48 + n % 10]
  }

  predicate IsDigit(b: byte) {
    48 <= b <= 57
  }

  predicate AllDigits(s: bytes) {
    forall i | 0 <= i < |s| :: IsDigit(s[i])
  }

  function Value(s: bytes): int {
    if s == [] then 0 else 10 * Value(s[..|s| - 1]) + (s[|s| - 1] as int - 48)
  }

  const MaxInt: int := 0x7fff_ffff_ffff_ffff

  /** strconv.Atoi: an optional sign, at least one digit, nothing else, and a value
      that fits 64 bits. */
  function Atoi(s: bytes): (r: Option<int>)
  {
    var signed := s != [] && (s[0] == 43 || s[0] == 45);
    var digits := if signed then s[1..] else s;
    if digits == [] || !AllDigits(digits) then None
    else
      var v := if signed && s[0] == 45 then -Value(digits) else Value(digits);
      if -MaxInt - 1 <= v <= MaxInt then Some(v) else None
  }

  lemma {:induction false} DecimalValue(n: nat)
    ensures AllDigits(Decimal(n)) && Value(Decimal(n)) == n
  {
    if n >= 10 {
      DecimalValue(n / 10);
      var s := Decimal(n);
      assert s[..|s| - 1] == Decimal(n / 10);
    } else {
      assert Decimal(n)[..0] == [];
    }
  }

  /** What AppendInt writes Atoi reads back. */
  lemma DecimalRoundTrip(n: nat)
    ensures Atoi(Decimal(n)) == if n <= MaxInt then Some(n) else None
  {
    DecimalValue(n);
    assert IsDigit(Decimal(n)[0]);
  }

  /** digits: the length of a decimal, counted by division. */
  method Digits(n: nat) returns (d: nat)
    ensures d == |Decimal(n)|
  {
    if n < 10 {
      return 1;
    }
    d := 0;
    var m: nat := n;
    while m > 0
      invariant m > 0 ==> d + |Decimal(m)| == |Decimal(n)|
      invariant m == 0 ==> d == |Decimal(n)|
    {
      d := d + 1;
      m := m / 10;
    }
  }
}
