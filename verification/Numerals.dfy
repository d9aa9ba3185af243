/** Positional numerals in any base, the most significant digit first, and the byte format in which
  * OpenSSL reads and writes big numbers (MPI, without its length prefix): base 256 with the top bit of
  * the first byte as the sign.
  */
module Numerals {
  import opened Numbers

  function Value(b: nat, ds: seq<nat>): nat {
    if ds == [] then 0 else Value(b, ds[..|ds| - 1]) * b + ds[|ds| - 1]
  }

  /** The numeral of n without leading zeros; zero has no digits. */
  function Digits(b: nat, n: nat): (ds: seq<nat>)
    requires b >= 2
    decreases n
  {
    if n == 0 then [] else DivSmaller(n, b); Digits(b, n / b) + [n % b]
  }

  predicate AreDigits(b: nat, ds: seq<nat>) { forall i :: 0 <= i < |ds| ==> ds[i] < b }

  predicate NoLeadingZero(ds: seq<nat>) { ds == [] || ds[0] > 0 }

  lemma DivSmaller(n: nat, b: nat)
    requires n > 0 && b >= 2
    ensures 0 <= n / b < n && n == b * (n / b) + n % b && 0 <= n % b < b
  {
    var q := n / b;
    assert n == b * q + n % b;
    if q >= n { Twice(b, q); }
  }

  lemma Twice(b: nat, q: nat)
    requires b >= 2
    ensures b * q >= 2 * q
  {
    assert b * q == 2 * q + (b - 2) * q;
  }

  lemma DigitsFacts(b: nat, n: nat)
    requires b >= 2
    ensures Value(b, Digits(b, n)) == n && AreDigits(b, Digits(b, n)) && NoLeadingZero(Digits(b, n))
  {
    ValueOfDigits(b, n);
    DigitsInRange(b, n);
    DigitsStart(b, n);
  }

  lemma {:induction false} ValueOfDigits(b: nat, n: nat)
    requires b >= 2
    ensures Value(b, Digits(b, n)) == n
    decreases n
  {
    if n > 0 {
      DivSmaller(n, b);
      ValueOfDigits(b, n / b);
      ValueNext(b, Digits(b, n / b), n % b);
    }
  }

  lemma ValueNext(b: nat, ds: seq<nat>, d: nat)
    ensures Value(b, ds + [d]) == b * Value(b, ds) + d
  {
    assert (ds + [d])[..|ds|] == ds;
  }

  lemma {:induction false} DigitsInRange(b: nat, n: nat)
    requires b >= 2
    ensures AreDigits(b, Digits(b, n))
    decreases n
  {
    if n > 0 {
      DivSmaller(n, b);
      DigitsInRange(b, n / b);
    }
  }

  lemma {:induction false} DigitsStart(b: nat, n: nat)
    requires b >= 2
    ensures NoLeadingZero(Digits(b, n)) && (n > 0 ==> Digits(b, n) != [])
    decreases n
  {
    if n > 0 {
      DivSmaller(n, b);
      DigitsStart(b, n / b);
      if n / b == 0 { assert b * (n / b) == 0; }
    }
  }

  /** A numeral without leading zeros is the numeral of its value. */
  lemma {:induction false} DigitsOfValue(b: nat, ds: seq<nat>)
    requires b >= 2 && AreDigits(b, ds) && NoLeadingZero(ds)
    ensures Digits(b, Value(b, ds)) == ds
  {
    if ds != [] {
      var front, last := ds[..|ds| - 1], ds[|ds| - 1];
      DigitsOfValue(b, front);
      var v := Value(b, ds);
      PositiveValue(b, ds);
      Quotient(v, b, Value(b, front), last);
      assert ds == front + [last];
    }
  }

  lemma {:induction false} PositiveValue(b: nat, ds: seq<nat>)
    requires b >= 2 && ds != [] && ds[0] > 0
    ensures Value(b, ds) > 0
  {
    if |ds| > 1 {
      PositiveValue(b, ds[..|ds| - 1]);
      assert Value(b, ds[..|ds| - 1]) * b > 0;
    }
  }

  function Repeat(d: nat, n: nat): (ds: seq<nat>)
    ensures |ds| == n
  {
    seq(n, _ => d)
  }

  /** Leading zeros count for nothing. */
  lemma {:induction false} LeadingZeros(b: nat, n: nat, ds: seq<nat>)
    ensures Value(b, Repeat(0, n) + ds) == Value(b, ds)
    decreases |ds|, n
  {
    var all := Repeat(0, n) + ds;
    if ds != [] {
      LeadingZeros(b, n, ds[..|ds| - 1]);
      assert all[..|all| - 1] == Repeat(0, n) + ds[..|ds| - 1];
    } else if n > 0 {
      LeadingZeros(b, n - 1, ds);
      assert all[..|all| - 1] == Repeat(0, n - 1) + ds;
    }
  }

  function Power(b: nat, n: nat): nat { if n == 0 then 1 else b * Power(b, n - 1) }

  lemma {:induction false} PowerPositive(b: nat, n: nat)
    requires b >= 1
    ensures Power(b, n) >= 1
  {
    if n > 0 { PowerPositive(b, n - 1); }
  }

  /** Cutting a numeral in two. */
  lemma {:induction false} ValueSplit(b: nat, high: seq<nat>, low: seq<nat>)
    requires b >= 2 && AreDigits(b, low)
    ensures Value(b, high + low) == Value(b, high) * Power(b, |low|) + Value(b, low)
    ensures Value(b, low) < Power(b, |low|)
    decreases |low|
  {
    if low == [] {
      assert high + low == high;
    } else {
      var n := |low| - 1;
      ValueSplit(b, high, low[..n]);
      assert (high + low)[..|high| + n] == high + low[..n];
      Distribute(Value(b, high), Power(b, n), Value(b, low[..n]), b);
      Bounded(Value(b, low[..n]), Power(b, n), b, low[n]);
    }
  }

  lemma Distribute(h: nat, p: nat, v: nat, b: nat)
    ensures (h * p + v) * b == h * (b * p) + v * b
  {
    assert (h * p) * b == h * (b * p);
  }

  lemma Bounded(v: nat, p: nat, b: nat, d: nat)
    requires v < p && d < b
    ensures v * b + d < b * p
  {
    assert b * p == b * (v + 1) + b * (p - v - 1);
    assert b * (p - v - 1) >= 0;
  }

  // ---------------------------------------------------------------- MPI

  const BYTE: nat := 256

  /** The bytes written for a number that is not negative: a zero byte keeps the sign bit clear. */
  function Mpi(n: nat): seq<nat> {
    var ds := Digits(BYTE, n);
    if ds != [] && ds[0] >= 0x80 then [0] + ds else ds
  }

  /** The number read from bytes. */
  function FromMpi(bytes: seq<nat>): int {
    if bytes != [] && bytes[0] >= 0x80 then -(Value(BYTE, bytes[0 := bytes[0] - 0x80]) as int) else Value(BYTE, bytes)
  }

  /** The bytes that are written for some number. */
  predicate Canonical(bytes: seq<nat>) {
    AreDigits(BYTE, bytes) && (bytes == [] || 0 < bytes[0] < 0x80 || (|bytes| >= 2 && bytes[0] == 0 &&
      bytes[1] >= 0x80))
  }

  lemma MpiFacts(n: nat)
    ensures Canonical(Mpi(n)) && Value(BYTE, Mpi(n)) == n && FromMpi(Mpi(n)) == n
  {
    DigitsFacts(BYTE, n);
    MpiBytes(Digits(BYTE, n), Mpi(n));
    CanonicalReads(Mpi(n));
  }

  lemma MpiBytes(ds: seq<nat>, bytes: seq<nat>)
    requires AreDigits(BYTE, ds) && (ds != [] ==> ds[0] > 0)
    requires bytes == if ds != [] && ds[0] >= 0x80 then [0] + ds else ds
    ensures Canonical(bytes) && Value(BYTE, bytes) == Value(BYTE, ds)
  {
    if ds != [] && ds[0] >= 0x80 {
      LeadingZeros(BYTE, 1, ds);
      assert Repeat(0, 1) == [0];
    }
  }

  /** Canonical bytes have the sign bit clear. */
  lemma CanonicalReads(bytes: seq<nat>)
    requires Canonical(bytes)
    ensures FromMpi(bytes) == Value(BYTE, bytes)
  {
  }

  lemma MpiOfValue(bytes: seq<nat>)
    requires Canonical(bytes)
    ensures Mpi(Value(BYTE, bytes)) == bytes
  {
    if bytes != [] && bytes[0] == 0 { MpiOfPadded(bytes[1..]); assert bytes == [0] + bytes[1..]; }
    else { DigitsOfValue(BYTE, bytes); }
  }

  lemma MpiOfPadded(ds: seq<nat>)
    requires AreDigits(BYTE, ds) && ds != [] && ds[0] >= 0x80
    ensures Mpi(Value(BYTE, [0] + ds)) == [0] + ds
  {
    LeadingZeros(BYTE, 1, ds);
    assert Repeat(0, 1) == [0];
    DigitsOfValue(BYTE, ds);
  }
}
