/** Compact big numbers (src/bignum.h): a size byte and the three top bytes of the MPI form. */
module CompactNumber {
  import opened Numbers
  import opened Numerals

  const TWO24: nat := 0x100_0000

  /** The number of bytes of the MPI form. */
  function Size(n: nat): nat { |Mpi(n)| }

  function ByteOr0(bytes: seq<nat>, i: nat): nat { if i < |bytes| then bytes[i] else 0 }

  /** For numbers whose size fits the size byte. */
  function GetCompact(n: nat): nat {
    var m := Mpi(n);
    |m| * TWO24 + ByteOr0(m, 0) * 0x10000 + ByteOr0(m, 1) * 0x100 + ByteOr0(m, 2)
  }

  /** The bytes that a compact number stands for: its mantissa, cut or filled with zeros to its size. */
  function Expand(compact: nat): (m: seq<nat>)
    requires compact / TWO24 < 256
  {
    var size := compact / TWO24;
    seq(size, i requires 0 <= i < size =>
      if i == 0 then compact / 0x10000 % 256 else if i == 1 then compact / 0x100 % 256 else if i ==
        2 then compact % 256 else 0)
  }

  function SetCompact(compact: nat): int
    requires compact / TWO24 < 256
  {
    FromMpi(Expand(compact))
  }

  // ---------------------------------------------------------------- what survives

  /** All but the three top bytes made zero. */
  function Cut(m: seq<nat>): (r: seq<nat>)
    ensures |r| == |m|
  {
    seq(|m|, i requires 0 <= i < |m| => if i < 3 then m[i] else 0)
  }

  lemma CompactParts(size: nat, a: nat, b: nat, c: nat)
    requires a < 256 && b < 256 && c < 256
    ensures
      var x := size * TWO24 + a * 0x10000 + b * 0x100 + c;
      x / TWO24 == size && x / 0x10000 % 256 == a && x / 0x100 % 256 == b && x % 256 == c
  {
    var x := size * TWO24 + a * 0x10000 + b * 0x100 + c;
    Quotient(x, TWO24, size, a * 0x10000 + b * 0x100 + c);
    Quotient(x, 0x10000, size * 256 + a, b * 0x100 + c);
    Quotient(size * 256 + a, 256, size, a);
    Quotient(x, 0x100, size * 0x10000 + a * 256 + b, c);
    Quotient(size * 0x10000 + a * 256 + b, 256, size * 256 + a, b);
  }

  /** Expanding the compact form gives the bytes back, but for the cut. */
  lemma ExpandGet(n: nat)
    requires Size(n) < 256
    ensures GetCompact(n) / TWO24 == Size(n) && Expand(GetCompact(n)) == Cut(Mpi(n))
  {
    var m := Mpi(n);
    MpiFacts(n);
    CompactParts(|m|, ByteOr0(m, 0), ByteOr0(m, 1), ByteOr0(m, 2));
  }

  lemma CutIsCanonical(m: seq<nat>)
    requires Canonical(m)
    ensures Canonical(Cut(m)) && FromMpi(Cut(m)) == Value(256, Cut(m))
  {
  }

  ghost function RoundTrip(n: nat): int
    requires Size(n) < 256
  {
    ExpandGet(n);
    SetCompact(GetCompact(n))
  }

  lemma RoundTripValue(n: nat)
    requires Size(n) < 256
    ensures RoundTrip(n) == Value(256, Cut(Mpi(n)))
    ensures Mpi(Value(256, Cut(Mpi(n)))) == Cut(Mpi(n))
  {
    MpiFacts(n);
    ExpandGet(n);
    CutIsCanonical(Mpi(n));
    MpiOfValue(Cut(Mpi(n)));
  }

  /** The value of the three top bytes, and the step to which the round trip rounds. */
  ghost function Top(n: nat): nat { Value(256, if Size(n) < 3 then Mpi(n) else Mpi(n)[..3]) }
  ghost function Unit(n: nat): nat { if Size(n) < 3 then 1 else Power(256, Size(n) - 3) }

  /** The round trip keeps the three top bytes: it rounds down to a multiple of 256^(size - 3), and is
    * exact below three bytes. */
  lemma RoundsDown(n: nat)
    requires Size(n) < 256
    ensures RoundTrip(n) == Top(n) * Unit(n)
    ensures 0 <= RoundTrip(n) <= n && n - RoundTrip(n) < Unit(n)
  {
    RoundTripValue(n);
    MpiFacts(n);
    CutTop(n);
  }

  lemma CutTop(n: nat)
    requires AreDigits(256, Mpi(n)) && Value(256, Mpi(n)) == n
    ensures Value(256, Cut(Mpi(n))) == Top(n) * Unit(n) <= n < Top(n) * Unit(n) + Unit(n)
  {
    if Size(n) < 3 { assert Cut(Mpi(n)) == Mpi(n); } else { CutValue(256, Mpi(n), 3); }
  }

  lemma CutValue(b: nat, m: seq<nat>, k: nat)
    requires b >= 2 && AreDigits(b, m) && k == 3 <= |m|
    ensures
      var high, step := Value(b, m[..k]), Power(b, |m| - k);
      Value(b, Cut(m)) == high * step <= Value(b, m) < high * step + step
  {
    var high, low, zeros := m[..k], m[k..], Repeat(0, |m| - k);
    assert m == high + low && Cut(m) == high + zeros;
    ValueSplit(b, high, low);
    ValueSplit(b, high, zeros);
    LeadingZeros(b, |low|, []);
    assert zeros + [] == zeros;
  }

  /** The compact form itself is unchanged by the round trip. */
  lemma CompactStable(n: nat)
    requires Size(n) < 256
    ensures RoundTrip(n) >= 0 && Size(RoundTrip(n)) == Size(n) && GetCompact(RoundTrip(n)) == GetCompact(n)
  {
    RoundsDown(n);
    RoundTripValue(n);
  }

  // ---------------------------------------------------------------- monotone

  /** Fewer bytes, smaller number. */
  lemma SmallerSize(m: seq<nat>, w: seq<nat>)
    requires Canonical(m) && Canonical(w) && |m| < |w|
    ensures Value(256, m) < Value(256, w)
  {
    UpperBound(m);
    LowerBound(w);
    PowerPositive(256, |w| - 1);
    PowerGrows(|m|, |w| - 1);
  }

  /** Twice the value of a canonical numeral of k bytes is below 256^k. */
  lemma {:induction false} UpperBound(m: seq<nat>)
    requires Canonical(m)
    ensures m != [] ==> 2 * Value(256, m) < Power(256, |m|)
    ensures m == [] ==> Value(256, m) == 0
  {
    if m != [] {
      ValueSplit(256, [m[0]], m[1..]);
      assert m == [m[0]] + m[1..];
      assert Value(256, [m[0]]) == m[0] by { assert [m[0]][..0] == []; }
      var p := Power(256, |m| - 1);
      assert Power(256, |m|) == 256 * p;
      assert m[0] * p <= 127 * p by { PowerPositive(256, |m| - 1); Scale(m[0], 127, p); }
    }
  }

  /** ... and at least 256^(k - 1). */
  lemma LowerBound(w: seq<nat>)
    requires Canonical(w) && w != []
    ensures 2 * Value(256, w) >= Power(256, |w| - 1)
  {
    var n := |w| - 1;
    assert w == [w[0]] + w[1..];
    ValueSplit(256, [w[0]], w[1..]);
    assert Value(256, [w[0]]) == w[0] by { assert [w[0]][..0] == []; }
    PowerPositive(256, n);
    if w[0] > 0 {
      Scale(1, w[0], Power(256, n));
    } else {
      var v := w[1..];
      assert v == [v[0]] + v[1..];
      ValueSplit(256, [v[0]], v[1..]);
      assert Value(256, [v[0]]) == v[0] by { assert [v[0]][..0] == []; }
      assert Power(256, n) == 256 * Power(256, n - 1);
      PowerPositive(256, n - 1);
      Scale(128, v[0], Power(256, n - 1));
    }
  }

  lemma Scale(a: nat, b: nat, p: nat)
    requires a <= b
    ensures a * p <= b * p
  {
  }

  lemma {:induction false} PowerGrows(i: nat, j: nat)
    requires i <= j
    ensures Power(256, i) <= Power(256, j)
    decreases j
  {
    if i < j { PowerGrows(i, j - 1); PowerPositive(256, j - 1); }
  }

  lemma SizeMonotone(x: nat, y: nat)
    requires x <= y
    ensures Size(x) <= Size(y)
  {
    MpiFacts(x);
    MpiFacts(y);
    if Size(x) > Size(y) { SmallerSize(Mpi(y), Mpi(x)); }
  }

  lemma Monotone(x: nat, y: nat)
    requires x <= y && Size(y) < 256
    ensures Size(x) < 256 && RoundTrip(x) <= RoundTrip(y)
  {
    SizeMonotone(x, y);
    RoundsDown(x);
    RoundsDown(y);
    if Size(x) < Size(y) {
      CompactStable(y);
      if RoundTrip(y) < x { SizeMonotone(RoundTrip(y), x); }
    } else {
      SameSteps(x, y, Top(x), Top(y), Unit(x));
    }
  }

  lemma SameSteps(x: nat, y: nat, a: nat, b: nat, p: nat)
    requires x <= y && a * p <= x < a * p + p && b * p <= y < b * p + p
    ensures a * p <= b * p
  {
    if a > b { Scale(b + 1, a, p); }
  }

  // ---------------------------------------------------------------- in plain numbers

  /** A mantissa of three bytes brought to a size: multiplied up, or cut down. */
  ghost function Scaled(mantissa: nat, size: nat): nat {
    PowerPositive(256, if size >= 3 then 0 else 3 - size);
    if size >= 3 then mantissa * Power(256, size - 3) else mantissa / Power(256, 3 - size)
  }

  /** A number brought to three bytes: cut down, or multiplied up. */
  ghost function Reduced(n: nat, size: nat): nat {
    PowerPositive(256, if size >= 3 then size - 3 else 0);
    if size >= 3 then n / Power(256, size - 3) else n * Power(256, 3 - size)
  }

  /** The size is the least number of bytes that leaves the top bit clear. */
  lemma SizeIs(n: nat)
    ensures 2 * n < Power(256, Size(n)) || n == 0 == Size(n)
    ensures n > 0 ==> Size(n) > 0 && Power(256, Size(n) - 1) <= 2 * n
  {
    MpiFacts(n);
    UpperBound(Mpi(n));
    if n > 0 { LowerBound(Mpi(n)); }
  }

  /** The compact form is the size times 2^24, plus the number cut down or multiplied up to three bytes. */
  lemma CompactIs(n: nat)
    ensures GetCompact(n) == Size(n) * 0x100_0000 + Reduced(n, Size(n))
  {
    var m := Mpi(n);
    MpiFacts(n);
    if |m| >= 3 {
      var step := Power(256, |m| - 3);
      CutValue(256, m, 3);
      ThreeBytes(m[..3]);
      PowerPositive(256, |m| - 3);
      var high := Value(256, m[..3]);
      Commutes(high, step);
      Quotient(n, step, high, n - high * step);
    } else {
      FewBytes(m);
    }
  }

  lemma Commutes(a: nat, b: nat)
    ensures a * b == b * a
  {
  }

  lemma ThreeBytes(m: seq<nat>)
    requires |m| == 3
    ensures Value(256, m) == m[0] * 0x10000 + m[1] * 0x100 + m[2]
  {
    assert m[..2][..1] == [m[0]] && m[..2] == [m[0], m[1]] && [m[0]][..0] == [];
    assert Value(256, m[..2]) == Value(256, m[..2][..1]) * 256 + m[1];
    assert Value(256, [m[0]]) == m[0];
  }

  lemma FewBytes(m: seq<nat>)
    requires |m| < 3
    ensures Value(256, m) * Power(256, 3 - |m|) == ByteOr0(m, 0) * 0x10000 + ByteOr0(m, 1) * 0x100 + ByteOr0(m, 2)
  {
    assert Power(256, 1) == 256 && Power(256, 2) == 0x10000 && Power(256, 3) == 0x100_0000;
    if |m| == 1 { assert m[..0] == []; }
    if |m| == 2 { assert m[..1] == [m[0]] && [m[0]][..0] == []; }
  }

  /** What a compact number stands for: its mantissa, scaled to its size; bit 23 is a sign. */
  lemma SetCompactIs(compact: nat)
    requires compact < 0x1_0000_0000
    ensures
      var size, mantissa := compact / 0x100_0000, compact % 0x100_0000;
      SetCompact(compact) ==
        if mantissa >= 0x80_0000 then -(Scaled(mantissa - 0x80_0000, size) as int) else Scaled(mantissa, size)
  {
    var size, mantissa := compact / 0x100_0000, compact % 0x100_0000;
    var a, b, c := mantissa / 0x10000, mantissa / 0x100 % 256, mantissa % 256;
    Mantissa(compact);
    var m := Expand(compact);
    assert m == Filled(a, b, c, size);
    if size > 0 && a >= 0x80 {
      assert m[0 := a - 0x80] == Filled(a - 0x80, b, c, size);
      FilledValue(a - 0x80, b, c, size);
    } else {
      FilledValue(a, b, c, size);
      if size == 0 { SmallScale(mantissa); }
    }
  }

  lemma SmallScale(mantissa: nat)
    requires mantissa < 0x100_0000
    ensures Scaled(mantissa, 0) == 0 && (mantissa >= 0x80_0000 ==> Scaled(mantissa - 0x80_0000, 0) == 0)
  {
    assert Power(256, 1) == 256 && Power(256, 2) == 0x10000 && Power(256, 3) == 0x100_0000;
  }

  /** Three bytes, cut or filled with zeros. */
  ghost function Filled(a: nat, b: nat, c: nat, size: nat): (m: seq<nat>)
    ensures |m| == size
  {
    seq(size, i requires 0 <= i < size => if i == 0 then a else if i == 1 then b else if i == 2 then c else 0)
  }

  lemma Mantissa(compact: nat)
    ensures
      var m := compact % 0x100_0000;
      && compact / 0x10000 % 256 == m / 0x10000 && compact / 0x100 % 256 == m / 0x100 % 256
      && compact % 256 == m % 256 && m == m / 0x10000 * 0x10000 + m / 0x100 % 256 * 0x100 + m % 256
  {
    var size, m := compact / 0x100_0000, compact % 0x100_0000;
    var a, b, c := m / 0x10000, m / 0x100 % 256, m % 256;
    DivDiv(m, 0x100, 0x100);
    assert m == a * 0x10000 + b * 0x100 + c;
    CompactParts(size, a, b, c);
  }

  lemma FilledValue(a: nat, b: nat, c: nat, size: nat)
    requires a < 256 && b < 256 && c < 256
    ensures Value(256, Filled(a, b, c, size)) == Scaled(a * 0x10000 + b * 0x100 + c, size)
  {
    var m := Filled(a, b, c, size);
    assert Power(256, 1) == 256 && Power(256, 2) == 0x10000 && Power(256, 3) == 0x100_0000;
    if size >= 3 {
      var zeros := Repeat(0, size - 3);
      assert m == [a, b, c] + zeros;
      ValueSplit(256, [a, b, c], zeros);
      ThreeBytes([a, b, c]);
      LeadingZeros(256, size - 3, []);
      assert zeros + [] == zeros;
    } else if size == 2 {
      assert m == [a, b] && m[..1] == [a] && [a][..0] == [];
      assert Value(256, [a]) == a && Value(256, m) == a * 256 + b;
      Quotient(a * 0x10000 + b * 0x100 + c, 0x100, a * 0x100 + b, c);
    } else if size == 1 {
      assert m == [a] && m[..0] == [];
      Quotient(a * 0x10000 + b * 0x100 + c, 0x10000, a, b * 0x100 + c);
    } else {
      Quotient(a * 0x10000 + b * 0x100 + c, 0x100_0000, 0, a * 0x10000 + b * 0x100 + c);
    }
  }
}
