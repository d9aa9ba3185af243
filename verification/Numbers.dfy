/** Powers of two, single bits of a number, and division facts. */
module Numbers {

  const TWO64: nat := 0x1_0000_0000_0000_0000

  function Min(a: int, b: int): int { if a < b then a else b }
  function Max(a: int, b: int): int { if a < b then b else a }

  function Power2(n: nat): (p: nat)
    ensures p > 0
  {
    if n == 0 then 1 else 2 * Power2(n - 1)
  }

  predicate BitAt(x: nat, i: nat) { x / Power2(i) % 2 == 1 }

  lemma {:induction false} PowerSum(a: nat, b: nat)
    ensures Power2(a + b) == Power2(a) * Power2(b)
  {
    if a > 0 { PowerSum(a - 1, b); }
  }

  /** Dividing twice. */
  lemma DivDiv(x: nat, a: nat, b: nat)
    requires a > 0 && b > 0
    ensures a * b > 0 && x / (a * b) == x / a / b
  {
    var q, r := x / a, x % a;
    var q2, r2 := q / b, q % b;
    assert x == a * (b * q2 + r2) + r;
    assert a * (b * q2 + r2) == a * b * q2 + a * r2;
    assert 0 <= a * r2 + r < a * b by { LessProduct(a, b, r, r2); }
    Quotient(x, a * b, q2, a * r2 + r);
  }

  lemma LessProduct(a: nat, b: nat, r: nat, r2: nat)
    requires r < a && r2 < b
    ensures a * r2 + r < a * b
  {
    assert a * r2 <= a * (b - 1);
  }

  lemma Quotient(x: nat, d: nat, q: nat, r: nat)
    requires d > 0 && x == d * q + r && r < d
    ensures x / d == q && x % d == r
  {
    var q', r' := x / d, x % d;
    assert x == d * q' + r';
    if q < q' { Step(d, q, q'); } else if q' < q { Step(d, q', q); }
  }

  lemma Step(d: nat, a: nat, b: nat)
    requires a < b
    ensures d * a + d <= d * b
  {
    assert d * b - d * a == d * (b - a);
    assert d * (b - a) >= d * 1 by { if b - a > 1 { assert d * (b - a) == d + d * (b - a - 1); } }
  }

  /** Bits below w do not see what lies above. */
  lemma LowBit(q: nat, r: nat, w: nat, k: nat)
    requires k < w && r < Power2(w)
    ensures BitAt(q * Power2(w) + r, k) == BitAt(r, k)
  {
    var p, m := Power2(k), Power2(w - k - 1);
    PowerSum(k, w - k);
    Parity(q, r, p, m);
  }

  lemma Parity(q: nat, r: nat, p: nat, m: nat)
    requires p > 0
    ensures (q * (p * (2 * m)) + r) / p % 2 == r / p % 2
  {
    var d := r / p;
    Shuffle(q, p, 2 * m);
    Shuffle(q, 2, m);
    SplitOff(q * (p * (2 * m)) + r, p, q * m, d, r % p);
  }

  lemma SplitOff(x: nat, p: nat, a: nat, d: nat, r: nat)
    requires p > 0 && r < p && x == p * (2 * a) + (p * d + r)
    ensures x / p % 2 == d % 2
  {
    assert p * (2 * a) + p * d == p * (2 * a + d);
    Quotient(x, p, 2 * a + d, r);
  }

  lemma Shuffle(a: nat, b: nat, c: nat)
    ensures a * (b * c) == b * (a * c)
  {
  }
}
