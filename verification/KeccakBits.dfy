/** What the lanes and the step mappings of KeccakPlain.dfy stand for: the 64-bit machine words of
  * src/keccak.c, and the bits of FIPS 202 in its own coordinates (sections 3.2.1 to 3.2.5).
  */
module KeccakBits {
  import opened Numbers
  import opened KeccakPlain

  // ---------------------------------------------------------------- words as numbers

  /** The number whose binary digits these are, the least significant first. */
  function Number(bits: seq<bool>): nat {
    if bits == [] then 0 else (if bits[0] then 1 else 0) + 2 * Number(bits[1..])
  }

  lemma {:induction false} NumberJoin(a: seq<bool>, b: seq<bool>)
    ensures Number(a + b) == Number(a) + Power2(|a|) * Number(b)
  {
    if a == [] {
      assert a + b == b;
    } else {
      assert (a + b)[1..] == a[1..] + b;
      NumberJoin(a[1..], b);
      Regroup(Power2(|a| - 1), Number(b));
    }
  }

  lemma Regroup(p: nat, n: nat)
    ensures 2 * (p * n) == 2 * p * n
  {
  }

  lemma {:induction false} NumberBound(bits: seq<bool>)
    ensures Number(bits) < Power2(|bits|)
  {
    if bits != [] { NumberBound(bits[1..]); }
  }

  /** Entry z of a word is its bit of weight 2^z. */
  lemma EntryIsBit(bits: seq<bool>, z: nat)
    requires z < |bits|
    ensures BitAt(Number(bits), z) <==> bits[z]
  {
    var low, high := bits[..z], bits[z + 1..];
    assert bits == low + ([bits[z]] + high);
    NumberJoin(low, [bits[z]] + high);
    assert ([bits[z]] + high)[1..] == high;
    NumberBound(low);
    MiddleBit(Number(low), Power2(z), bits[z], Number(high));
  }

  lemma MiddleBit(low: nat, p: nat, b: bool, high: nat)
    requires low < p
    ensures (low + p * ((if b then 1 else 0) + 2 * high)) / p % 2 == 1 <==> b
  {
    var q := (if b then 1 else 0) + 2 * high;
    Quotient(low + p * q, p, q, low);
  }

  lemma WordSize()
    ensures Power2(64) == TWO64
  {
    assert Power2(8) == 256;
    PowerSum(8, 8);
    PowerSum(16, 16);
    PowerSum(32, 32);
  }

  /** Rotation to the left is (x << n) | (x >> (64 - n)) on 64-bit words: the shift to the left loses what
    * goes beyond 64 bits, and the two parts have no bit in common. */
  lemma RotationIsShifts(a: Word, n: nat)
    requires n < 64
    ensures Number(Rotl(a, n)) == Number(a) * Power2(n) % TWO64 + Number(a) / Power2(64 - n)
    ensures Number(a) / Power2(64 - n) < Power2(n) && Number(a) * Power2(n) % TWO64 % Power2(n) == 0
  {
    var low, high := a[..64 - n], a[64 - n..];
    assert a == low + high;
    assert Rotl(a, n) == high + low;
    NumberJoin(low, high);
    NumberJoin(high, low);
    NumberBound(low);
    NumberBound(high);
    WordSize();
    PowerSum(n, 64 - n);
    ShiftsOf(Number(low), Number(high), Power2(n), Power2(64 - n));
  }

  lemma ShiftsOf(low: nat, high: nat, p: nat, q: nat)
    requires p > 0 && q > 0 && low < q && high < p && p * q == TWO64
    ensures (low + q * high) * p % TWO64 == p * low && (low + q * high) / q == high && p * low % p == 0
  {
    assert (low + q * high) * p == p * q * high + p * low;
    Step(p, low, q);
    Quotient((low + q * high) * p, TWO64, high, p * low);
    Quotient(low + q * high, q, high, low);
    Quotient(p * low, p, low, 0);
  }

  lemma {:induction false} NumberNot(bits: seq<bool>, flipped: seq<bool>)
    requires |flipped| == |bits| && forall z :: 0 <= z < |bits| ==> flipped[z] == !bits[z]
    ensures Number(flipped) + Number(bits) == Power2(|bits|) - 1
  {
    if bits != [] { NumberNot(bits[1..], flipped[1..]); }
  }

  /** The other operations on words: ~, ^, & and | bit by bit. */
  lemma OperationsAreBitwise(a: Word, b: Word, z: nat)
    requires z < 64
    ensures Number(Not(a)) == TWO64 - 1 - Number(a)
    ensures BitAt(Number(Xor(a, b)), z) <==> BitAt(Number(a), z) != BitAt(Number(b), z)
    ensures BitAt(Number(And(a, b)), z) <==> BitAt(Number(a), z) && BitAt(Number(b), z)
    ensures BitAt(Number(Or(a, b)), z) <==> BitAt(Number(a), z) || BitAt(Number(b), z)
  {
    NumberNot(a, Not(a));
    WordSize();
    EntryIsBit(a, z);
    EntryIsBit(b, z);
    EntryIsBit(Xor(a, b), z);
    EntryIsBit(And(a, b), z);
    EntryIsBit(Or(a, b), z);
  }

  // ---------------------------------------------------------------- the steps, bit by bit

  /** Bit (x, y, z) of a state. */
  function A(s: Lanes, x: nat, y: nat, z: nat): bool
    requires x < 5 && y < 5 && z < 64
  {
    s[5 * y + x][z]
  }

  /** The parity of column (x, z). */
  function C(s: Lanes, x: nat, z: nat): bool
    requires x < 5 && z < 64
  {
    A(s, x, 0, z) != (A(s, x, 1, z) != (A(s, x, 2, z) != (A(s, x, 3, z) != A(s, x, 4, z))))
  }

  /** Theta adds the parities of column (x - 1, z) and column (x + 1, z - 1). */
  lemma ThetaOnBits(s: Lanes, x: nat, y: nat, z: nat)
    requires x < 5 && y < 5 && z < 64
    ensures A(Theta(s), x, y, z) == (A(s, x, y, z) != (C(s, (x + 4) % 5, z) != C(s, (x + 1) % 5, (z + 63) % 64)))
  {
    assert (5 * y + x) % 5 == x;
    ParityOnBits(s, (x + 4) % 5, z);
    ParityOnBits(s, (x + 1) % 5, (z + 63) % 64);
  }

  lemma ParityOnBits(s: Lanes, x: nat, z: nat)
    requires x < 5 && z < 64
    ensures KeccakPlain.Parity(s, x)[z] == C(s, x, z)
  {
  }

  /** Rho turns the lanes along its walk by the triangular numbers, and leaves lane (0, 0). */
  lemma RhoOnBits(s: Lanes, t: nat, z: nat)
    requires t < 24 && z < 64
    ensures Rho(s)[Walk(t)][z] == s[Walk(t)][(z - (t + 1) * (t + 2) / 2) % 64]
    ensures Rho(s)[0] == s[0]
  {
    OffsetsAreTriangular(t);
    var n := (t + 1) * (t + 2) / 2;
    BackBy(z, n);
    assert Rotl(s[0], 0) == s[0];
  }

  lemma BackBy(z: nat, n: nat)
    requires z < 64
    ensures (z + 64 - n % 64) % 64 == (z - n) % 64
  {
  }

  /** Pi moves whole lanes: lane (x, y) comes from lane (x + 3y, x). */
  lemma PiOnBits(s: Lanes, x: nat, y: nat, z: nat)
    requires x < 5 && y < 5 && z < 64
    ensures A(Pi(s), x, y, z) == A(s, (x + 3 * y) % 5, x, z)
  {
    PiFormula(x, y);
    assert 5 * y + x == x + 5 * y;
  }

  /** Chi adds to each bit a product of the next two in its row. */
  lemma ChiOnBits(s: Lanes, x: nat, y: nat, z: nat)
    requires x < 5 && y < 5 && z < 64
    ensures A(Chi(s), x, y, z) == (A(s, x, y, z) != (!A(s, (x + 1) % 5, y, z) && A(s, (x + 2) % 5, y, z)))
  {
    Coordinates(x, y);
    assert Chi(s)[5 * y + x] == ChiLane(s, x, y);
  }

  lemma Coordinates(x: nat, y: nat)
    requires x < 5 && y < 5
    ensures (5 * y + x) % 5 == x && (5 * y + x) / 5 == y
  {
  }

  /** The shift register that section 3.2.5 defines, after t steps. */
  function Stepped(t: nat): bv8 { if t == 0 then 1 else Shift(Stepped(t - 1)) }

  /** Output bit t. */
  function Rc(t: nat): bool { Stepped(t) & 1 == 1 }

  lemma {:induction false} RegisterIsStepped(i: nat)
    requires i <= 24
    ensures Register(i) == Stepped(7 * i)
  {
    if i > 0 {
      RegisterIsStepped(i - 1);
      NextRegister(i - 1);
      SevenStepsFrom(7 * (i - 1), Register(i - 1), Register(i));
    }
  }

  lemma SevenStepsFrom(t: nat, r: bv8, r': bv8)
    requires r == Stepped(t) && r' == Shift7(r)
    ensures r' == Stepped(t + 7)
  {
    SevenSteps(t);
  }

  lemma NextRegister(i: nat)
    requires i < 24
    ensures Register(i + 1) == Shift7(Register(i))
  {
    ConstantsFromRegister(i);
  }

  lemma SevenSteps(t: nat)
    ensures Stepped(t + 7) == Shift7(Stepped(t))
  {
    assert Stepped(t + 3) == Shift(Stepped(t + 2)) && Stepped(t + 2) == Shift(Stepped(t + 1));
    assert Stepped(t + 6) == Shift(Stepped(t + 5)) && Stepped(t + 5) == Shift(Stepped(t + 4));
  }

  /** Bit z of the constant that the register r gives. */
  function ConstantBit(r: bv8, z: nat): bool {
    match z
    case 0 => r & 1 == 1
    case 1 => Shift(r) & 1 == 1
    case 3 => Shift(Shift(r)) & 1 == 1
    case 7 => Shift(Shift(Shift(r))) & 1 == 1
    case 15 => Shift(Shift(Shift(Shift(r)))) & 1 == 1
    case 31 => Shift(Shift(Shift(Shift(Shift(r))))) & 1 == 1
    case 63 => Shift(Shift(Shift(Shift(Shift(Shift(r)))))) & 1 == 1
    case _ => false
  }

  lemma ConstantBits0(r: bv8, z: nat)
    requires 0 <= z < 8
    ensures WordBit(ConstantFrom(r), z) <==> ConstantBit(r, z)
  {
    match z {
      case 0 => case 1 => case 2 => case 3 => case 4 => case 5 => case 6 => case _ =>
    }
  }

  lemma ConstantBits1(r: bv8, z: nat)
    requires 8 <= z < 16
    ensures WordBit(ConstantFrom(r), z) <==> ConstantBit(r, z)
  {
    match z {
      case 8 => case 9 => case 10 => case 11 => case 12 => case 13 => case 14 => case _ =>
    }
  }

  lemma ConstantBits2(r: bv8, z: nat)
    requires 16 <= z < 24
    ensures WordBit(ConstantFrom(r), z) <==> ConstantBit(r, z)
  {
    match z {
      case 16 => case 17 => case 18 => case 19 => case 20 => case 21 => case 22 => case _ =>
    }
  }

  lemma ConstantBits3(r: bv8, z: nat)
    requires 24 <= z < 32
    ensures WordBit(ConstantFrom(r), z) <==> ConstantBit(r, z)
  {
    match z {
      case 24 => case 25 => case 26 => case 27 => case 28 => case 29 => case 30 => case _ =>
    }
  }

  lemma ConstantBits4(r: bv8, z: nat)
    requires 32 <= z < 40
    ensures WordBit(ConstantFrom(r), z) <==> ConstantBit(r, z)
  {
    match z {
      case 32 => case 33 => case 34 => case 35 => case 36 => case 37 => case 38 => case _ =>
    }
  }

  lemma ConstantBits5(r: bv8, z: nat)
    requires 40 <= z < 48
    ensures WordBit(ConstantFrom(r), z) <==> ConstantBit(r, z)
  {
    match z {
      case 40 => case 41 => case 42 => case 43 => case 44 => case 45 => case 46 => case _ =>
    }
  }

  lemma ConstantBits6(r: bv8, z: nat)
    requires 48 <= z < 56
    ensures WordBit(ConstantFrom(r), z) <==> ConstantBit(r, z)
  {
    match z {
      case 48 => case 49 => case 50 => case 51 => case 52 => case 53 => case 54 => case _ =>
    }
  }

  lemma ConstantBits7(r: bv8, z: nat)
    requires 56 <= z < 60
    ensures WordBit(ConstantFrom(r), z) <==> ConstantBit(r, z)
  {
    match z { case 56 => case 57 => case 58 => case _ => }
  }

  lemma ConstantBits8(r: bv8, z: nat)
    requires 60 <= z < 63
    ensures WordBit(ConstantFrom(r), z) <==> ConstantBit(r, z)
  {
    match z { case 60 => case 61 => case _ => }
  }

  lemma ConstantBits9(r: bv8)
    ensures WordBit(ConstantFrom(r), 63) <==> ConstantBit(r, 63)
  {
    var r1 := Shift(r); var r2 := Shift(r1); var r3 := Shift(r2);
    var r4 := Shift(r3); var r5 := Shift(r4); var r6 := Shift(r5);
    TopBit(r, r1, r2, r3, r4, r5, r6);
  }

  lemma TopBit(r0: bv8, r1: bv8, r2: bv8, r3: bv8, r4: bv8, r5: bv8, r6: bv8)
    ensures
      var v := (r0 & 1) as bv64 | ((r1 & 1) as bv64 << 1) | ((r2 & 1) as bv64 << 3) | ((r3 & 1) as bv64 << 7)
        | ((r4 & 1) as bv64 << 15) | ((r5 & 1) as bv64 << 31) | ((r6 & 1) as bv64 << 63);
      (v >> 63) & 1 == 1 <==> r6 & 1 == 1
  {
  }

  lemma ConstantBits(r: bv8, z: nat)
    requires z < 64
    ensures WordBit(ConstantFrom(r), z) <==> ConstantBit(r, z)
  {
    if z < 8 { ConstantBits0(r, z); }
    else if z < 16 { ConstantBits1(r, z); }
    else if z < 24 { ConstantBits2(r, z); }
    else if z < 32 { ConstantBits3(r, z); }
    else if z < 40 { ConstantBits4(r, z); }
    else if z < 48 { ConstantBits5(r, z); }
    else if z < 56 { ConstantBits6(r, z); }
    else if z < 60 { ConstantBits7(r, z); }
    else if z < 63 { ConstantBits8(r, z); }
    else { ConstantBits9(r); }
  }

  lemma StepsFrom(t: nat)
    ensures Stepped(t + 1) == Shift(Stepped(t))
    ensures Stepped(t + 2) == Shift(Shift(Stepped(t)))
    ensures Stepped(t + 3) == Shift(Shift(Shift(Stepped(t))))
    ensures Stepped(t + 4) == Shift(Shift(Shift(Shift(Stepped(t)))))
    ensures Stepped(t + 5) == Shift(Shift(Shift(Shift(Shift(Stepped(t))))))
    ensures Stepped(t + 6) == Shift(Shift(Shift(Shift(Shift(Shift(Stepped(t)))))))
  {
    assert Stepped(t + 2) == Shift(Stepped(t + 1));
    assert Stepped(t + 4) == Shift(Stepped(t + 3));
  }

  lemma SmallPowers()
    ensures Power2(0) == 1 && Power2(1) == 2 && Power2(2) == 4 && Power2(3) == 8
    ensures Power2(4) == 16 && Power2(5) == 32 && Power2(6) == 64
  {
    assert Power2(2) == 4;
    assert Power2(4) == 16;
  }

  /** Bit 2^j - 1 of the constant of round i is output bit j + 7i, for j up to 6; the others are zero. */
  lemma ConstantOnBits(i: nat, z: nat)
    requires i < 24 && z < 64
    ensures Bits(RC(i))[z] <==> exists j: nat :: j <= 6 && z == Power2(j) - 1 && Rc(j + 7 * i)
  {
    var v, r := ConstantAndRegister(i);
    OutputBits(v, r, 7 * i, z);
  }

  lemma ConstantAndRegister(i: nat) returns (v: bv64, r: bv8)
    requires i < 24
    ensures v == RC(i) && r == Stepped(7 * i) && v == ConstantFrom(r)
  {
    ConstantsFromRegister(i);
    RegisterIsStepped(i);
    v, r := RC(i), Register(i);
  }

  lemma OutputBits(v: bv64, r: bv8, t: nat, z: nat)
    requires z < 64 && v == ConstantFrom(r) && r == Stepped(t)
    ensures Bits(v)[z] <==> exists j: nat :: j <= 6 && z == Power2(j) - 1 && Rc(j + t)
  {
    ConstantBits(r, z);
    BitIsOutput(t, z);
  }

  lemma BitIsOutput(t: nat, z: nat)
    ensures ConstantBit(Stepped(t), z) <==> exists j: nat :: j <= 6 && z == Power2(j) - 1 && Rc(j + t)
  {
    StepsFrom(t);
    SmallPowers();
    if ConstantBit(Stepped(t), z) {
      var j: nat :=
        if z == 0 then 0 else if z == 1 then 1 else if z == 3 then 2 else if z == 7 then 3
        else if z == 15 then 4 else if z == 31 then 5 else 6;
      assert j <= 6 && z == Power2(j) - 1 && Rc(j + t);
    }
    forall j: nat | j <= 6 && z == Power2(j) - 1 && Rc(j + t) ensures ConstantBit(Stepped(t), z) {
      match j { case 0 => case 1 => case 2 => case 3 => case 4 => case 5 => case _ => }
    }
  }

  /** Iota adds the constant to lane (0, 0). */
  lemma IotaOnBits(s: Lanes, constant: Word, x: nat, y: nat, z: nat)
    requires x < 5 && y < 5 && z < 64
    ensures A(Iota(s, constant), x, y, z) == (A(s, x, y, z) != (x == 0 && y == 0 && constant[z]))
  {
  }
}
