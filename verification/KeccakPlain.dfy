/** The Keccak-f[1600] permutation as FIPS 202 defines it (sections 3.2 and 3.3): five step mappings
  * on 25 lanes of 64 bits, lane (x, y) at index x + 5y.
  */
module KeccakPlain {

  /** A 64-bit word by its bits, the least significant first: bit z of a lane is its entry z. */
  type Word = w: seq<bool> | |w| == 64 witness seq(64, _ => false)

  type Lanes = s: seq<Word> | |s| == 25 witness seq(25, _ => seq(64, _ => false))

  function Xor(a: Word, b: Word): Word { seq(64, z requires 0 <= z < 64 => a[z] != b[z]) }
  function And(a: Word, b: Word): Word { seq(64, z requires 0 <= z < 64 => a[z] && b[z]) }
  function Or(a: Word, b: Word): Word { seq(64, z requires 0 <= z < 64 => a[z] || b[z]) }
  function Not(a: Word): Word { seq(64, z requires 0 <= z < 64 => !a[z]) }

  /** Rotation to the left, the direction of increasing z. */
  function Rotl(a: Word, n: nat): Word
    requires n < 64
  {
    seq(64, z requires 0 <= z < 64 => a[(z + 64 - n) % 64])
  }

  predicate WordBit(v: bv64, z: nat)
    requires z < 64
  {
    (v >> z) & 1 == 1
  }

  function Bits(v: bv64): Word { seq(64, z requires 0 <= z < 64 => WordBit(v, z)) }

  /** The parity of column x (step 1 of theta). */
  function Parity(s: Lanes, x: nat): Word
    requires x < 5
  {
    Xor(Xor(Xor(Xor(s[x], s[x + 5]), s[x + 10]), s[x + 15]), s[x + 20])
  }

  function ThetaLane(s: Lanes, k: nat): Word
    requires k < 25
  {
    var x := k % 5;
    Xor(Xor(s[k], Parity(s, (x + 4) % 5)), Rotl(Parity(s, (x + 1) % 5), 1))
  }

  function Theta(s: Lanes): Lanes {
    seq(25, k requires 0 <= k < 25 => ThetaLane(s, k))
  }

  function Rho(s: Lanes): Lanes {
    seq(25, k requires 0 <= k < 25 => Rotl(s[k], Offset(k)))
  }

  /** Lane (x, y) takes the value of lane (x + 3y, x). */
  function Pi(s: Lanes): Lanes {
    seq(25, k requires 0 <= k < 25 => s[PiSource(k)])
  }

  /** Lane (x, y) after chi. */
  function ChiLane(s: Lanes, x: nat, y: nat): Word
    requires x < 5 && y < 5
  {
    Xor(s[5 * y + x], And(Not(s[5 * y + (x + 1) % 5]), s[5 * y + (x + 2) % 5]))
  }

  function Chi(s: Lanes): Lanes {
    seq(25, k requires 0 <= k < 25 => ChiLane(s, k % 5, k / 5))
  }

  function Iota(s: Lanes, constant: Word): Lanes { s[0 := Xor(s[0], constant)] }

  function Round(s: Lanes, constant: Word): Lanes { Iota(Chi(Pi(Rho(Theta(s)))), constant) }

  /** The first n rounds. */
  function Rounds(s: Lanes, n: nat): Lanes
    requires n <= 24
    decreases n, |s|
  {
    if n == 0 then s else Round(Rounds(s, n - 1), Bits(RC(n - 1)))
  }

  function Permute(s: Lanes): Lanes { Rounds(s, 24) }

  function PiSource(k: nat): (j: nat)
    ensures j < 25
  {
    match k
    case 0 => 0 case 1 => 6 case 2 => 12 case 3 => 18 case 4 => 24
    case 5 => 3 case 6 => 9 case 7 => 10 case 8 => 16 case 9 => 22
    case 10 => 1 case 11 => 7 case 12 => 13 case 13 => 19 case 14 => 20
    case 15 => 4 case 16 => 5 case 17 => 11 case 18 => 17 case 19 => 23
    case 20 => 2 case 21 => 8 case 22 => 14 case 23 => 15 case _ => 21
  }

  lemma PiFormula(x: nat, y: nat)
    requires x < 5 && y < 5
    ensures PiSource(x + 5 * y) == (x + 3 * y) % 5 + 5 * x
  {
  }

  /** The rotation offsets of rho, lane by lane. */
  function Offset(k: nat): (n: nat)
    ensures n < 64
  {
    match k
    case 0 => 0 case 1 => 1 case 2 => 62 case 3 => 28 case 4 => 27
    case 5 => 36 case 6 => 44 case 7 => 6 case 8 => 55 case 9 => 20
    case 10 => 3 case 11 => 10 case 12 => 43 case 13 => 25 case 14 => 39
    case 15 => 41 case 16 => 45 case 17 => 15 case 18 => 21 case 19 => 8
    case 20 => 18 case 21 => 2 case 22 => 61 case 23 => 56 case _ => 14
  }

  /** The walk over the lanes by which rho defines its offsets: from (1, 0), each time to (y, 2x + 3y). */
  function Walk(t: nat): (k: nat)
    ensures k < 25
  {
    match t
    case 0 => 1 case 1 => 10 case 2 => 7 case 3 => 11 case 4 => 17 case 5 => 18
    case 6 => 3 case 7 => 5 case 8 => 16 case 9 => 8 case 10 => 21 case 11 => 24
    case 12 => 4 case 13 => 15 case 14 => 23 case 15 => 19 case 16 => 13 case 17 => 12
    case 18 => 2 case 19 => 20 case 20 => 14 case 21 => 22 case 22 => 9 case _ => 6
  }

  lemma WalkFormula(t: nat)
    requires t < 23
    ensures Walk(0) == 1
    ensures Walk(t + 1) == Walk(t) / 5 + (2 * (Walk(t) % 5) + 3 * (Walk(t) / 5)) % 5 * 5
  {
    match t {
      case 0 => case 1 => case 2 => case 3 => case 4 => case 5 =>
      case 6 => case 7 => case 8 => case 9 => case 10 => case 11 =>
      case 12 => case 13 => case 14 => case 15 => case 16 => case 17 =>
      case 18 => case 19 => case 20 => case 21 => case _ =>
    }
  }

  /** The offsets are the triangular numbers along that walk. */
  lemma OffsetsAreTriangular(t: nat)
    requires t < 24
    ensures Offset(Walk(t)) == (t + 1) * (t + 2) / 2 % 64
  {
    if t < 12 { EarlyOffsets(t); } else if t < 18 { MiddleOffsets(t); } else { LateOffsets(t); }
  }

  lemma EarlyOffsets(t: nat)
    requires t < 12
    ensures Offset(Walk(t)) == (t + 1) * (t + 2) / 2 % 64
  {
    match t {
      case 0 => case 1 => case 2 => case 3 => case 4 => case 5 =>
      case 6 => case 7 => case 8 => case 9 => case 10 => case _ =>
    }
  }

  lemma MiddleOffsets(t: nat)
    requires 12 <= t < 18
    ensures Offset(Walk(t)) == (t + 1) * (t + 2) / 2 % 64
  {
    match t { case 12 => case 13 => case 14 => case 15 => case 16 => case _ => }
  }

  lemma LateOffsets(t: nat)
    requires 18 <= t < 24
    ensures Offset(Walk(t)) == (t + 1) * (t + 2) / 2 % 64
  {
    match t { case 18 => case 19 => case 20 => case 21 => case 22 => case _ => }
  }

  /** The round constants. */
  function RC(i: nat): bv64
    requires i < 24
  {
    match i
    case 0 => 0x0000000000000001 case 1 => 0x0000000000008082
    case 2 => 0x800000000000808A case 3 => 0x8000000080008000
    case 4 => 0x000000000000808B case 5 => 0x0000000080000001
    case 6 => 0x8000000080008081 case 7 => 0x8000000000008009
    case 8 => 0x000000000000008A case 9 => 0x0000000000000088
    case 10 => 0x0000000080008009 case 11 => 0x000000008000000A
    case 12 => 0x000000008000808B case 13 => 0x800000000000008B
    case 14 => 0x8000000000008089 case 15 => 0x8000000000008003
    case 16 => 0x8000000000008002 case 17 => 0x8000000000000080
    case 18 => 0x000000000000800A case 19 => 0x800000008000000A
    case 20 => 0x8000000080008081 case 21 => 0x8000000000008080
    case 22 => 0x0000000080000001 case _ => 0x8000000080008008
  }

  /** The shift register behind the round constants, one step. */
  function Shift(r: bv8): bv8 { (r << 1) ^ (if r & 0x80 != 0 then 0x71 else 0) }

  /** Its contents before round i. */
  function Register(i: nat): bv8 {
    match i
    case 0 => 0x01 case 1 => 0x80 case 2 => 0xD8 case 3 => 0x1A case 4 => 0xDF
    case 5 => 0x09 case 6 => 0x35 case 7 => 0x4F case 8 => 0xCA case 9 => 0x70
    case 10 => 0x41 case 11 => 0xEC case 12 => 0xD5 case 13 => 0xCD case 14 => 0x63
    case 15 => 0xAB case 16 => 0xAA case 17 => 0x2A case 18 => 0xF2 case 19 => 0xE8
    case 20 => 0x37 case 21 => 0x3E case 22 => 0x0B case 23 => 0x44 case _ => 0x8E
  }

  function Shift7(r: bv8): bv8 { Shift(Shift(Shift(Shift(Shift(Shift(Shift(r))))))) }

  /** Bit 2^j - 1 of the constant is the low bit of the register after j steps. */
  function ConstantFrom(r0: bv8): bv64 {
    var r1 := Shift(r0); var r2 := Shift(r1); var r3 := Shift(r2);
    var r4 := Shift(r3); var r5 := Shift(r4); var r6 := Shift(r5);
    (r0 & 1) as bv64 | ((r1 & 1) as bv64 << 1) | ((r2 & 1) as bv64 << 3) | ((r3 & 1) as bv64 << 7)
    | ((r4 & 1) as bv64 << 15) | ((r5 & 1) as bv64 << 31) | ((r6 & 1) as bv64 << 63)
  }

  /** The table of round constants is the output of the shift register, seven bits a round. */
  lemma ConstantsFromRegister(i: nat)
    requires i < 24
    ensures Register(0) == 1 && Register(i + 1) == Shift7(Register(i))
    ensures RC(i) == ConstantFrom(Register(i))
  {
    match i {
      case 0 => case 1 => case 2 => case 3 => case 4 => case 5 =>
      case 6 => case 7 => case 8 => case 9 => case 10 => case 11 =>
      case 12 => case 13 => case 14 => case 15 => case 16 => case 17 =>
      case 18 => case 19 => case 20 => case 21 => case 22 => case _ =>
    }
  }
}
