/** The fast form of Keccak-f[1600] (src/keccak.c): lanes updated in place, pi done by renaming lanes
  * from round to round instead of moving them, and six lanes kept complemented between rounds.
  */
module KeccakFast {
  import opened KeccakPlain

  // ---------------------------------------------------------------- renamed lanes

  /** Where the lane called b(x, y), k = x + 5y, is stored before round r of a block of eight.
    * Each line of a table lists b(x, 0), b(x, 1), ..., b(x, 4). */
  function Place(r: nat, k: nat): (j: nat)
    requires r <= 8
    ensures j < 25
  {
    match r
    case 0 => k % 25 case 1 => P1(k) case 2 => P2(k) case 3 => P3(k)
    case 4 => P4(k) case 5 => P5(k) case 6 => P6(k) case 7 => P7(k) case _ => P8(k)
  }

  function P1(k: nat): (j: nat)
    ensures j < 25
  {
    match k
    case 0 => 0 case 5 => 3 case 10 => 1 case 15 => 4 case 20 => 2
    case 1 => 6 case 6 => 9 case 11 => 7 case 16 => 5 case 21 => 8
    case 2 => 12 case 7 => 10 case 12 => 13 case 17 => 11 case 22 => 14
    case 3 => 18 case 8 => 16 case 13 => 19 case 18 => 17 case 23 => 15
    case 4 => 24 case 9 => 22 case 14 => 20 case 19 => 23 case _ => 21
  }

  function P2(k: nat): (j: nat)
    ensures j < 25
  {
    match k
    case 0 => 0 case 5 => 18 case 10 => 6 case 15 => 24 case 20 => 12
    case 1 => 9 case 6 => 22 case 11 => 10 case 16 => 3 case 21 => 16
    case 2 => 13 case 7 => 1 case 12 => 19 case 17 => 7 case 22 => 20
    case 3 => 17 case 8 => 5 case 13 => 23 case 18 => 11 case 23 => 4
    case 4 => 21 case 9 => 14 case 14 => 2 case 19 => 15 case _ => 8
  }

  function P3(k: nat): (j: nat)
    ensures j < 25
  {
    match k
    case 0 => 0 case 5 => 17 case 10 => 9 case 15 => 21 case 20 => 13
    case 1 => 22 case 6 => 14 case 11 => 1 case 16 => 18 case 21 => 5
    case 2 => 19 case 7 => 6 case 12 => 23 case 17 => 10 case 22 => 2
    case 3 => 11 case 8 => 3 case 13 => 15 case 18 => 7 case 23 => 24
    case 4 => 8 case 9 => 20 case 14 => 12 case 19 => 4 case _ => 16
  }

  function P4(k: nat): (j: nat)
    ensures j < 25
  {
    match k
    case 0 => 0 case 5 => 11 case 10 => 22 case 15 => 8 case 20 => 19
    case 1 => 14 case 6 => 20 case 11 => 6 case 16 => 17 case 21 => 3
    case 2 => 23 case 7 => 9 case 12 => 15 case 17 => 1 case 22 => 12
    case 3 => 7 case 8 => 18 case 13 => 4 case 18 => 10 case 23 => 21
    case 4 => 16 case 9 => 2 case 14 => 13 case 19 => 24 case _ => 5
  }

  function P5(k: nat): (j: nat)
    ensures j < 25
  {
    match k
    case 0 => 0 case 5 => 7 case 10 => 14 case 15 => 16 case 20 => 23
    case 1 => 20 case 6 => 2 case 11 => 9 case 16 => 11 case 21 => 18
    case 2 => 15 case 7 => 22 case 12 => 4 case 17 => 6 case 22 => 13
    case 3 => 10 case 8 => 17 case 13 => 24 case 18 => 1 case 23 => 8
    case 4 => 5 case 9 => 12 case 14 => 19 case 19 => 21 case _ => 3
  }

  function P6(k: nat): (j: nat)
    ensures j < 25
  {
    match k
    case 0 => 0 case 5 => 10 case 10 => 20 case 15 => 5 case 20 => 15
    case 1 => 2 case 6 => 12 case 11 => 22 case 16 => 7 case 21 => 17
    case 2 => 4 case 7 => 14 case 12 => 24 case 17 => 9 case 22 => 19
    case 3 => 1 case 8 => 11 case 13 => 21 case 18 => 6 case 23 => 16
    case 4 => 3 case 9 => 13 case 14 => 23 case 19 => 8 case _ => 18
  }

  function P7(k: nat): (j: nat)
    ensures j < 25
  {
    match k
    case 0 => 0 case 5 => 1 case 10 => 2 case 15 => 3 case 20 => 4
    case 1 => 12 case 6 => 13 case 11 => 14 case 16 => 10 case 21 => 11
    case 2 => 24 case 7 => 20 case 12 => 21 case 17 => 22 case 22 => 23
    case 3 => 6 case 8 => 7 case 13 => 8 case 18 => 9 case 23 => 5
    case 4 => 18 case 9 => 19 case 14 => 15 case 19 => 16 case _ => 17
  }

  function P8(k: nat): (j: nat)
    ensures j < 25
  {
    match k
    case 0 => 0 case 5 => 6 case 10 => 12 case 15 => 18 case 20 => 24
    case 1 => 13 case 6 => 19 case 11 => 20 case 16 => 1 case 21 => 7
    case 2 => 21 case 7 => 2 case 12 => 8 case 17 => 14 case 22 => 15
    case 3 => 9 case 8 => 10 case 13 => 16 case 18 => 22 case 23 => 3
    case 4 => 17 case 9 => 23 case 14 => 4 case 19 => 5 case _ => 11
  }

  /** The next table is this one composed with pi: renaming does what pi would do by moving. */
  lemma NextPlace(r: nat, k: nat)
    requires r < 8 && k < 25
    ensures Place(r + 1, k) == Place(r, PiSource(k))
  {
    if r < 4 { EarlyPlace(r, k); } else { LatePlace(r, k); }
  }

  lemma EarlyPlace(r: nat, k: nat)
    requires r < 4 && k < 25
    ensures Place(r + 1, k) == Place(r, PiSource(k))
  {
  }

  lemma LatePlace(r: nat, k: nat)
    requires 4 <= r < 8 && k < 25
    ensures Place(r + 1, k) == Place(r, PiSource(k))
  {
  }

  lemma SourcesDiffer(j: nat, k: nat)
    requires j < 25 && k < 25 && PiSource(j) == PiSource(k)
    ensures j == k
  {
  }

  lemma {:induction false} PlacesDiffer(r: nat, j: nat, k: nat)
    requires r <= 8 && j < 25 && k < 25 && Place(r, j) == Place(r, k)
    ensures j == k
  {
    if r > 0 {
      NextPlace(r - 1, j);
      NextPlace(r - 1, k);
      PlacesDiffer(r - 1, PiSource(j), PiSource(k));
      SourcesDiffer(j, k);
    }
  }

  /** The lanes as round r names them. */
  function Named(s: Lanes, r: nat): Lanes
    requires r <= 8
  {
    seq(25, k requires 0 <= k < 25 => s[Place(r, k)])
  }

  lemma NamedNext(s: Lanes, r: nat)
    requires r < 8
    ensures Named(s, r + 1) == Pi(Named(s, r))
  {
    forall k | 0 <= k < 25 ensures Named(s, r + 1)[k] == Pi(Named(s, r))[k] { NextPlace(r, k); }
  }

  // ---------------------------------------------------------------- complemented lanes

  datatype Moment = Between | AfterTheta | BeforeChi

  /** Which lanes are stored complemented at each moment of a round. */
  predicate Complemented(m: Moment, k: nat) {
    match m
    case Between => k == 1 || k == 2 || k == 8 || k == 12 || k == 17 || k == 20
    case AfterTheta =>
      || k == 0 || k == 5 || k == 10 || k == 15 || k == 1
      || k == 2 || k == 12 || k == 17 || k == 3 || k == 13 || k == 18 || k == 23
    case BeforeChi =>
      || k == 0 || k == 5 || k == 10 || k == 20 || k == 16 || k == 2
      || k == 7 || k == 12 || k == 3 || k == 18 || k == 23 || k == 19
  }

  function FlipLane(m: Moment, k: nat, v: Word): Word { if Complemented(m, k) then Not(v) else v }

  function Flip(m: Moment, s: Lanes): Lanes {
    seq(25, k requires 0 <= k < 25 => FlipLane(m, k, s[k]))
  }

  lemma NotNot(v: Word)
    ensures Not(Not(v)) == v
  {
  }

  lemma FlipTwice(m: Moment, s: Lanes)
    ensures Flip(m, Flip(m, s)) == s
  {
    forall k | 0 <= k < 25 ensures Flip(m, Flip(m, s))[k] == s[k] { NotNot(s[k]); }
  }

  lemma XorNot(a: Word, b: Word)
    ensures Xor(Not(a), b) == Not(Xor(a, b)) && Xor(a, Not(b)) == Not(Xor(a, b)) && Xor(Not(a), Not(b)) == Xor(a, b)
  {
  }

  lemma RotlNot(v: Word, n: nat)
    requires n < 64
    ensures Rotl(Not(v), n) == Not(Rotl(v, n))
  {
  }

  /** The complemented lanes of a column cancel in pairs. */
  function FlipColumn(x: nat, v: Word): Word { if x == 4 then v else Not(v) }

  lemma ParityFlip(s: Lanes, x: nat)
    requires x < 5
    ensures Parity(Flip(Between, s), x) == FlipColumn(x, Parity(s, x))
  {
    var f := Flip(Between, s);
    var p, q := Parity(f, x), FlipColumn(x, Parity(s, x));
    forall z | 0 <= z < 64 ensures p[z] == q[z] {}
  }

  lemma ThetaFlip(s: Lanes)
    ensures Theta(Flip(Between, s)) == Flip(AfterTheta, Theta(s))
  {
    forall k | 0 <= k < 25 ensures Theta(Flip(Between, s))[k] == Flip(AfterTheta, Theta(s))[k] { ThetaFlipAt(s, k); }
  }

  lemma ThetaFlipAt(s: Lanes, k: nat)
    requires k < 25
    ensures ThetaLane(Flip(Between, s), k) == FlipLane(AfterTheta, k, ThetaLane(s, k))
  {
    var west, east := (k % 5 + 4) % 5, (k % 5 + 1) % 5;
    ParityFlip(s, west);
    ParityFlip(s, east);
    ThetaMask(k);
    FlipThree(k, west, east, s[k], Parity(s, west), Parity(s, east));
  }

  lemma FlipThree(k: nat, west: nat, east: nat, a: Word, b: Word, c: Word)
    requires k < 25 && west == (k % 5 + 4) % 5 && east == (k % 5 + 1) % 5
    requires (k % 5 == 0 || k % 5 == 3) <==> (Complemented(AfterTheta, k) != Complemented(Between, k))
    ensures Xor(Xor(FlipLane(Between, k, a), FlipColumn(west, b)), Rotl(FlipColumn(east, c), 1))
      == FlipLane(AfterTheta, k, Xor(Xor(a, b), Rotl(c, 1)))
  {
    RotlNot(c, 1);
    XorNot(a, b);
    XorNot(Xor(a, b), Rotl(c, 1));
  }

  lemma ThetaMask(k: nat)
    requires k < 25
    ensures (k % 5 == 0 || k % 5 == 3) <==> (Complemented(AfterTheta, k) != Complemented(Between, k))
  {
  }

  lemma RhoFlip(m: Moment, s: Lanes)
    ensures Rho(Flip(m, s)) == Flip(m, Rho(s))
  {
    forall k | 0 <= k < 25 ensures Rho(Flip(m, s))[k] == Flip(m, Rho(s))[k] { RotlNot(s[k], Offset(k)); }
  }

  lemma PiFlip(s: Lanes)
    ensures Pi(Flip(AfterTheta, s)) == Flip(BeforeChi, Pi(s))
  {
    forall k | 0 <= k < 25 ensures Complemented(BeforeChi, k) == Complemented(AfterTheta, PiSource(k)) { MaskMoves(k); }
  }

  lemma MaskMoves(k: nat)
    requires k < 25
    ensures Complemented(BeforeChi, k) == Complemented(AfterTheta, PiSource(k))
  {
  }

  /** Lane x of row y after chi, computed from the lanes of its row as they are stored. */
  function Khi(x: nat, y: nat, b0: Word, b1: Word, b2: Word, b3: Word, b4: Word): Word
    requires x < 5 && y < 5
  {
    match y
    case 0 => (
      match x
      case 0 => Xor(b0, Or(b1, b2))
      case 1 => Xor(b1, Or(Not(b2), b3))
      case 2 => Xor(b2, And(b3, b4))
      case 3 => Xor(b3, Or(b4, b0))
      case _ => Xor(b4, And(b0, b1)))
    case 1 => (
      match x
      case 0 => Xor(b0, Or(b1, b2))
      case 1 => Xor(b1, And(b2, b3))
      case 2 => Xor(b2, Or(b3, Not(b4)))
      case 3 => Xor(b3, Or(b4, b0))
      case _ => Xor(b4, And(b0, b1)))
    case 2 => (
      match x
      case 0 => Xor(b0, Or(b1, b2))
      case 1 => Xor(b1, And(b2, b3))
      case 2 => Xor(b2, And(Not(b3), b4))
      case 3 => Xor(Not(b3), Or(b4, b0))
      case _ => Xor(b4, And(b0, b1)))
    case 3 => (
      match x
      case 0 => Xor(b0, And(b1, b2))
      case 1 => Xor(b1, Or(b2, b3))
      case 2 => Xor(b2, Or(Not(b3), b4))
      case 3 => Xor(Not(b3), And(b4, b0))
      case _ => Xor(b4, Or(b0, b1)))
    case _ => (
      match x
      case 0 => Xor(b0, And(Not(b1), b2))
      case 1 => Xor(Not(b1), Or(b2, b3))
      case 2 => Xor(b2, And(b3, b4))
      case 3 => Xor(b3, Or(b4, b0))
      case _ => Xor(b4, And(b0, b1)))
  }

  function KhiRows(s: Lanes): Lanes {
    seq(25, k requires 0 <= k < 25 => KhiAt(s, k % 5, k / 5))
  }

  function KhiAt(s: Lanes, x: nat, y: nat): Word
    requires x < 5 && y < 5
  {
    Khi(x, y, s[5 * y], s[5 * y + 1], s[5 * y + 2], s[5 * y + 3], s[5 * y + 4])
  }

  /** A row: the stored lanes give the stored form of what chi makes of the true lanes. */
  lemma KhiLane(x: nat, y: nat, b0: Word, b1: Word, b2: Word, b3: Word, b4: Word)
    requires x < 5 && y < 5
    ensures
      var b := [b0, b1, b2, b3, b4];
      Khi(x, y, Stored(0, y, b0), Stored(1, y, b1), Stored(2, y, b2), Stored(3, y, b3), Stored(4, y, b4))
        == FlipLane(Between, x + 5 * y, Xor(b[x], And(Not(b[(x + 1) % 5]), b[(x + 2) % 5])))
  {
    var b := [b0, b1, b2, b3, b4];
    var p := Khi(x, y, Stored(0, y, b0), Stored(1, y, b1), Stored(2, y, b2), Stored(3, y, b3), Stored(4, y, b4));
    var q := FlipLane(Between, x + 5 * y, Xor(b[x], And(Not(b[(x + 1) % 5]), b[(x + 2) % 5])));
    match y {
      case 0 => match x { case 0 => case 1 => case 2 => case 3 => case _ => }
      case 1 => match x { case 0 => case 1 => case 2 => case 3 => case _ => }
      case 2 => match x { case 0 => case 1 => case 2 => case 3 => case _ => }
      case 3 => match x { case 0 => case 1 => case 2 => case 3 => case _ => }
      case _ => match x { case 0 => case 1 => case 2 => case 3 => case _ => }
    }
    assert forall z :: 0 <= z < 64 ==> p[z] == q[z];
  }

  function Stored(x: nat, y: nat, v: Word): Word { FlipLane(BeforeChi, x + 5 * y, v) }

  lemma ChiFlip(s: Lanes)
    ensures KhiRows(Flip(BeforeChi, s)) == Flip(Between, Chi(s))
  {
    forall k | 0 <= k < 25 ensures KhiRows(Flip(BeforeChi, s))[k] == Flip(Between, Chi(s))[k] {
      ChiFlipAt(s, k % 5, k / 5);
    }
  }

  lemma ChiFlipAt(s: Lanes, x: nat, y: nat)
    requires x < 5 && y < 5
    ensures KhiAt(Flip(BeforeChi, s), x, y) == FlipLane(Between, x + 5 * y, ChiLane(s, x, y))
  {
    var b := [s[5 * y], s[5 * y + 1], s[5 * y + 2], s[5 * y + 3], s[5 * y + 4]];
    assert forall i :: 0 <= i < 5 ==> b[i] == s[5 * y + i];
    KhiLane(x, y, s[5 * y], s[5 * y + 1], s[5 * y + 2], s[5 * y + 3], s[5 * y + 4]);
  }

  lemma IotaFlip(s: Lanes, constant: Word)
    ensures Iota(Flip(Between, s), constant) == Flip(Between, Iota(s, constant))
  {
  }

  /** A whole round on complemented lanes is the plain round, complemented. */
  lemma RoundFlip(s: Lanes, constant: Word)
    ensures Iota(KhiRows(Pi(Rho(Theta(Flip(Between, s))))), constant) == Flip(Between, Round(s, constant))
  {
    ThetaFlip(s);
    RhoFlip(AfterTheta, Theta(s));
    PiFlip(Rho(Theta(s)));
    ChiFlip(Pi(Rho(Theta(s))));
    var c := Chi(Pi(Rho(Theta(s))));
    IotaFlip(c, constant);
  }

  // ---------------------------------------------------------------- the macros, in place

  /** One column sum of theta, in the order the source adds it up. */
  function ThElt(c0: Word, c1: Word, c2: Word, c3: Word, c4: Word, d0: Word, d1: Word, d2: Word, d3: Word,
                 d4: Word): (t: Word)
    ensures t == Xor(Xor(Xor(Xor(Xor(c0, c1), c2), c3), c4), Rotl(Xor(Xor(Xor(Xor(d0, d1), d2), d3), d4), 1))
  {
    var tt0 := Rotl(Xor(Xor(Xor(d0, d1), d4), Xor(d2, d3)), 1);
    var t := Xor(Xor(tt0, c4), Xor(Xor(c0, c1), Xor(c2, c3)));
    assert forall z :: 0 <= z < 64 ==>
      t[z] == Xor(Xor(Xor(Xor(Xor(c0, c1), c2), c3), c4), Rotl(Xor(Xor(Xor(Xor(d0, d1), d2), d3), d4), 1))[z];
    t
  }

  function ColumnSum(b: Lanes, x: nat): (t: Word)
    requires x < 5
    ensures t == Xor(Parity(b, (x + 4) % 5), Rotl(Parity(b, (x + 1) % 5), 1))
  {
    var c, d := (x + 4) % 5, (x + 1) % 5;
    ThElt(b[c], b[c + 5], b[c + 10], b[c + 15], b[c + 20], b[d], b[d + 5], b[d + 10], b[d + 15], b[d + 20])
  }

  lemma XorAssoc(a: Word, b: Word, c: Word)
    ensures Xor(Xor(a, b), c) == Xor(a, Xor(b, c))
  {
  }

  function Sums(b: Lanes): (t: seq<Word>)
    ensures |t| == 5
  {
    [ColumnSum(b, 0), ColumnSum(b, 1), ColumnSum(b, 2), ColumnSum(b, 3), ColumnSum(b, 4)]
  }

  lemma SumAt(b: Lanes, x: nat)
    requires x < 5
    ensures Sums(b)[x] == ColumnSum(b, x)
  {
  }

  /** Replaces every lane, under the names of round r, by adding its column's sum. */
  method AddSums(wide: array<Word>, r: nat, t: seq<Word>)
    requires wide.Length == 25 && r <= 8 && |t| == 5
    modifies wide
    ensures forall k :: 0 <= k < 25 ==> wide[Place(r, k)] == Xor(old(wide[Place(r, k)]), t[k % 5])
  {
    forall j, k | 0 <= j < 25 && 0 <= k < 25 && Place(r, j) == Place(r, k) ensures j == k { PlacesDiffer(r, j, k); }
    forall k | 0 <= k < 25 { wide[Place(r, k)] := Xor(wide[Place(r, k)], t[k % 5]); }
  }

  method ApplyTheta(wide: array<Word>, r: nat)
    requires wide.Length == 25 && r <= 8
    modifies wide
    ensures Named(wide[..], r) == Theta(Named(old(wide[..]), r))
  {
    ghost var s: Lanes := wide[..];
    var b := Named(wide[..], r);
    var t := Sums(b);
    AddSums(wide, r, t);
    SumsMakeTheta(s, wide[..], r, t);
  }

  lemma SumsMakeTheta(s: Lanes, after: Lanes, r: nat, t: seq<Word>)
    requires r <= 8 && t == Sums(Named(s, r))
    requires forall k :: 0 <= k < 25 ==> after[Place(r, k)] == Xor(s[Place(r, k)], t[k % 5])
    ensures Named(after, r) == Theta(Named(s, r))
  {
    var b := Named(s, r);
    forall k | 0 <= k < 25 ensures Named(after, r)[k] == ThetaLane(b, k) {
      SumAt(b, k % 5);
      SumMakesLane(b, k, t[k % 5]);
    }
  }

  lemma SumMakesLane(b: Lanes, k: nat, t: Word)
    requires k < 25 && t == ColumnSum(b, k % 5)
    ensures Xor(b[k], t) == ThetaLane(b, k)
  {
    var x := k % 5;
    XorAssoc(b[k], Parity(b, (x + 4) % 5), Rotl(Parity(b, (x + 1) % 5), 1));
  }

  method ApplyRho(wide: array<Word>, r: nat)
    requires wide.Length == 25 && r <= 8
    modifies wide
    ensures Named(wide[..], r) == Rho(Named(old(wide[..]), r))
  {
    forall j, k | 0 <= j < 25 && 0 <= k < 25 && Place(r, j) == Place(r, k) ensures j == k { PlacesDiffer(r, j, k); }
    forall k | 0 <= k < 25 { wide[Place(r, k)] := Rotl(wide[Place(r, k)], Offset(k)); }
  }

  /** Chi on row y, the other rows untouched. */
  method ApplyKhiRow(wide: array<Word>, r: nat, y: nat)
    requires wide.Length == 25 && r <= 8 && y < 5
    modifies wide
    ensures Named(wide[..], r) == WithRow(Named(old(wide[..]), r), y)
  {
    var b := Named(wide[..], r);
    var c := [KhiAt(b, 0, y), KhiAt(b, 1, y), KhiAt(b, 2, y), KhiAt(b, 3, y), KhiAt(b, 4, y)];
    StoreRow(wide, r, y, c);
    assert forall x: nat :: x < 5 ==> c[x] == KhiAt(b, x, y);
    RowStored(b, Named(wide[..], r), y, c);
  }

  method StoreRow(wide: array<Word>, r: nat, y: nat, c: seq<Word>)
    requires wide.Length == 25 && r <= 8 && y < 5 && |c| == 5
    modifies wide
    ensures forall k :: 0 <= k < 25 ==>
      Named(wide[..], r)[k] == if k / 5 == y then c[k % 5] else Named(old(wide[..]), r)[k]
  {
    forall j, k | 0 <= j < 25 && 0 <= k < 25 && Place(r, j) == Place(r, k) ensures j == k { PlacesDiffer(r, j, k); }
    forall k | 0 <= k < 25 && k / 5 == y { wide[Place(r, k)] := c[k % 5]; }
  }

  lemma RowStored(b: Lanes, after: Lanes, y: nat, c: seq<Word>)
    requires y < 5 && |c| == 5 && forall x: nat :: x < 5 ==> c[x] == KhiAt(b, x, y)
    requires forall k :: 0 <= k < 25 ==> after[k] == if k / 5 == y then c[k % 5] else b[k]
    ensures after == WithRow(b, y)
  {
  }

  function WithRow(s: Lanes, y: nat): Lanes
    requires y < 5
  {
    seq(25, k requires 0 <= k < 25 => if k / 5 == y then KhiAt(s, k % 5, y) else s[k])
  }

  lemma RowsInTurn(s: Lanes)
    ensures WithRow(WithRow(WithRow(WithRow(WithRow(s, 0), 1), 2), 3), 4) == KhiRows(s)
  {
  }

  method ApplyKhi(wide: array<Word>, r: nat)
    requires wide.Length == 25 && r <= 8
    modifies wide
    ensures Named(wide[..], r) == KhiRows(Named(old(wide[..]), r))
  {
    RowsInTurn(Named(wide[..], r));
    ApplyKhiRow(wide, r, 0);
    ApplyKhiRow(wide, r, 1);
    ApplyKhiRow(wide, r, 2);
    ApplyKhiRow(wide, r, 3);
    ApplyKhiRow(wide, r, 4);
  }

  /** Theta, rho and, by renaming alone, pi. */
  method ApplyLinear(wide: array<Word>, r: nat)
    requires wide.Length == 25 && r < 8
    modifies wide
    ensures Named(wide[..], r + 1) == Pi(Rho(Theta(Named(old(wide[..]), r))))
  {
    ApplyTheta(wide, r);
    ApplyRho(wide, r);
    NamedNext(wide[..], r);
  }

  method ApplyIota(wide: array<Word>, r: nat, constant: Word)
    requires wide.Length == 25 && r <= 8
    modifies wide
    ensures Named(wide[..], r) == Iota(Named(old(wide[..]), r), constant)
  {
    AtFirst(wide[..], r, constant);
    ghost var s: Lanes := wide[..];
    wide[0] := Xor(wide[0], constant);
    assert wide[..] == s[0 := Xor(s[0], constant)];
  }

  /** The plain lanes that the stored ones stand for before round r. */
  ghost function Plain(stored: Lanes, r: nat): Lanes
    requires r <= 8
  {
    Flip(Between, Named(stored, r))
  }

  method ApplyRound(wide: array<Word>, r: nat, constant: Word)
    requires wide.Length == 25 && r < 8
    modifies wide
    ensures Named(wide[..], r + 1) == Iota(KhiRows(Pi(Rho(Theta(Named(old(wide[..]), r))))), constant)
  {
    ApplyLinear(wide, r);
    ApplyChiIota(wide, r + 1, constant);
  }

  method ApplyChiIota(wide: array<Word>, r: nat, constant: Word)
    requires wide.Length == 25 && r <= 8
    modifies wide
    ensures Named(wide[..], r) == Iota(KhiRows(Named(old(wide[..]), r)), constant)
  {
    ApplyKhi(wide, r);
    ApplyIota(wide, r, constant);
  }

  /** The plain lanes before each round. What ties one entry to the next stays folded until a proof
    * mentions `Follows`. */
  ghost predicate IsTrace(trace: seq<Lanes>) {
    |trace| == 25 && forall i {:trigger Follows(trace, i)} :: 0 <= i < 24 ==> Follows(trace, i)
  }

  ghost predicate Follows(trace: seq<Lanes>, i: nat)
    requires i < 24 && |trace| == 25
  {
    trace[i + 1] == Round(trace[i], Bits(RC(i)))
  }

  ghost function Trace(s: Lanes): (trace: seq<Lanes>)
    ensures |trace| == 25
  {
    seq(25, i requires 0 <= i < 25 => Rounds(s, i))
  }

  lemma TraceOf(s: Lanes)
    ensures IsTrace(Trace(s)) && Trace(s)[0] == s && Trace(s)[24] == Permute(s)
  {
    forall i: nat | i < 24 ensures Follows(Trace(s), i) { OneMore(s, i); }
  }

  lemma OneMore(s: Lanes, j: nat)
    requires j < 24
    ensures Rounds(s, j + 1) == Round(Rounds(s, j), Bits(RC(j)))
  {
  }

  /** One round: theta and rho under the names of round r, chi under those of round r + 1. */
  method KfElt(wide: array<Word>, r: nat, j: nat, ghost trace: seq<Lanes>)
    requires wide.Length == 25 && r < 8 && j < 24 && IsTrace(trace)
    requires Plain(wide[..], r) == trace[j]
    modifies wide
    ensures Plain(wide[..], r + 1) == trace[j + 1]
  {
    ghost var stored: Lanes := wide[..];
    ApplyRound(wide, r, Bits(RC(j)));
    RoundOnStored(stored, wide[..], r, Bits(RC(j)));
    assert Follows(trace, j);
  }

  lemma RoundOnStored(stored: Lanes, after: Lanes, r: nat, constant: Word)
    requires r < 8 && Named(after, r + 1) == Iota(KhiRows(Pi(Rho(Theta(Named(stored, r))))), constant)
    ensures Plain(after, r + 1) == Round(Plain(stored, r), constant)
  {
    var b := Named(stored, r);
    FlipTwice(Between, b);
    RoundFlip(Flip(Between, b), constant);
    FlipTwice(Between, Round(Flip(Between, b), constant));
  }

  lemma FirstStays(r: nat)
    requires r <= 8
    ensures Place(r, 0) == 0
  {
  }

  lemma AtFirst(s: Lanes, r: nat, constant: Word)
    requires r <= 8
    ensures Named(s[0 := Xor(s[0], constant)], r) == Iota(Named(s, r), constant)
  {
    FirstStays(r);
    forall k | 0 <= k < 25 && Place(r, k) == 0 ensures k == 0 { PlacesDiffer(r, k, 0); }
  }

  method Cycle(wide: array<Word>, i: nat, j: nat, k: nat)
    requires wide.Length == 25 && i < 25 && j < 25 && k < 25 && i != j && j != k && i != k
    modifies wide
    ensures wide[..] == Cycled(old(wide[..]), i, j, k)
  {
    var t := wide[i];
    wide[i] := wide[j];
    wide[j] := wide[k];
    wide[k] := t;
  }

  function Cycled(s: Lanes, i: nat, j: nat, k: nat): Lanes
    requires i < 25 && j < 25 && k < 25
  {
    s[i := s[j]][j := s[k]][k := s[i]]
  }

  /** Moves every lane back to its own place. */
  method MoveBack(wide: array<Word>)
    requires wide.Length == 25
    modifies wide
    ensures wide[..] == Named(old(wide[..]), 8)
  {
    CyclesMoveBack(wide[..]);
    Cycle(wide, 5, 6, 19);
    Cycle(wide, 10, 12, 8);
    Cycle(wide, 15, 18, 22);
    Cycle(wide, 20, 24, 11);
    Cycle(wide, 1, 13, 16);
    Cycle(wide, 21, 7, 2);
    Cycle(wide, 17, 14, 4);
    Cycle(wide, 3, 9, 23);
  }

  lemma CyclesMoveBack(s0: Lanes)
    ensures
      var s1 := Cycled(s0, 5, 6, 19);
      var s2 := Cycled(s1, 10, 12, 8);
      var s3 := Cycled(s2, 15, 18, 22);
      var s4 := Cycled(s3, 20, 24, 11);
      var s5 := Cycled(s4, 1, 13, 16);
      var s6 := Cycled(s5, 21, 7, 2);
      var s7 := Cycled(s6, 17, 14, 4);
      var s8 := Cycled(s7, 3, 9, 23);
      s8 == Named(s0, 8)
  {
    var s1 := Cycled(s0, 5, 6, 19);
    var s2 := Cycled(s1, 10, 12, 8);
    var s3 := Cycled(s2, 15, 18, 22);
    var s4 := Cycled(s3, 20, 24, 11);
    var s5 := Cycled(s4, 1, 13, 16);
    var s6 := Cycled(s5, 21, 7, 2);
    var s7 := Cycled(s6, 17, 14, 4);
    var s8 := Cycled(s7, 3, 9, 23);
    assert s8[0] == s0[0] && s8[1] == s0[13] && s8[2] == s0[21] && s8[3] == s0[9] && s8[4] == s0[17];
    assert s8[5] == s0[6] && s8[6] == s0[19] && s8[7] == s0[2] && s8[8] == s0[10] && s8[9] == s0[23];
    assert s8[10] == s0[12] && s8[11] == s0[20] && s8[12] == s0[8] && s8[13] == s0[16] && s8[14] == s0[4];
    assert s8[15] == s0[18] && s8[16] == s0[1] && s8[17] == s0[14] && s8[18] == s0[22] && s8[19] == s0[5];
    assert s8[20] == s0[24] && s8[21] == s0[7] && s8[22] == s0[15] && s8[23] == s0[3] && s8[24] == s0[11];
  }

  /** The eight unrolled rounds and the move back. */
  method EightRounds(wide: array<Word>, j: nat, ghost trace: seq<Lanes>)
    requires wide.Length == 25 && j <= 16 && IsTrace(trace) && Plain(wide[..], 0) == trace[j]
    modifies wide
    ensures Plain(wide[..], 0) == trace[j + 8]
  {
    KfElt(wide, 0, j, trace);
    KfElt(wide, 1, j + 1, trace);
    KfElt(wide, 2, j + 2, trace);
    KfElt(wide, 3, j + 3, trace);
    KfElt(wide, 4, j + 4, trace);
    KfElt(wide, 5, j + 5, trace);
    KfElt(wide, 6, j + 6, trace);
    KfElt(wide, 7, j + 7, trace);
    PlainMoveBack(wide);
  }

  method PlainMoveBack(wide: array<Word>)
    requires wide.Length == 25
    modifies wide
    ensures Plain(wide[..], 0) == Plain(old(wide[..]), 8)
  {
    PlainBack(wide[..]);
    MoveBack(wide);
  }

  lemma NamedFirst(s: Lanes)
    ensures Named(s, 0) == s
  {
  }

  lemma PlainBack(stored: Lanes)
    ensures Plain(Named(stored, 8), 0) == Plain(stored, 8)
  {
    NamedFirst(Named(stored, 8));
  }

  method AllRounds(wide: array<Word>, ghost trace: seq<Lanes>)
    requires wide.Length == 25 && IsTrace(trace) && Plain(wide[..], 0) == trace[0]
    modifies wide
    ensures Plain(wide[..], 0) == trace[24]
  {
    var j := 0;
    while j < 24
      invariant j == 0 || j == 8 || j == 16 || j == 24
      invariant Plain(wide[..], 0) == trace[j]
    {
      EightRounds(wide, j, trace);
      j := j + 8;
    }
  }

  /** The permutation: the stored lanes are those of Keccak-f[1600] on the true lanes. */
  method KeccakF(wide: array<Word>)
    requires wide.Length == 25
    modifies wide
    ensures Flip(Between, wide[..]) == Permute(Flip(Between, old(wide[..])))
  {
    ghost var trace := Trace(Flip(Between, wide[..]));
    TraceOf(Flip(Between, wide[..]));
    NamedFirst(wide[..]);
    AllRounds(wide, trace);
    NamedFirst(wide[..]);
  }
}
