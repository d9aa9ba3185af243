/** The Fugue-512 round (src/fugue.c): the plain round physically rotates its 36-word state by twelve
  * words per message word; the fast form leaves the words where they are and turns the names instead.
  */
module FugueRounds {

  /** What the engine does with single words. Nothing is assumed of these operations: what is proved
    * holds for 32-bit words with exclusive or and the mixing of four words (SMIX), in particular. */
  datatype Ops<!W> = Ops(xor: (W, W) -> W, mix: (W, W, W, W) -> (W, W, W, W))

  // ---------------------------------------------------------------- the plain round

  function Tix<W>(f: Ops<W>, s: seq<W>, q: W): (r: seq<W>)
    requires |s| == 36
    ensures |r| == 36
  {
    s[22 := f.xor(s[22], s[0])][0 := q][8 := f.xor(s[8], q)][1 := f.xor(s[1], s[24])][4 := f.xor(s[4],
      s[27])][7 := f.xor(s[7], s[30])]
  }

  /** Rotation to the right by n words. */
  function Ror<W>(s: seq<W>, n: nat): (r: seq<W>)
    requires |s| == 36 && n <= 36
    ensures |r| == 36
  {
    s[36 - n..] + s[..36 - n]
  }

  function Cmix<W>(f: Ops<W>, s: seq<W>): (r: seq<W>)
    requires |s| == 36
    ensures |r| == 36
  {
    s[0 := f.xor(s[0], s[4])][1 := f.xor(s[1], s[5])][2 := f.xor(s[2], s[6])]
     [18 := f.xor(s[18], s[4])][19 := f.xor(s[19], s[5])][20 := f.xor(s[20], s[6])]
  }

  function Mix<W>(f: Ops<W>, s: seq<W>): (r: seq<W>)
    requires |s| == 36
    ensures |r| == 36
  {
    var (a, b, c, d) := f.mix(s[0], s[1], s[2], s[3]);
    s[0 := a][1 := b][2 := c][3 := d]
  }

  function Turn<W>(f: Ops<W>, s: seq<W>): (r: seq<W>)
    requires |s| == 36
    ensures |r| == 36
  {
    Mix(f, Cmix(f, Ror(s, 3)))
  }

  /** Takes in one message word. */
  function Round<W>(f: Ops<W>, s: seq<W>, q: W): (r: seq<W>)
    requires |s| == 36
    ensures |r| == 36
  {
    Turn(f, Turn(f, Turn(f, Turn(f, Tix(f, s, q)))))
  }

  // ---------------------------------------------------------------- turned names

  /** Where word k of the state is stored when the names are turned by `off`. */
  function Pos(off: nat, k: nat): (p: nat)
    requires off < 36 && k < 36
    ensures p < 36
  {
    if k + off < 36 then k + off else k + off - 36
  }

  function View<W>(s: seq<W>, off: nat): (r: seq<W>)
    requires |s| == 36 && off < 36
    ensures |r| == 36
  {
    seq(36, k requires 0 <= k < 36 => s[Pos(off, k)])
  }

  lemma ViewUpdate<W>(s: seq<W>, off: nat, k: nat, v: W)
    requires |s| == 36 && off < 36 && k < 36
    ensures View(s[Pos(off, k) := v], off) == View(s, off)[k := v]
  {
  }

  /** Turning the names by 33 more is rotating by three. */
  lemma ViewTurn<W>(s: seq<W>, off: nat)
    requires |s| == 36 && off < 36
    ensures View(s, Pos(off, 33)) == Ror(View(s, off), 3)
  {
  }

  // ---------------------------------------------------------------- the macros, in place

  /** The words x00 ... are words 0 ... of the state under the names turned by `off`. */
  predicate Tix4Names(off: nat, x00: nat, x01: nat, x04: nat, x07: nat, x08: nat, x22: nat, x24: nat, x27: nat,
                      x30: nat) {
    && off < 36
    && x00 == Pos(off, 0) && x01 == Pos(off, 1) && x04 == Pos(off, 4) && x07 == Pos(off, 7) && x08 == Pos(off, 8)
    && x22 == Pos(off, 22) && x24 == Pos(off, 24) && x27 == Pos(off, 27) && x30 == Pos(off, 30)
  }

  predicate Cmix36Names(off: nat, x00: nat, x01: nat, x02: nat, x04: nat, x05: nat, x06: nat, x18: nat, x19: nat,
                        x20: nat) {
    && off < 36
    && x00 == Pos(off, 0) && x01 == Pos(off, 1) && x02 == Pos(off, 2) && x04 == Pos(off, 4) && x05 == Pos(off, 5)
    && x06 == Pos(off, 6) && x18 == Pos(off, 18) && x19 == Pos(off, 19) && x20 == Pos(off, 20)
  }

  predicate SmixNames(off: nat, x0: nat, x1: nat, x2: nat, x3: nat) {
    off < 36 && x0 == Pos(off, 0) && x1 == Pos(off, 1) && x2 == Pos(off, 2) && x3 == Pos(off, 3)
  }

  /** Writes the word that the names turned by `off` call k. */
  method Put<W>(S: array<W>, x: nat, v: W, ghost off: nat, ghost k: nat)
    requires S.Length == 36 && off < 36 && k < 36 && x == Pos(off, k)
    modifies S
    ensures View(S[..], off) == View(old(S[..]), off)[k := v]
    ensures S[x] == v && forall y :: 0 <= y < 36 && y != x ==> S[y] == old(S[y])
  {
    ViewUpdate(S[..], off, k, v);
    ghost var s := S[..];
    S[x] := v;
    assert S[..] == s[x := v];
  }

  method Tix4<W>(f: Ops<W>, S: array<W>, q: W, x00: nat, x01: nat, x04: nat, x07: nat, x08: nat,
                 x22: nat, x24: nat, x27: nat, x30: nat, ghost off: nat)
    requires S.Length == 36 && Tix4Names(off, x00, x01, x04, x07, x08, x22, x24, x27, x30)
    modifies S
    ensures View(S[..], off) == Tix(f, View(old(S[..]), off), q)
  {
    Put(S, x22, f.xor(S[x22], S[x00]), off, 22);
    Put(S, x00, q, off, 0);
    Put(S, x08, f.xor(S[x08], S[x00]), off, 8);
    Put(S, x01, f.xor(S[x01], S[x24]), off, 1);
    Put(S, x04, f.xor(S[x04], S[x27]), off, 4);
    Put(S, x07, f.xor(S[x07], S[x30]), off, 7);
  }

  method Cmix36<W>(f: Ops<W>, S: array<W>, x00: nat, x01: nat, x02: nat, x04: nat, x05: nat, x06: nat,
                   x18: nat, x19: nat, x20: nat, ghost off: nat)
    requires S.Length == 36 && Cmix36Names(off, x00, x01, x02, x04, x05, x06, x18, x19, x20)
    modifies S
    ensures View(S[..], off) == Cmix(f, View(old(S[..]), off))
  {
    Put(S, x00, f.xor(S[x00], S[x04]), off, 0);
    Put(S, x01, f.xor(S[x01], S[x05]), off, 1);
    Put(S, x02, f.xor(S[x02], S[x06]), off, 2);
    Put(S, x18, f.xor(S[x18], S[x04]), off, 18);
    Put(S, x19, f.xor(S[x19], S[x05]), off, 19);
    Put(S, x20, f.xor(S[x20], S[x06]), off, 20);
  }

  method Smix<W>(f: Ops<W>, S: array<W>, x0: nat, x1: nat, x2: nat, x3: nat, ghost off: nat)
    requires S.Length == 36 && SmixNames(off, x0, x1, x2, x3)
    modifies S
    ensures View(S[..], off) == Mix(f, View(old(S[..]), off))
  {
    var (a, b, c, d) := f.mix(S[x0], S[x1], S[x2], S[x3]);
    S[x0] := a;
    S[x1] := b;
    S[x2] := c;
    S[x3] := d;
  }

  /** Case 0 of the switch: the names before the word are turned by 0, after it by 24. */
  method Case0<W>(f: Ops<W>, S: array<W>, q: W)
    requires S.Length == 36
    modifies S
    ensures View(S[..], 24) == Round(f, View(old(S[..]), 0), q)
  {
    Tix4(f, S, q, 0, 1, 4, 7, 8, 22, 24, 27, 30, 0);
    ViewTurn(S[..], 0);
    Cmix36(f, S, 33, 34, 35, 1, 2, 3, 15, 16, 17, 33);
    Smix(f, S, 33, 34, 35, 0, 33);
    ViewTurn(S[..], 33);
    Cmix36(f, S, 30, 31, 32, 34, 35, 0, 12, 13, 14, 30);
    Smix(f, S, 30, 31, 32, 33, 30);
    ViewTurn(S[..], 30);
    Cmix36(f, S, 27, 28, 29, 31, 32, 33, 9, 10, 11, 27);
    Smix(f, S, 27, 28, 29, 30, 27);
    ViewTurn(S[..], 27);
    Cmix36(f, S, 24, 25, 26, 28, 29, 30, 6, 7, 8, 24);
    Smix(f, S, 24, 25, 26, 27, 24);
  }

  /** Case 1 of the switch: the names before the word are turned by 24, after it by 12. */
  method Case1<W>(f: Ops<W>, S: array<W>, q: W)
    requires S.Length == 36
    modifies S
    ensures View(S[..], 12) == Round(f, View(old(S[..]), 24), q)
  {
    Tix4(f, S, q, 24, 25, 28, 31, 32, 10, 12, 15, 18, 24);
    ViewTurn(S[..], 24);
    Cmix36(f, S, 21, 22, 23, 25, 26, 27, 3, 4, 5, 21);
    Smix(f, S, 21, 22, 23, 24, 21);
    ViewTurn(S[..], 21);
    Cmix36(f, S, 18, 19, 20, 22, 23, 24, 0, 1, 2, 18);
    Smix(f, S, 18, 19, 20, 21, 18);
    ViewTurn(S[..], 18);
    Cmix36(f, S, 15, 16, 17, 19, 20, 21, 33, 34, 35, 15);
    Smix(f, S, 15, 16, 17, 18, 15);
    ViewTurn(S[..], 15);
    Cmix36(f, S, 12, 13, 14, 16, 17, 18, 30, 31, 32, 12);
    Smix(f, S, 12, 13, 14, 15, 12);
  }

  /** Case 2 of the switch: the names before the word are turned by 12, after it by 0. */
  method Case2<W>(f: Ops<W>, S: array<W>, q: W)
    requires S.Length == 36
    modifies S
    ensures View(S[..], 0) == Round(f, View(old(S[..]), 12), q)
  {
    Tix4(f, S, q, 12, 13, 16, 19, 20, 34, 0, 3, 6, 12);
    ViewTurn(S[..], 12);
    Cmix36(f, S, 9, 10, 11, 13, 14, 15, 27, 28, 29, 9);
    Smix(f, S, 9, 10, 11, 12, 9);
    ViewTurn(S[..], 9);
    Cmix36(f, S, 6, 7, 8, 10, 11, 12, 24, 25, 26, 6);
    Smix(f, S, 6, 7, 8, 9, 6);
    ViewTurn(S[..], 6);
    Cmix36(f, S, 3, 4, 5, 7, 8, 9, 21, 22, 23, 3);
    Smix(f, S, 3, 4, 5, 6, 3);
    ViewTurn(S[..], 3);
    Cmix36(f, S, 0, 1, 2, 4, 5, 6, 18, 19, 20, 0);
    Smix(f, S, 0, 1, 2, 3, 0);
  }

}
