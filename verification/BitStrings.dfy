/** Byte strings as bit strings. Which end of a byte comes first is up to the user: Keccak starts with
  * the least significant bit, BLAKE with the most significant one.
  */
module BitStrings {

  type Byte = b: seq<bool> | |b| == 8 witness seq(8, _ => false)

  function BitsOf(bytes: seq<Byte>): (bits: seq<bool>)
    ensures |bits| == 8 * |bytes|
  {
    seq(8 * |bytes|, i requires 0 <= i < 8 * |bytes| => bytes[i / 8][i % 8])
  }

  lemma BitsOfJoin(a: seq<Byte>, b: seq<Byte>)
    ensures BitsOf(a + b) == BitsOf(a) + BitsOf(b)
  {
    forall i | 0 <= i < 8 * (|a| + |b|) ensures BitsOf(a + b)[i] == (BitsOf(a) + BitsOf(b))[i] {
      if i >= 8 * |a| {
        assert (i - 8 * |a|) / 8 == i / 8 - |a| && (i - 8 * |a|) % 8 == i % 8;
      }
    }
  }

  function Zeros(n: nat): seq<bool> { seq(n, _ => false) }

  function ZeroByte(): Byte { seq(8, _ => false) }
}
