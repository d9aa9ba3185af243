/** Sequences: messages that arrive in pieces, reversal, and a way to keep equations folded. */
module Pieces {

  datatype Option<T> = None | Some(value: T)

  function Flat<T>(pieces: seq<seq<T>>): seq<T> {
    if pieces == [] then [] else Flat(pieces[..|pieces| - 1]) + pieces[|pieces| - 1]
  }

  lemma FlatJoin<T>(a: seq<seq<T>>, b: seq<T>)
    ensures Flat(a + [b]) == Flat(a) + b
  {
    assert (a + [b])[..|a|] == a;
  }

  lemma FlatNext<T>(pieces: seq<seq<T>>, i: nat)
    requires i < |pieces|
    ensures Flat(pieces[..i + 1]) == Flat(pieces[..i]) + pieces[i]
  {
    assert pieces[..i + 1] == pieces[..i] + [pieces[i]];
    FlatJoin(pieces[..i], pieces[i]);
  }

  lemma FlatAll<T>(pieces: seq<seq<T>>)
    ensures Flat(pieces[..|pieces|]) == Flat(pieces)
  {
    assert pieces[..|pieces|] == pieces;
  }

  lemma JoinAssoc<T>(a: seq<T>, b: seq<T>, c: seq<T>)
    ensures a + (b + c) == a + b + c
  {
  }

  function Reversed<T>(s: seq<T>): (r: seq<T>)
    ensures |r| == |s| && forall i :: 0 <= i < |s| ==> r[i] == s[|s| - 1 - i]
  {
    seq(|s|, i requires 0 <= i < |s| => s[|s| - 1 - i])
  }

  /** An equation stated as `forall k: nat :: Look(k) ==> ...` stays folded until a proof mentions
    * `Look`. */
  ghost predicate Look(k: nat) { true }
}
