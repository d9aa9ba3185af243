/** Finite sets: members, sizes and ranges. */
module Sets {

  lemma Member<T>(s: set<T>) returns (n: T)
    requires s != {}
    ensures n in s
  {
    n :| n in s;
  }

  ghost function Range(k: nat): set<int> { if k == 0 then {} else Range(k - 1) + {k - 1} }

  lemma {:induction false} RangeFacts(k: nat)
    ensures forall i :: i in Range(k) <==> 0 <= i < k
    ensures |Range(k)| == k
  {
    if k > 0 { RangeFacts(k - 1); }
  }

  lemma {:induction false} SubsetFull<T>(a: set<T>, b: set<T>)
    requires a <= b && |a| == |b|
    ensures a == b
  {
    if a != b {
      var x :| x in b && x !in a;
      SubsetCard(a, b - {x});
    }
  }

  lemma {:induction false} SubsetCard<T>(a: set<T>, b: set<T>)
    requires a <= b
    ensures |a| <= |b|
  {
    if a != {} {
      var x :| x in a;
      SubsetCard(a - {x}, b - {x});
    }
  }

  ghost function Elements(s: seq<int>): set<int> { set x | x in s }

  lemma {:induction false} ElementsCard(s: seq<int>)
    ensures |Elements(s)| <= |s|
  {
    if s == [] {
      assert Elements(s) == {};
    } else {
      var rest := s[..|s| - 1];
      ElementsCard(rest);
      assert s == rest + [s[|s| - 1]];
      assert Elements(s) == Elements(rest) + {s[|s| - 1]};
    }
  }

  lemma Extensional<T>(a: set<T>, b: set<T>)
    requires forall x :: x in a <==> x in b
    ensures a == b
  {
  }
}
