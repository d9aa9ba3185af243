/** The stacking page locker (src/allocators.h): a count per page stands for all the live ranges that
  * touch the page, and the page is locked exactly while the count is positive.
  */
module LockedPages {
  import opened Numbers

  datatype Range = Range(base: nat, size: nat)

  /** The page that holds an address; `page` is the page size. */
  function PageOf(address: nat, page: nat): nat
    requires page > 0
  {
    address / page * page
  }

  /** The page of the last byte of a range, as 64-bit addresses compute it. */
  function LastPage(r: Range, page: nat): nat
    requires page > 0 && r.size > 0
  {
    PageOf((r.base + r.size - 1) % TWO64, page)
  }

  /** The pages of a range are those from its first byte's to its last byte's. */
  predicate Touches(r: Range, q: nat, page: nat)
    requires page > 0
  {
    r.size > 0 && q % page == 0 && PageOf(r.base, page) <= q <= LastPage(r, page)
  }

  /** The last page of the range is not the last page there is. */
  predicate Fits(r: Range, page: nat)
    requires page > 0
  {
    r.size > 0 ==> LastPage(r, page) + page < TWO64
  }

  /** For a range that does not wrap around, they are the pages that hold one of its bytes. */
  lemma TouchesMeaning(r: Range, q: nat, page: nat)
    requires page > 0 && r.size > 0 && r.base + r.size <= TWO64 && q % page == 0
    ensures Touches(r, q, page) <==> exists byte: nat :: r.base <= byte < r.base + r.size && PageOf(byte, page) == q
  {
    var last := r.base + r.size - 1;
    assert last % TWO64 == last;
    if Touches(r, q, page) {
      var byte := if r.base < q then q else r.base;
      AlignedPage(q, page);
      WithinPage(last, page);
      WithinPage(r.base, page);
      PageOfAligned(q, page);
      if r.base >= q { PageUnique(r.base, q, page); }
    } else if exists byte: nat :: r.base <= byte < r.base + r.size && PageOf(byte, page) == q {
      var byte: nat :| r.base <= byte < r.base + r.size && PageOf(byte, page) == q;
      PageMonotone(r.base, byte, page);
      PageMonotone(byte, last, page);
    }
  }

  lemma WithinPage(a: nat, page: nat)
    requires page > 0
    ensures PageOf(a, page) <= a < PageOf(a, page) + page
  {
    assert a == page * (a / page) + a % page;
  }

  lemma PageOfAligned(q: nat, page: nat)
    requires page > 0 && q % page == 0
    ensures PageOf(q, page) == q
  {
    assert q == page * (q / page) + q % page;
  }

  /** An address between a page and the next one is on that page. */
  lemma PageUnique(a: nat, q: nat, page: nat)
    requires page > 0 && q % page == 0 && q <= a && PageOf(a, page) <= q
    ensures PageOf(a, page) == q
  {
    WithinPage(a, page);
    PageOfAligned(q, page);
    var j, k := q / page, a / page;
    assert q == page * j && PageOf(a, page) == page * k;
    if k < j { Step(page, k, j); }
  }

  lemma PageMonotone(a: nat, b: nat, page: nat)
    requires page > 0 && a <= b
    ensures PageOf(a, page) <= PageOf(b, page)
  {
    WithinPage(a, page);
    WithinPage(b, page);
    var j, k := a / page, b / page;
    assert PageOf(a, page) == page * j && PageOf(b, page) == page * k;
    if k < j { Step(page, k, j); }
  }

  /** How many live ranges touch a page. */
  ghost function Count(live: seq<Range>, q: nat, page: nat): nat
    requires page > 0
  {
    if live == [] then 0 else Count(live[1..], q, page) + if Touches(live[0], q, page) then 1 else 0
  }

  lemma {:induction false} CountJoin(a: seq<Range>, b: seq<Range>, q: nat, page: nat)
    requires page > 0
    ensures Count(a + b, q, page) == Count(a, q, page) + Count(b, q, page)
  {
    if a == [] {
      assert a + b == b;
    } else {
      assert (a + b)[1..] == a[1..] + b;
      CountJoin(a[1..], b, q, page);
    }
  }

  lemma CountOne(r: Range, q: nat, page: nat)
    requires page > 0
    ensures Count([r], q, page) == if Touches(r, q, page) then 1 else 0
  {
    assert [r][1..] == [];
  }

  ghost function Without(live: seq<Range>, i: nat): seq<Range>
    requires i < |live|
  {
    live[..i] + live[i + 1..]
  }

  lemma CountWithout(live: seq<Range>, i: nat, q: nat, page: nat)
    requires page > 0 && i < |live|
    ensures Count(live, q, page) == Count(Without(live, i), q, page) + if Touches(live[i], q, page) then 1 else 0
  {
    assert live == live[..i] + ([live[i]] + live[i + 1..]);
    CountJoin(live[..i], [live[i]] + live[i + 1..], q, page);
    CountJoin([live[i]], live[i + 1..], q, page);
    CountJoin(live[..i], live[i + 1..], q, page);
    CountOne(live[i], q, page);
  }

  /** A page is locked exactly while some live range touches it. */
  lemma {:induction false} CountPositive(live: seq<Range>, q: nat, page: nat)
    requires page > 0
    ensures Count(live, q, page) > 0 <==> exists i :: 0 <= i < |live| && Touches(live[i], q, page)
  {
    if live != [] {
      CountPositive(live[1..], q, page);
      if Count(live[1..], q, page) > 0 {
        var i :| 0 <= i < |live[1..]| && Touches(live[1..][i], q, page);
        assert Touches(live[i + 1], q, page);
      }
      forall i | 0 <= i < |live| && Touches(live[i], q, page) ensures Count(live, q, page) > 0 {
        if i > 0 { assert Touches(live[1..][i - 1], q, page); }
      }
    }
  }

  function CountAt(h: map<nat, nat>, q: nat): nat { if q in h then h[q] else 0 }

  class LockedPageManager {
    const pageSize: nat
    var histogram: map<nat, nat>
    /** The pages that the operating system holds locked. */
    var locked: set<nat>
    ghost var live: seq<Range>

    ghost predicate Valid()
      reads this
    {
      && Tidy()
      && forall q: nat :: CountAt(histogram, q) == Count(live, q, pageSize)
    }

    constructor (pageSize: nat)
      requires pageSize > 0
      ensures Valid() && live == [] && this.pageSize == pageSize
    {
      this.pageSize, histogram, locked, live := pageSize, map[], {}, [];
    }

    ghost predicate Tidy()
      reads this
    {
      pageSize > 0 && locked == histogram.Keys && forall q :: q in histogram ==> histogram[q] > 0
    }

    method LockRange(base: nat, size: nat)
      requires Valid() && base < TWO64 && Fits(Range(base, size), pageSize)
      modifies this
      ensures Valid() && live == old(live) + [Range(base, size)]
    {
      ghost var r := Range(base, size);
      forall q: nat ensures Count(live + [r], q, pageSize) ==
        Count(live, q, pageSize) + if Touches(r, q, pageSize) then 1 else 0 {
        CountJoin(live, [r], q, pageSize);
        CountOne(r, q, pageSize);
      }
      live := live + [r];
      if size == 0 { return; }
      AlignedPage(base, pageSize);
      AlignedPage((base + size - 1) % TWO64, pageSize);
      LockPages(PageOf(base, pageSize), LastPage(Range(base, size), pageSize));
    }

    method LockPages(start: nat, end: nat)
      requires Tidy() && start % pageSize == 0 && end % pageSize == 0 && start < TWO64 && end + pageSize < TWO64
      modifies this`histogram, this`locked
      ensures Tidy()
      ensures forall q: nat :: CountAt(histogram, q) ==
                CountAt(old(histogram), q) + if q % pageSize == 0 && start <= q <= end then 1 else 0
    {
      var page := start;
      while page <= end
        invariant page % pageSize == 0 && start <= page && page < TWO64 && Tidy()
        invariant forall q: nat :: CountAt(histogram, q) ==
                    CountAt(old(histogram), q) + if q % pageSize == 0 && start <= q <= end && q < page then 1 else 0
        decreases end - page
      {
        if page !in histogram {
          locked := locked + {page};
          histogram := histogram[page := 1];
        } else {
          histogram := histogram[page := histogram[page] + 1];
        }
        NextPage(page, end, pageSize);
        page := (page + pageSize) % TWO64;
      }
    }

    /** Unlocking a live range never meets a page that is not locked. */
    method UnlockRange(base: nat, size: nat, ghost i: nat)
      requires Valid() && base < TWO64 && Fits(Range(base, size), pageSize)
      requires i < |live| && live[i] == Range(base, size)
      modifies this
      ensures Valid() && live == Without(old(live), i)
    {
      ghost var r := Range(base, size);
      forall q: nat ensures Count(live, q, pageSize) ==
        Count(Without(live, i), q, pageSize) + if Touches(r, q, pageSize) then 1 else 0 {
        CountWithout(live, i, q, pageSize);
      }
      live := Without(live, i);
      if size == 0 { return; }
      AlignedPage(base, pageSize);
      AlignedPage((base + size - 1) % TWO64, pageSize);
      UnlockPages(PageOf(base, pageSize), LastPage(Range(base, size), pageSize));
    }

    method UnlockPages(start: nat, end: nat)
      requires Tidy() && start % pageSize == 0 && end % pageSize == 0 && start < TWO64 && end + pageSize < TWO64
      requires forall q: nat :: q % pageSize == 0 && start <= q <= end ==> CountAt(histogram, q) > 0
      modifies this`histogram, this`locked
      ensures Tidy()
      ensures forall q: nat :: CountAt(histogram, q) ==
                CountAt(old(histogram), q) - if q % pageSize == 0 && start <= q <= end then 1 else 0
    {
      var page := start;
      while page <= end
        invariant page % pageSize == 0 && start <= page && page < TWO64 && Tidy()
        invariant forall q: nat :: CountAt(histogram, q) ==
                    CountAt(old(histogram), q) - if q % pageSize == 0 && start <= q <= end && q < page then 1 else 0
        decreases end - page
      {
        assert CountAt(histogram, page) == CountAt(old(histogram), page);
        assert page in histogram;
        histogram := histogram[page := histogram[page] - 1];
        if histogram[page] == 0 {
          locked := locked - {page};
          histogram := histogram - {page};
        }
        NextPage(page, end, pageSize);
        page := (page + pageSize) % TWO64;
      }
    }
  }

  /** The operating system holds a page locked exactly while some live range touches it, and the
    * manager counts how many do. */
  lemma LockedWhileTouched(m: LockedPageManager, q: nat)
    requires m.Valid()
    ensures q in m.locked <==> exists i :: 0 <= i < |m.live| && Touches(m.live[i], q, m.pageSize)
    ensures q in m.locked ==> m.histogram[q] == Count(m.live, q, m.pageSize)
  {
    CountPositive(m.live, q, m.pageSize);
    assert CountAt(m.histogram, q) == Count(m.live, q, m.pageSize);
  }

  lemma AlignedPage(a: nat, page: nat)
    requires page > 0
    ensures PageOf(a, page) % page == 0 && PageOf(a, page) <= a
  {
    var k := a / page;
    assert (k * page) % page == 0 by { Multiple(k, page); }
  }

  lemma Multiple(k: nat, page: nat)
    requires page > 0
    ensures k * page % page == 0
  {
    Quotient(k * page, page, k, 0);
  }

  /** No page lies between a page and the next one. */
  lemma NextPage(p: nat, end: nat, page: nat)
    requires page > 0 && p % page == 0 && end % page == 0 && p <= end && end + page < TWO64
    ensures (p + page) % TWO64 == p + page && (p + page) % page == 0
    ensures forall q: nat :: q % page == 0 && p < q ==> p + page <= q
  {
    var k := p / page;
    assert p == page * k;
    Quotient(p + page, page, k + 1, 0);
    forall q: nat | q % page == 0 && p < q ensures p + page <= q { Beyond(k, q, page); }
  }

  lemma Beyond(k: nat, q: nat, page: nat)
    requires page > 0 && q % page == 0 && page * k < q
    ensures page * k + page <= q
  {
    var j := q / page;
    assert q == page * j;
    if j < k { Step(page, j, k); } else if j > k { Step(page, k, j); }
  }

  // ---------------------------------------------------------------- when the page loops end

  /** The page that the loops are at after k passes. */
  function PageAfter(start: nat, page: nat, k: nat): nat
  {
    if k == 0 then start else (PageAfter(start, page, k - 1) + page) % TWO64
  }

  ghost predicate LoopEnds(r: Range, page: nat)
    requires page > 0 && r.size > 0
  {
    exists k: nat :: PageAfter(PageOf(r.base, page), page, k) > LastPage(r, page)
  }

  /** The loops over the pages of a range end exactly when its last page is not the last page of the
    * address space. A page size divides 2^64, being a power of two. */
  lemma LoopEndsIffFits(r: Range, page: nat)
    requires 0 < page < TWO64 && TWO64 % page == 0 && r.base < TWO64 && r.size > 0
    ensures LoopEnds(r, page) <==> Fits(r, page)
  {
    var start, end := PageOf(r.base, page), LastPage(r, page);
    AlignedPage(r.base, page);
    AlignedPage((r.base + r.size - 1) % TWO64, page);
    if Fits(r, page) {
      ReachesPast(start, end, page);
    } else {
      LastOfAll(end, page);
      forall k: nat ensures PageAfter(start, page, k) <= end { NeverPast(start, end, page, k); }
    }
  }

  lemma LastOfAll(end: nat, page: nat)
    requires page > 0 && TWO64 % page == 0 && end % page == 0 && end < TWO64 <= end + page
    ensures end + page == TWO64
  {
    Beyond(end / page, TWO64, page);
  }

  /** From the last page there is, the counter wraps to zero and never gets past it. */
  lemma {:induction false} NeverPast(start: nat, end: nat, page: nat, k: nat)
    requires page > 0 && start % page == 0 && end % page == 0 && start < TWO64 && end + page == TWO64
    ensures PageAfter(start, page, k) <= end && PageAfter(start, page, k) % page == 0
  {
    if k == 0 {
      NotBetween(start, end, page);
    } else {
      NeverPast(start, end, page, k - 1);
      PassStays(PageAfter(start, page, k - 1), end, page);
    }
  }

  lemma PassStays(p: nat, end: nat, page: nat)
    requires page > 0 && p % page == 0 && end % page == 0 && p <= end && end + page == TWO64
    ensures (p + page) % TWO64 <= end && (p + page) % TWO64 % page == 0
  {
    if p < end {
      PageOfAligned(p, page);
      Beyond(p / page, end, page);
      Quotient(p + page, TWO64, 0, p + page);
      Quotient(p + page, page, p / page + 1, 0);
    } else {
      assert p + page == TWO64;
    }
  }

  lemma NotBetween(p: nat, end: nat, page: nat)
    requires page > 0 && p % page == 0 && end % page == 0 && p < end + page
    ensures p <= end
  {
    if p > end { Beyond(end / page, p, page); }
  }

  lemma ReachesPast(start: nat, end: nat, page: nat)
    requires page > 0 && end + page < TWO64 && start < TWO64
    ensures exists k: nat :: PageAfter(start, page, k) > end
  {
    if start > end {
      assert PageAfter(start, page, 0) > end;
    } else {
      var k := Climb(start, end, page, 0);
    }
  }

  lemma Climb(start: nat, end: nat, page: nat, k: nat) returns (n: nat)
    requires page > 0 && end + page < TWO64 && PageAfter(start, page, k) <= end
    ensures PageAfter(start, page, n) > end
    decreases end - PageAfter(start, page, k)
  {
    var p := PageAfter(start, page, k);
    assert PageAfter(start, page, k + 1) == p + page;
    if p + page > end { n := k + 1; } else { n := Climb(start, end, page, k + 1); }
  }

  /** The smallest such range: one byte on the last page. */
  lemma LastPageLoops(page: nat)
    requires 0 < page < TWO64 && TWO64 % page == 0
    ensures !LoopEnds(Range(TWO64 - 1, 1), page)
  {
    var r := Range(TWO64 - 1, 1);
    LoopEndsIffFits(r, page);
    WithinPage(TWO64 - 1, page);
  }
}
