/** Counting locks on memory pages (LockedPageManagerBase, src/allocators.h). Pages are numbered, a
    page's number being its address divided by the page size. */
module LockedPages {
  import opened Basics

  datatype Range = Range(base: nat, size: nat)

  function FirstPage(r: Range, pageSize: nat): nat
    requires pageSize > 0
  {
    r.base / pageSize
  }

  /** The page after the last one; an empty range has no pages. */
  function EndPage(r: Range, pageSize: nat): nat
    requires pageSize > 0
  {
    if r.size == 0 then r.base / pageSize else (r.base + r.size - 1) / pageSize + 1
  }

  predicate Touches(r: Range, pageSize: nat, page: nat)
    requires pageSize > 0
  {
    FirstPage(r, pageSize) <= page < EndPage(r, pageSize)
  }

  /** A page is touched exactly when the range holds one of its bytes. */
  lemma {:induction false} TouchesIs(r: Range, pageSize: nat, page: nat)
    requires pageSize > 0
    ensures Touches(r, pageSize, page) <==> exists a :: r.base <= a < r.base + r.size && a / pageSize == page
  {
    if Touches(r, pageSize, page) {
      if r.base / pageSize == page {
        assert r.base <= r.base < r.base + r.size;
      } else {
        var (a, last) := (page * pageSize, r.base + r.size - 1);
        DivIs(a, pageSize, page, 0);
        Order(a, r.base, pageSize);
        assert r.base <= a;
        Scale(page, last / pageSize, pageSize);
        assert a <= last && a / pageSize == page;
      }
    }
    forall a | r.base <= a < r.base + r.size && a / pageSize == page ensures Touches(r, pageSize, page) {
      Order(r.base, a, pageSize);
      Order(a, r.base + r.size - 1, pageSize);
    }
  }

  lemma {:induction false} Scale(p: nat, q: nat, d: nat)
    requires p <= q
    ensures p * d <= q * d
  {
  }

  lemma {:induction false} Order(a: nat, b: nat, d: nat)
    requires d > 0
    ensures a <= b ==> a / d <= b / d
  {
    assert a == d * (a / d) + a % d && b == d * (b / d) + b % d;
    Times(d, a / d - b / d);
    assert d * (a / d - b / d) == a - a % d - b + b % d;
  }

  /** How many of the first k live ranges touch a page. */
  function Count(live: seq<Range>, pageSize: nat, page: nat, k: nat): nat
    requires pageSize > 0 && k <= |live|
  {
    if k == 0 then 0 else Count(live, pageSize, page, k - 1) + if Touches(live[k - 1], pageSize, page) then 1 else 0
  }

  lemma {:induction false} CountPrefix(live: seq<Range>, more: seq<Range>, pageSize: nat, page: nat, k: nat)
    requires pageSize > 0 && k <= |live|
    ensures Count(live + more, pageSize, page, k) == Count(live, pageSize, page, k)
  {
    if k > 0 { CountPrefix(live, more, pageSize, page, k - 1); }
  }

  /** Without range i. */
  function Without(live: seq<Range>, i: nat): seq<Range>
    requires i < |live|
  {
    live[..i] + live[i + 1..]
  }

  lemma {:induction false} CountWithout(live: seq<Range>, i: nat, pageSize: nat, page: nat, k: nat)
    requires pageSize > 0 && i < k <= |live|
    ensures Count(Without(live, i), pageSize, page, k - 1) ==
            Count(live, pageSize, page, k) - if Touches(live[i], pageSize, page) then 1 else 0
  {
    if k - 1 == i {
      CountPrefix(live[..i], live[i + 1..], pageSize, page, i);
      assert live == live[..i] + live[i..];
      CountPrefix(live[..i], live[i..], pageSize, page, i);
    } else {
      CountWithout(live, i, pageSize, page, k - 1);
      assert Without(live, i)[k - 2] == live[k - 1];
    }
  }

  function Lookup(histogram: map<nat, nat>, page: nat): nat { if page in histogram then histogram[page] else 0 }

  class LockedPageManager {
    const pageSize: nat
    var histogram: map<nat, nat>
    // the pages the locker holds, and the ranges locked and not yet unlocked
    var locked: set<nat>
    ghost var live: seq<Range>

    ghost predicate Valid()
      reads this
    {
      && pageSize > 0
      && (forall page: nat :: Lookup(histogram, page) == Count(live, pageSize, page, |live|))
      && (forall page :: page in histogram ==> histogram[page] > 0)
      && locked == histogram.Keys
    }

    constructor (pageSize: nat)
      requires pageSize > 0
      ensures this.pageSize == pageSize && Valid() && live == []
    {
      this.pageSize := pageSize;
      histogram, locked, live := map[], {}, [];
    }

    method LockRange(base: nat, size: nat)
      requires Valid()
      modifies this
      ensures Valid() && live == old(live) + [Range(base, size)]
    {
      ghost var r := Range(base, size);
      ghost var was := live;
      live := live + [r];
      forall page: nat
        ensures Count(live, pageSize, page, |live|) ==
          Count(was, pageSize, page, |was|) + if Touches(r, pageSize, page) then 1 else 0
      {
        CountPrefix(was, [r], pageSize, page, |was|);
      }
      if size == 0 { return; }
      var page := base / pageSize;
      var end := (base + size - 1) / pageSize;
      Order(base, base + size - 1, pageSize);
      while page <= end
        invariant FirstPage(r, pageSize) <= page <= end + 1 == EndPage(r, pageSize)
        invariant live == was + [r]
        invariant forall p: nat ::
            Lookup(histogram, p) == Count(was, pageSize, p, |was|) + if FirstPage(r, pageSize) <= p < page then 1 else 0
        invariant forall p :: p in histogram ==> histogram[p] > 0
        invariant locked == histogram.Keys
      {
        if page !in histogram {
          locked := locked + {page};
          histogram := histogram[page := 1];
        } else {
          histogram := histogram[page := histogram[page] + 1];
        }
        page := page + 1;
      }
    }

    /** Unlocks live range i. */
    method UnlockRange(base: nat, size: nat, ghost i: nat)
      requires Valid() && i < |live| && live[i] == Range(base, size)
      modifies this
      ensures Valid() && live == Without(old(live), i)
    {
      ghost var r := Range(base, size);
      ghost var was := live;
      live := Without(live, i);
      forall page: nat
        ensures Count(live, pageSize, page, |live|) ==
          Count(was, pageSize, page, |was|) - if Touches(r, pageSize, page) then 1 else 0
      {
        CountWithout(was, i, pageSize, page, |was|);
      }
      if size == 0 { return; }
      var page := base / pageSize;
      var end := (base + size - 1) / pageSize;
      Order(base, base + size - 1, pageSize);
      while page <= end
        invariant FirstPage(r, pageSize) <= page <= end + 1 == EndPage(r, pageSize)
        invariant live == Without(was, i)
        invariant forall p: nat ::
            Lookup(histogram, p) == Count(live, pageSize, p, |live|) + if page <= p < EndPage(r, pageSize) then 1 else 0
        invariant forall p :: p in histogram ==> histogram[p] > 0
        invariant locked == histogram.Keys
      {
        assert Lookup(histogram, page) >= 1;
        assert page in histogram;
        histogram := histogram[page := histogram[page] - 1];
        if histogram[page] == 0 {
          locked := locked - {page};
          histogram := histogram - {page};
        }
        page := page + 1;
      }
    }

    /** A page is locked exactly while a live range has a byte on it. */
    lemma {:induction false} LockedWhileUsed(page: nat)
      requires Valid()
      ensures page in locked <==> exists i :: 0 <= i < |live| && Touches(live[i], pageSize, page)
    {
      SomeTouches(live, pageSize, page, |live|);
    }

    lemma {:induction false} AllUnlocked()
      requires Valid() && live == []
      ensures histogram == map[] && locked == {}
    {
      assert forall page: nat :: Lookup(histogram, page) == 0;
      assert forall page: nat :: page in histogram ==> Lookup(histogram, page) > 0;
    }
  }

  lemma {:induction false} SomeTouches(live: seq<Range>, pageSize: nat, page: nat, k: nat)
    requires pageSize > 0 && k <= |live|
    ensures Count(live, pageSize, page, k) > 0 <==> exists i :: 0 <= i < k && Touches(live[i], pageSize, page)
  {
    if k > 0 { SomeTouches(live, pageSize, page, k - 1); }
  }
}
