/**
 Page arithmetic shared by the two carousels of the site: how many pages a
 list of items makes, how the page index wraps forwards and backwards, and
 which items a page shows.  The services slider uses a page size of 2, the
 testimonials carousel a page size of 1.
 */
module Paging {

  function Min(a: int, b: int): int
  {
    if a <= b then a else b
  }

  /** `Math.ceil(n / size)`: the number of pages `n` items fill. */
  function PageCount(n: nat, size: nat): (k: nat)
    requires size > 0
    ensures size * k >= n
    ensures size * k - size < n
  {
    var k := (n + size - 1) / size;
    assert (n + size - 1) == size * k + (n + size - 1) % size;
    k
  }

  /** PageCount is the least number of pages that holds all `n` items. */
  lemma PageCountLeast(n: nat, size: nat, k: nat)
    requires size > 0
    requires size * k >= n
    ensures PageCount(n, size) <= k
  {
    var c := PageCount(n, size);
    if c > k {
      assert size * (c - 1) >= size * k by { MulMonotone(size, k, c - 1); }
    }
  }

  lemma MulMonotone(a: nat, x: nat, y: nat)
    requires x <= y
    ensures a * x <= a * y
  {
    assert a * y == a * x + a * (y - x);
  }

  lemma PageCountPositive(n: nat, size: nat)
    requires size > 0
    ensures PageCount(n, size) > 0 <==> n > 0
  {
  }

  /** With one item per page there is one page per item. */
  lemma PageCountOne(n: nat)
    ensures PageCount(n, 1) == n
  {
  }

  /** The site's two configurations: 8 services make 4 pages, 5 testimonials 5. */
  lemma SiteConfigurations()
    ensures PageCount(8, 2) == 4 && PageCount(5, 1) == 5 && PageCount(5, 2) == 3
  {
  }

  /** `(prev + 1) % k`: the next page, wrapping from the last to the first. */
  function NextPage(i: nat, k: nat): (r: nat)
    requires i < k
    ensures r < k
    ensures r == if i == k - 1 then 0 else i + 1
  {
    (i + 1) % k
  }

  /** `(prev - 1 + k) % k`: the previous page, wrapping from the first to the last. */
  function PrevPage(i: nat, k: nat): (r: nat)
    requires i < k
    ensures r < k
    ensures r == if i == 0 then k - 1 else i - 1
  {
    (i - 1 + k) % k
  }

  lemma PrevUndoesNext(i: nat, k: nat)
    requires i < k
    ensures PrevPage(NextPage(i, k), k) == i
  {
  }

  lemma NextUndoesPrev(i: nat, k: nat)
    requires i < k
    ensures NextPage(PrevPage(i, k), k) == i
  {
  }

  /** The page reached from `i` after `m` consecutive next steps. */
  function AdvanceBy(i: nat, k: nat, m: nat): (r: nat)
    requires i < k
    ensures r < k
  {
    if m == 0 then i else NextPage(AdvanceBy(i, k, m - 1), k)
  }

  /** Within one cycle, `m` next steps add `m` and wrap once past the last page. */
  lemma {:induction false} AdvanceWithinCycle(i: nat, k: nat, m: nat)
    requires i < k
    requires m <= k
    ensures AdvanceBy(i, k, m) == if i + m < k then i + m else i + m - k
  {
    if m > 0 {
      AdvanceWithinCycle(i, k, m - 1);
    }
  }

  /** Stepping `a` times and then `b` times is stepping `a + b` times. */
  lemma {:induction false} AdvanceCompose(i: nat, k: nat, a: nat, b: nat)
    requires i < k
    ensures AdvanceBy(i, k, a + b) == AdvanceBy(AdvanceBy(i, k, a), k, b)
  {
    if b > 0 {
      AdvanceCompose(i, k, a, b - 1);
    }
  }

  /** As many next steps as there are pages return to the starting page. */
  lemma FullCycle(i: nat, k: nat)
    requires i < k
    ensures AdvanceBy(i, k, k) == i
  {
    AdvanceWithinCycle(i, k, k);
  }

  /** Hence the page sequence produced by repeated next steps has period `k`. */
  lemma AdvancePeriodic(i: nat, k: nat, m: nat)
    requires i < k
    ensures AdvanceBy(i, k, m + k) == AdvanceBy(i, k, m)
  {
    AdvanceCompose(i, k, k, m);
    FullCycle(i, k);
    assert k + m == m + k;
    AdvanceCompose(i, k, m, 0);
  }

  /**
   `items.slice(i * size, i * size + size)`: JavaScript's slice clamps both
   ends to the length, so a page past the end is empty.
   */
  function PageSlice<T>(items: seq<T>, i: nat, size: nat): (r: seq<T>)
    ensures |r| <= size
  {
    items[Min(i * size, |items|)..Min(i * size + size, |items|)]
  }

  /** An existing page starts at `i * size` and is empty only past the last page. */
  lemma PageSliceShape<T>(items: seq<T>, i: nat, size: nat)
    requires size > 0
    requires i < PageCount(|items|, size)
    ensures i * size < |items|
    ensures PageSlice(items, i, size) == items[i * size..Min(i * size + size, |items|)]
    ensures 1 <= |PageSlice(items, i, size)| <= size
    ensures i < PageCount(|items|, size) - 1 ==> |PageSlice(items, i, size)| == size
  {
    var k := PageCount(|items|, size);
    MulMonotone(size, i, k - 1);
    assert size * (k - 1) == size * k - size;
    assert i * size == size * i;
    if i < k - 1 {
      MulMonotone(size, i + 1, k - 1);
      assert size * (i + 1) == i * size + size;
    }
  }

  /** A page index names a page with something on it exactly when it is below the page count. */
  lemma PageNonEmptyIff<T>(items: seq<T>, size: nat, i: nat)
    requires size > 0
    ensures i < PageCount(|items|, size) <==> PageSlice(items, i, size) != []
  {
    var k := PageCount(|items|, size);
    if i < k {
      PageSliceShape(items, i, size);
    } else {
      MulMonotone(size, k, i);
      assert i * size == size * i;
    }
  }

  /** The list of all pages, in page order: exactly the indices whose slice is non-empty. */
  function Pages<T>(items: seq<T>, size: nat): (ps: seq<seq<T>>)
    requires size > 0
    ensures |ps| == PageCount(|items|, size)
    ensures forall i: nat :: i < |ps| <==> PageSlice(items, i, size) != []
  {
    forall i: nat ensures i < PageCount(|items|, size) <==> PageSlice(items, i, size) != [] {
      PageNonEmptyIff(items, size, i);
    }

    seq(PageCount(|items|, size), i requires 0 <= i => PageSlice(items, i, size))
  }

  function Flatten<T>(ps: seq<seq<T>>): seq<T>
  {
    if ps == [] then [] else Flatten(ps[..|ps| - 1]) + ps[|ps| - 1]
  }

  lemma MulSucc(j: nat, size: nat)
    ensures j * size + size == (j + 1) * size
  {
  }

  lemma {:induction false} FlattenPrefix<T>(items: seq<T>, size: nat, j: nat)
    requires size > 0
    requires j <= PageCount(|items|, size)
    ensures Flatten(Pages(items, size)[..j]) == items[..Min(j * size, |items|)]
  {
    var ps := Pages(items, size);
    if j > 0 {
      var lo, hi := (j - 1) * size, j * size;
      MulSucc(j - 1, size);
      assert hi == lo + size;
      FlattenPrefix(items, size, j - 1);
      assert Flatten(ps[..j - 1]) == items[..lo] by {
        PageSliceShape(items, j - 1, size);
      }
      assert ps[j - 1] == items[lo..Min(hi, |items|)] by {
        PageSliceShape(items, j - 1, size);
      }
      assert ps[..j][..j - 1] == ps[..j - 1];
      assert Flatten(ps[..j]) == Flatten(ps[..j - 1]) + ps[j - 1];
      assert items[..lo] + items[lo..Min(hi, |items|)] == items[..Min(hi, |items|)];
    }
  }

  /** The pages partition the items: concatenated in order they give the list back. */
  lemma PagesPartition<T>(items: seq<T>, size: nat)
    requires size > 0
    ensures Flatten(Pages(items, size)) == items
  {
    var ps := Pages(items, size);
    var k := PageCount(|items|, size);
    FlattenPrefix(items, size, k);
    assert ps[..k] == ps;
    assert k * size == size * k;
  }

  /** Item `x` is shown exactly on page `x / size`, at position `x % size`. */
  lemma ItemOnPage<T>(items: seq<T>, size: nat, x: nat)
    requires size > 0
    requires x < |items|
    ensures x / size < PageCount(|items|, size)
    ensures PageSlice(items, x / size, size)[x % size] == items[x]
  {
    var p := x / size;
    var k := PageCount(|items|, size);
    assert x == p * size + x % size;
    assert p < k by {
      if k < p + 1 {
        MulMonotone(size, k, p);
      }
    }
    PageSliceShape(items, p, size);
  }
}
