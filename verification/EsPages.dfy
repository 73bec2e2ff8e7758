/**
  The pages of an Elasticsearch index: a point in time (PIT) fixes the hits, and each page asks
  for the hits after the sort values of the last one.
*/
module EsPages {
  import opened Options
  import opened EsSort

  /**
    A hit of the snapshot. Its sort values are represented by their rank: distinct sort
    values have distinct ranks, in the same order.
  */
  datatype Hit = Hit(key: int, doc: Doc)

  ghost predicate Sorted(hits: seq<Hit>) {
    forall i, j | 0 <= i < j < |hits| :: hits[i].key <= hits[j].key
  }

  ghost predicate StrictlySorted(hits: seq<Hit>) {
    forall i, j | 0 <= i < j < |hits| :: hits[i].key < hits[j].key
  }

  /** The ranks of the hits are those of their sort values under `sort`. */
  ghost predicate RankedBy(hits: seq<Hit>, sort: seq<Clause>) {
    forall i, j | 0 <= i < |hits| && 0 <= j < |hits| ::
      hits[i].key < hits[j].key <==> Less(SortKey(hits[i].doc, sort), SortKey(hits[j].doc, sort))
  }

  /** A query without a sort, or with a list of sort clauses, is read over a snapshot without ties. */
  lemma TieBreakMakesStrict(hits: seq<Hit>, sort: UserSort)
    requires Sorted(hits) && RankedBy(hits, SentSort(sort)) && !sort.Single?
    requires forall i, j | 0 <= i < j < |hits| :: hits[i].doc.shardDoc != hits[j].doc.shardDoc
    ensures StrictlySorted(hits)
  {
    forall i, j | 0 <= i < j < |hits| ensures hits[i].key < hits[j].key {
      DistinctDocsDistinctKeys(hits[i].doc, hits[j].doc, SentSort(sort));
    }
  }

  // ---- The server and the pages of an undisturbed reading ----

  /** The first hit from place `i` on with a greater sort key. */
  function FirstAbove(hits: seq<Hit>, key: int, i: nat): (n: nat)
    requires i <= |hits|
    ensures i <= n <= |hits|
    decreases |hits| - i
  {
    if i == |hits| || key < hits[i].key then i else FirstAbove(hits, key, i + 1)
  }

  /** Where the hits after a sort key begin in the snapshot. */
  function FirstAfter(hits: seq<Hit>, after: Option<int>): (n: nat)
    ensures n <= |hits|
  {
    if after.None? then 0 else FirstAbove(hits, after.value, 0)
  }

  lemma {:induction false} FirstAboveIs(hits: seq<Hit>, key: int, i: nat)
    requires i <= |hits|
    ensures var n := FirstAbove(hits, key, i);
            (forall k | i <= k < n :: hits[k].key <= key) && (n < |hits| ==> key < hits[n].key)
    decreases |hits| - i
  {
    if i < |hits| && hits[i].key <= key {
      FirstAboveIs(hits, key, i + 1);
    }
  }

  /** Places up to `i` do not matter if none of them is above. */
  lemma {:induction false} FirstAboveSkips(hits: seq<Hit>, key: int, lo: nat, i: nat)
    requires lo <= i <= |hits| && forall k | lo <= k < i :: hits[k].key <= key
    ensures FirstAbove(hits, key, lo) == FirstAbove(hits, key, i)
    decreases i - lo
  {
    if lo < i {
      FirstAboveSkips(hits, key, lo + 1, i);
    }
  }

  function Min(a: nat, b: nat): nat { if a < b then a else b }

  function PageSize(batchSize: nat, left: Option<nat>): nat {
    if left.Some? then Min(left.value, batchSize) else batchSize
  }

  /** A page, by where it lies in the snapshot. */
  datatype Page = Page(lo: nat, hi: nat)

  /** The server's answer: the first `size` hits after a sort key. */
  function Search(hits: seq<Hit>, after: Option<int>, size: nat): Page {
    var n := FirstAfter(hits, after);
    Page(n, Min(n + size, |hits|))
  }

  /** It has the hits with a greater sort key, in order, as many as were asked for or as there are. */
  lemma SearchIs(hits: seq<Hit>, after: Option<int>, size: nat)
    requires Sorted(hits)
    ensures var page := Search(hits, after, size);
            && page.lo <= page.hi <= |hits|
            && (forall k | 0 <= k < |hits| :: k < page.lo <==> after.Some? && hits[k].key <= after.value)
            && (page.hi - page.lo == size || (page.hi - page.lo < size && page.hi == |hits|))
  {
    if after.Some? {
      FirstAboveIs(hits, after.value, 0);
    }
  }

  function Minus(left: Option<nat>, n: nat): Option<nat> {
    if left.None? then None else if n <= left.value then Some(left.value - n) else Some(0)
  }

  lemma MinusTwice(left: Option<nat>, a: nat, b: nat)
    ensures Minus(Minus(left, a), b) == Minus(left, a + b)
  {
  }

  /** Where the hits behind hit `i` and its ties begin. */
  function Follow(hits: seq<Hit>, i: nat): (n: nat)
    requires i < |hits|
    ensures i < n <= |hits|
  {
    FirstAbove(hits, hits[i].key, i + 1)
  }

  /** For each hit, where a reading goes on after a page that ends with it. */
  type Course = next: seq<nat> | forall i | 0 <= i < |next| :: i < next[i] <= |next| witness []

  /** The course of a snapshot: past the hit and its ties. */
  function CourseOf(hits: seq<Hit>): (next: Course)
    ensures |next| == |hits| && forall i | 0 <= i < |hits| :: next[i] == Follow(hits, i)
  {
    seq(|hits|, i requires 0 <= i < |hits| => Follow(hits, i))
  }

  /** In a sorted snapshot that is where the hits after the sort key of the hit begin. */
  lemma SortedCourse(hits: seq<Hit>, i: nat)
    requires Sorted(hits) && i < |hits|
    ensures FirstAfter(hits, Some(hits[i].key)) == CourseOf(hits)[i]
  {
    FirstAboveSkips(hits, hits[i].key, 0, i + 1);
  }

  /** The pages read from place `n` on when nothing goes wrong. */
  function Pages(next: Course, batchSize: nat, n: nat, left: Option<nat>): (pages: seq<Page>)
    requires batchSize > 0 && n <= |next|
    decreases |next| - n
  {
    var m := n + PageSize(batchSize, left);
    if left == Some(0) || n == |next| then []
    else if m > |next| then [Page(n, |next|)]
    else [Page(n, m)] + Pages(next, batchSize, next[m - 1], Minus(left, m - n))
  }

  /** The pages cover the snapshot from `lo` to `hi` one after the other, without gap or repeat. */
  ghost predicate Tiles(pages: seq<Page>, lo: nat, hi: nat) {
    if pages == [] then lo == hi
    else pages[0].lo == lo <= pages[0].hi && Tiles(pages[1..], pages[0].hi, hi)
  }

  lemma TilesCons(page: Page, rest: seq<Page>, hi: nat)
    requires page.lo <= page.hi
    ensures Tiles([page] + rest, page.lo, hi) <==> Tiles(rest, page.hi, hi)
  {
    assert ([page] + rest)[1..] == rest;
  }

  /** No page is empty and every page but the last is full. */
  ghost predicate FullPages(pages: seq<Page>, batchSize: nat) {
    && (forall i | 0 <= i < |pages| :: 0 < pages[i].hi - pages[i].lo <= batchSize)
    && (forall i | 0 <= i < |pages| - 1 :: pages[i].hi - pages[i].lo == batchSize)
  }

  lemma FullCons(page: Page, rest: seq<Page>, batchSize: nat)
    requires FullPages(rest, batchSize) && 0 < page.hi - page.lo <= batchSize
    requires page.hi - page.lo == batchSize || rest == []
    ensures FullPages([page] + rest, batchSize)
  {
  }

  lemma {:induction false} PagesStep(next: Course, batchSize: nat, n: nat, left: Option<nat>, m: nat)
    requires batchSize > 0 && n < |next| && left != Some(0) && m == n + PageSize(batchSize, left) && m <= |next|
    ensures n < m && m - n <= batchSize
    ensures Pages(next, batchSize, n, left) == [Page(n, m)] + Pages(next, batchSize, next[m - 1], Minus(left, m - n))
    ensures m - n < batchSize ==> Pages(next, batchSize, next[m - 1], Minus(left, m - n)) == []
  {
    assert m - n < batchSize ==> Minus(left, m - n) == Some(0);
  }

  lemma {:induction false} PagesAreFull(next: Course, batchSize: nat, n: nat, left: Option<nat>)
    requires batchSize > 0 && n <= |next|
    ensures FullPages(Pages(next, batchSize, n, left), batchSize)
    decreases |next| - n
  {
    var m := n + PageSize(batchSize, left);
    if n == |next| || left == Some(0) {
      assert Pages(next, batchSize, n, left) == [];
    } else if m > |next| {
      assert Pages(next, batchSize, n, left) == [Page(n, |next|)];
    } else {
      var j, less := next[m - 1], Minus(left, m - n);
      PagesStep(next, batchSize, n, left, m);
      PagesAreFull(next, batchSize, j, less);
      FullCons(Page(n, m), Pages(next, batchSize, j, less), batchSize);
    }
  }

  /** No hit has the sort values of the one before. */
  ghost predicate NoTies(next: Course) {
    forall i | 0 <= i < |next| :: next[i] == i + 1
  }

  function Limit(n: nat, left: Option<nat>, size: nat): nat {
    if left.None? then size else Min(n + left.value, size)
  }

  /** A sorted snapshot has no ties exactly if it is strictly sorted. */
  lemma NoTiesIsStrict(hits: seq<Hit>)
    requires Sorted(hits)
    ensures NoTies(CourseOf(hits)) <==> StrictlySorted(hits)
  {
    var next := CourseOf(hits);
    if NoTies(next) {
      forall i, j | 0 <= i < j < |hits| ensures hits[i].key < hits[j].key {
        assert next[i] == Follow(hits, i) == i + 1;
        assert hits[i].key < hits[i + 1].key;
      }
    }
    if StrictlySorted(hits) {
      forall i | 0 <= i < |next| ensures next[i] == i + 1 {
        assert i + 1 < |hits| ==> hits[i].key < hits[i + 1].key;
      }
    }
  }

  /**
    Over a snapshot without ties the pages are exactly its first hits, as many as the limit
    allows, in order, without gap or repeat; every page but the last is full.
  */
  lemma PagesAreExact(hits: seq<Hit>, batchSize: nat, limit: Option<nat>)
    requires StrictlySorted(hits) && batchSize > 0
    ensures Tiles(Pages(CourseOf(hits), batchSize, 0, limit), 0, if limit.None? then |hits| else Min(limit.value, |hits|))
    ensures FullPages(Pages(CourseOf(hits), batchSize, 0, limit), batchSize)
  {
    PagesAreFull(CourseOf(hits), batchSize, 0, limit);
    CompleteForSizeExactly(hits, batchSize, limit);
  }

  /** A page that ends between two ties loses the second: the sort needs the tie-break. */
  lemma TiesAreLost(next: Course, i: nat)
    requires i < |next| && next[i] > i + 1
    ensures !Tiles(Pages(next, i + 1, 0, None), 0, |next|)
  {
    TilesCons(Page(0, i + 1), Pages(next, i + 1, next[i], None), |next|);
  }

  /** Reading a sorted snapshot to its end returns it whole, for every page size, exactly if it has no ties. */
  lemma CompleteExactlyWithoutTies(hits: seq<Hit>)
    requires Sorted(hits)
    ensures (forall batchSize: nat | batchSize > 0 :: Tiles(Pages(CourseOf(hits), batchSize, 0, None), 0, |hits|))
       <==> StrictlySorted(hits)
  {
    NoTiesIsStrict(hits);
    var next := CourseOf(hits);
    if NoTies(next) {
      forall batchSize: nat | batchSize > 0 ensures Tiles(Pages(next, batchSize, 0, None), 0, |hits|) {
        PagesAreExact(hits, batchSize, None);
      }
    } else {
      var i: nat :| i < |next| && next[i] != i + 1;
      TiesAreLost(next, i);
    }
  }

  /** No page end before `hi`, from place `n` on, falls between two ties. */
  ghost predicate EndsClean(next: Course, batchSize: nat, n: nat, hi: nat)
    requires batchSize > 0 && n <= hi <= |next|
    decreases hi - n
  {
    n + batchSize < hi ==> next[n + batchSize - 1] == n + batchSize && EndsClean(next, batchSize, n + batchSize, hi)
  }

  lemma LimitStays(n: nat, left: Option<nat>, d: nat, size: nat)
    requires n + d <= size && (left.Some? ==> d <= left.value)
    ensures n + d <= Limit(n, left, size) == Limit(n + d, Minus(left, d), size)
  {
  }

  lemma {:induction false} StartsLater(next: Course, batchSize: nat, n: nat, left: Option<nat>, lo: nat, hi: nat)
    requires batchSize > 0 && lo < n <= |next| && lo < hi
    ensures !Tiles(Pages(next, batchSize, n, left), lo, hi)
  {
  }

  lemma FirstPageClean(next: Course, batchSize: nat, n: nat, left: Option<nat>, m: nat, hi: nat, less: Option<nat>)
    requires batchSize > 0 && n < |next| && left != Some(0) && m == n + PageSize(batchSize, left) && m <= |next|
    requires hi == Limit(n, left, |next|) && less == Minus(left, m - n)
    requires m < hi && next[m - 1] == m ==>
               (Tiles(Pages(next, batchSize, m, less), m, hi) <==> EndsClean(next, batchSize, m, hi))
    ensures Tiles(Pages(next, batchSize, n, left), n, hi) <==> EndsClean(next, batchSize, n, hi)
  {
    var j := next[m - 1];
    LimitStays(n, left, m - n, |next|);
    PagesStep(next, batchSize, n, left, m);
    TilesCons(Page(n, m), Pages(next, batchSize, j, less), hi);
    if m == hi {
      assert Pages(next, batchSize, j, less) == [];
    } else if j != m {
      StartsLater(next, batchSize, j, less, m, hi);
    }
  }

  /** For each page size and limit, the pages from any place on are complete exactly if they end clean. */
  lemma {:induction false} TilesExactlyIfClean(next: Course, batchSize: nat, n: nat, left: Option<nat>)
    requires batchSize > 0 && n <= |next|
    ensures Tiles(Pages(next, batchSize, n, left), n, Limit(n, left, |next|))
       <==> EndsClean(next, batchSize, n, Limit(n, left, |next|))
    decreases |next| - n
  {
    var m, hi := n + PageSize(batchSize, left), Limit(n, left, |next|);
    if n < |next| && left != Some(0) {
      if m > |next| {
        TilesCons(Page(n, |next|), [], |next|);
      } else {
        var less := Minus(left, m - n);
        LimitStays(n, left, m - n, |next|);
        TilesExactlyIfClean(next, batchSize, m, less);
        FirstPageClean(next, batchSize, n, left, m, hi, less);
      }
    }
  }

  lemma MultipleIsFar(k: int, b: int)
    requires b > 0
    ensures k >= 1 ==> k * b >= b
    ensures k <= -1 ==> k * b <= -b
  {
  }

  lemma ModDrop(x: nat, b: nat)
    requires 0 < b <= x
    ensures x % b == (x - b) % b
  {
    var k := x / b - ((x - b) / b + 1);
    assert k * b == (x - b) % b - x % b;
    MultipleIsFar(k, b);
  }

  /** `m` is a number of page sizes behind `n`. */
  predicate PageEnd(m: nat, n: nat, batchSize: nat)
    requires batchSize > 0 && n <= m
  {
    (m - n) % batchSize == 0
  }

  lemma NextPageEnd(m: nat, n: nat, batchSize: nat)
    requires batchSize > 0 && n < m
    ensures if m < n + batchSize then !PageEnd(m, n, batchSize) else PageEnd(m, n, batchSize) <==> PageEnd(m, n + batchSize, batchSize)
  {
    if m >= n + batchSize {
      ModDrop(m - n, batchSize);
    }
  }

  /** No multiple of the page size falls between two ties. */
  ghost predicate CleanMultiples(next: Course, batchSize: nat, n: nat, hi: nat)
    requires batchSize > 0 && n <= hi <= |next|
  {
    forall m | n < m < hi && PageEnd(m, n, batchSize) :: next[m - 1] == m
  }

  /** The page ends are the multiples of the page size. */
  lemma {:induction false} CleanAtMultiples(next: Course, batchSize: nat, n: nat, hi: nat)
    requires batchSize > 0 && n <= hi <= |next|
    ensures EndsClean(next, batchSize, n, hi) <==> CleanMultiples(next, batchSize, n, hi)
    decreases hi - n
  {
    var e := n + batchSize;
    if e < hi {
      CleanAtMultiples(next, batchSize, e, hi);
      NextPageEnd(e, n, batchSize);
      assert PageEnd(e, e, batchSize);
      assert CleanMultiples(next, batchSize, n, hi) ==> next[e - 1] == e;
      forall m | e < m < hi ensures PageEnd(m, n, batchSize) <==> PageEnd(m, e, batchSize) {
        NextPageEnd(m, n, batchSize);
      }
    }
    forall m | n < m < hi && m < e ensures !PageEnd(m, n, batchSize) {
      NextPageEnd(m, n, batchSize);
    }
  }

  lemma NextIsAbove(hits: seq<Hit>, m: nat)
    requires 0 < m < |hits|
    ensures CourseOf(hits)[m - 1] == m <==> hits[m - 1].key < hits[m].key
  {
    assert CourseOf(hits)[m - 1] == FirstAbove(hits, hits[m - 1].key, m);
  }

  /** No multiple of the page size before `hi` falls between two hits with the same sort values. */
  ghost predicate CutsNoTie(hits: seq<Hit>, batchSize: nat, hi: nat)
    requires batchSize > 0 && hi <= |hits|
  {
    forall m | 0 < m < hi && PageEnd(m, 0, batchSize) :: hits[m - 1].key < hits[m].key
  }

  lemma CleanIsTieFree(hits: seq<Hit>, batchSize: nat, hi: nat)
    requires batchSize > 0 && hi <= |hits|
    ensures CleanMultiples(CourseOf(hits), batchSize, 0, hi) <==> CutsNoTie(hits, batchSize, hi)
  {
    forall m | 0 < m < hi ensures CourseOf(hits)[m - 1] == m <==> hits[m - 1].key < hits[m].key {
      NextIsAbove(hits, m);
    }
  }

  /**
    For one page size and limit: a reading of a sorted snapshot returns its first hits, as many as the
    limit allows, exactly if no page ends between two ties before that.
  */
  lemma CompleteForSizeExactly(hits: seq<Hit>, batchSize: nat, limit: Option<nat>)
    requires Sorted(hits) && batchSize > 0
    ensures var hi := Limit(0, limit, |hits|);
            Tiles(Pages(CourseOf(hits), batchSize, 0, limit), 0, hi) <==> CutsNoTie(hits, batchSize, hi)
  {
    TilesExactlyIfClean(CourseOf(hits), batchSize, 0, limit);
    CleanAtMultiples(CourseOf(hits), batchSize, 0, Limit(0, limit, |hits|));
    CleanIsTieFree(hits, batchSize, Limit(0, limit, |hits|));
  }

  // ---- Whether one more page is asked for ----

  function Total(pages: seq<Page>): int {
    if pages == [] then 0 else pages[0].hi - pages[0].lo + Total(pages[1..])
  }

  /** After all pages one more is asked for: the limit is not reached, and the last page was full. */
  predicate AsksAgain(all: seq<Page>, batchSize: nat, limit: Option<nat>) {
    && (limit.None? || Total(all) < limit.value)
    && (all == [] || all[|all| - 1].hi - all[|all| - 1].lo == batchSize)
  }

  /** The same, followed along the pages. */
  function AsksFrom(next: Course, batchSize: nat, n: nat, left: Option<nat>): bool
    requires batchSize > 0 && n <= |next|
    decreases |next| - n
  {
    var m := n + PageSize(batchSize, left);
    if left == Some(0) then false
    else if n == |next| then true
    else if m > |next| then false
    else AsksFrom(next, batchSize, next[m - 1], Minus(left, m - n))
  }

  lemma AsksCons(page: Page, rest: seq<Page>, batchSize: nat, left: Option<nat>)
    requires page.lo < page.hi && page.hi - page.lo == PageSize(batchSize, left)
    ensures AsksAgain([page] + rest, batchSize, left) <==> AsksAgain(rest, batchSize, Minus(left, page.hi - page.lo))
  {
    assert ([page] + rest)[1..] == rest;
  }

  lemma {:induction false} AsksFromIs(next: Course, batchSize: nat, n: nat, left: Option<nat>)
    requires batchSize > 0 && n <= |next|
    ensures AsksFrom(next, batchSize, n, left) <==> AsksAgain(Pages(next, batchSize, n, left), batchSize, left)
    decreases |next| - n
  {
    var m := n + PageSize(batchSize, left);
    if left != Some(0) && n < |next| && m <= |next| {
      var j, less := next[m - 1], Minus(left, m - n);
      AsksFromIs(next, batchSize, j, less);
      AsksCons(Page(n, m), Pages(next, batchSize, j, less), batchSize, left);
    }
  }
}
