/**
  Reading an Elasticsearch index page by page: whatever fails, the pages handed on are the first
  ones of an undisturbed reading, and the point in time (PIT) is closed however the reading ends.
*/
module EsPaging {
  import opened Options
  import opened EsPages

  type Pit = string

  /**
    What can go wrong with a page: the request, a reply without a list of hits, a batch that
    cannot be built from the hits, hits without sort values.
  */
  datatype Fault = Fine | RequestFails | NoHits | BatchFails | NoSortValues

  /** The server: the PIT it opens, if it does, and for each request its fault and a renewed PIT id, if any. */
  datatype Server = Server(pit: Option<Pit>, faults: seq<Fault>, renewals: seq<Option<Pit>>)

  function FaultOf(server: Server, n: nat): Fault {
    if n < |server.faults| then server.faults[n] else Fine
  }

  function Renewed(server: Server, n: nat): Option<Pit> {
    if n < |server.renewals| then server.renewals[n] else None
  }

  datatype Event = Yield(batch: Page) | ClosePit(pit: Pit) | Fail

  /** The PIT is closed, and then the error is reported, if there is one. */
  function Closing(pit: Pit, failed: bool): seq<Event> {
    [ClosePit(pit)] + (if failed then [Fail] else [])
  }

  function Yields(pages: seq<Page>): seq<Event> {
    seq(|pages|, i requires 0 <= i < |pages| => Yield(pages[i]))
  }

  /** The PIT id last heard of when the requests before `k` have been answered. */
  function LastHeard(server: Server, first: Pit, k: nat): Pit {
    if k == 0 then first
    else if Renewed(server, k - 1).Some? then Renewed(server, k - 1).value
    else LastHeard(server, first, k - 1)
  }

  /** That is the last of the ids sent along with those answers, or the first one if there was none. */
  lemma {:induction false} LastHeardIs(server: Server, first: Pit, k: nat)
    ensures (exists j | 0 <= j < k ::
               Renewed(server, j) == Some(LastHeard(server, first, k)) && forall i | j < i < k :: Renewed(server, i).None?)
         || (LastHeard(server, first, k) == first && forall i | 0 <= i < k :: Renewed(server, i).None?)
    decreases k
  {
    if k > 0 && Renewed(server, k - 1).None? {
      LastHeardIs(server, first, k - 1);
    }
  }

  /** The last of `k` pages came without sort values, so that no further request can be made. */
  predicate Halted(server: Server, k: nat) {
    k > 0 && FaultOf(server, k - 1) == NoSortValues
  }

  /** Requests before `k` were answered without a fault. */
  ghost predicate AllFine(server: Server, k: int) {
    forall i | 0 <= i < k :: FaultOf(server, i) == Fine
  }

  lemma OneMoreFine(server: Server, k: nat)
    requires AllFine(server, k) && FaultOf(server, k) == Fine
    ensures AllFine(server, k + 1)
  {
  }

  /**
    Where a reading stops: the `pages` it handed on are the first of the `all` pages of an
    undisturbed reading, each answering its own request. It stops at the first fault or at the
    end of the pages, and fails if the next page, or the request for it, does. `asks` tells
    whether one more page is asked for after all of them.
  */
  ghost predicate StopsAfter(server: Server, all: seq<Page>, asks: bool, pages: seq<Page>, replies: nat, failed: bool) {
    var k := |pages|;
    && pages <= all
    && AllFine(server, k - 1)
    && (k > 0 ==> FaultOf(server, k - 1) == Fine || FaultOf(server, k - 1) == NoSortValues)
    && (if Halted(server, k) || (pages == all && !asks) then replies == k && !failed
        else
          && (replies == if FaultOf(server, k) == RequestFails then k else k + 1)
          && (failed <==> FaultOf(server, k) == RequestFails || (FaultOf(server, k) == BatchFails && pages < all))
          && (!failed && pages < all ==> FaultOf(server, k) == NoHits))
  }

  /** A reading without a fault hands on every page and reports no error. */
  lemma FaultlessReadsAll(server: Server, all: seq<Page>, asks: bool, pages: seq<Page>, replies: nat, failed: bool)
    requires StopsAfter(server, all, asks, pages, replies, failed) && AllFine(server, |all| + 1)
    ensures pages == all && !failed
  {
    var k := |pages|;
    assert k <= |all| && FaultOf(server, k) == Fine && !Halted(server, k);
  }

  /** Where the loop is: after which sort key it goes on, and how many hits it has. */
  datatype Cursor = Cursor(searchAfter: Option<int>, fetched: nat)

  /** The page a request at a cursor would return; its size; where it leads. */
  function PageAt(hits: seq<Hit>, batchSize: nat, limit: Option<nat>, c: Cursor): (page: Page)
    ensures page.lo <= page.hi <= |hits|
  {
    Search(hits, c.searchAfter, PageSize(batchSize, Minus(limit, c.fetched)))
  }

  function Advance(hits: seq<Hit>, c: Cursor, page: Page): Cursor
    requires page.lo < page.hi <= |hits|
  {
    Cursor(Some(hits[page.hi - 1].key), c.fetched + (page.hi - page.lo))
  }

  /** The pages to come, and whether one more is asked for after them. */
  datatype Prospect = Prospect(pages: seq<Page>, asks: bool)

  /** At a cursor, `ahead` tells what is to come: the page there, unless it is empty, and what follows it, unless it is short. */
  ghost predicate Tells(hits: seq<Hit>, batchSize: nat, limit: Option<nat>, ahead: Cursor -> Prospect, c: Cursor) {
    var page := PageAt(hits, batchSize, limit, c);
    if Minus(limit, c.fetched) == Some(0) then ahead(c) == Prospect([], false)
    else if page.lo == page.hi then ahead(c) == Prospect([], true)
    else if page.hi - page.lo < PageSize(batchSize, Minus(limit, c.fetched)) then ahead(c) == Prospect([page], false)
    else
      var later := ahead(Advance(hits, c, page));
      ahead(c) == Prospect([page] + later.pages, later.asks)
  }

  /** What the undisturbed reading has to come from a cursor on. */
  ghost function Undisturbed(hits: seq<Hit>, batchSize: nat, limit: Option<nat>, c: Cursor): Prospect
    requires batchSize > 0
  {
    var n, left := FirstAfter(hits, c.searchAfter), Minus(limit, c.fetched);
    Prospect(Pages(CourseOf(hits), batchSize, n, left), AsksFrom(CourseOf(hits), batchSize, n, left))
  }

  /** It is what repeated requests return. */
  lemma RequestsGoAhead(hits: seq<Hit>, batchSize: nat, limit: Option<nat>, c: Cursor)
    requires Sorted(hits) && batchSize > 0
    ensures Tells(hits, batchSize, limit, c' => Undisturbed(hits, batchSize, limit, c'), c)
  {
    var page := PageAt(hits, batchSize, limit, c);
    if page.lo < page.hi {
      SortedCourse(hits, page.hi - 1);
      MinusTwice(limit, c.fetched, page.hi - page.lo);
    }
  }

  /** Each page is behind the one before. */
  lemma SearchMovesOn(hits: seq<Hit>, page: Page)
    requires Sorted(hits) && page.lo < page.hi <= |hits|
    ensures FirstAfter(hits, Some(hits[page.hi - 1].key)) > page.lo
  {
    SortedCourse(hits, page.hi - 1);
  }

  lemma YieldsSnoc(pages: seq<Page>, page: Page)
    ensures Yields(pages + [page]) == Yields(pages) + [Yield(page)]
  {
  }

  /** The loop has handed on `pages`, with `replies` requests answered, and stopped there. */
  ghost predicate Stopped(server: Server, first: Pit, all: seq<Page>, asks: bool, log: seq<Event>, pit: Pit, failed: bool, pages: seq<Page>, replies: nat) {
    log == Yields(pages) && pit == LastHeard(server, first, replies) && StopsAfter(server, all, asks, pages, replies, failed)
  }

  /** The loop stops before a request: the limit is reached. */
  lemma StopsUnasked(server: Server, first: Pit, log: seq<Event>, pit: Pit, pages: seq<Page>)
    requires AllFine(server, |pages|) && log == Yields(pages) && pit == LastHeard(server, first, |pages|)
    ensures Stopped(server, first, pages, false, log, pit, false, pages, |pages|)
  {
  }

  /** The loop stops at a request: it fails, or brings no hits, or its hits make no batch. */
  lemma StopsAtRequest(server: Server, first: Pit, log: seq<Event>, pit: Pit, pages: seq<Page>, rest: seq<Page>, asks: bool, failed: bool)
    requires AllFine(server, |pages|) && (rest == [] ==> asks) && log == Yields(pages)
    requires pit == LastHeard(server, first, if FaultOf(server, |pages|) == RequestFails then |pages| else |pages| + 1)
    requires failed <==> FaultOf(server, |pages|) == RequestFails || (FaultOf(server, |pages|) == BatchFails && rest != [])
    requires !failed ==> rest == [] || FaultOf(server, |pages|) == NoHits
    ensures Stopped(server, first, pages + rest, asks, log, pit, failed, pages,
                    if FaultOf(server, |pages|) == RequestFails then |pages| else |pages| + 1)
  {
    assert rest == [] ==> pages + rest == pages;
  }

  /** The loop stops with a page: it is the last one, or has no sort values to go on from. */
  lemma StopsWith(server: Server, first: Pit, log: seq<Event>, pit: Pit, pages: seq<Page>, page: Page, rest: seq<Page>, asks: bool)
    requires AllFine(server, |pages|)
    requires FaultOf(server, |pages|) == NoSortValues || (FaultOf(server, |pages|) == Fine && rest == [] && !asks)
    requires log == Yields(pages + [page]) && pit == LastHeard(server, first, |pages| + 1)
    ensures Stopped(server, first, pages + ([page] + rest), asks, log, pit, false, pages + [page], |pages| + 1)
  {
    assert pages + ([page] + rest) == (pages + [page]) + rest;
  }

  /** The loop: asks for page after page until a request brings none. */
  method ReadPages(hits: seq<Hit>, batchSize: nat, limit: Option<nat>, server: Server, pitId: Pit, ghost ahead: Cursor -> Prospect)
    returns (log: seq<Event>, pit: Pit, loopError: bool)
    requires Sorted(hits) && batchSize > 0
    requires forall c :: Tells(hits, batchSize, limit, ahead, c)
    ensures var all := ahead(Cursor(None, 0));
            exists pages, replies: nat :: Stopped(server, pitId, all.pages, all.asks, log, pit, loopError, pages, replies)
  {
    log, pit, loopError := [], pitId, false;
    var cursor, requests: nat := Cursor(None, 0), 0;
    ghost var all, asks, pages, rest := ahead(cursor).pages, ahead(cursor).asks, [], ahead(cursor).pages;
    while true
      invariant !loopError && log == Yields(pages)
      invariant ahead(Cursor(None, 0)) == Prospect(pages + rest, asks) && ahead(cursor) == Prospect(rest, asks)
      invariant requests == |pages| && AllFine(server, requests)
      invariant pit == LastHeard(server, pitId, requests)
      decreases |hits| - FirstAfter(hits, cursor.searchAfter)
    {
      assert Tells(hits, batchSize, limit, ahead, cursor);
      var remaining := Minus(limit, cursor.fetched);
      if remaining == Some(0) {
        StopsUnasked(server, pitId, log, pit, pages);
        assert pages + rest == pages;
        return;
      }
      var fault := FaultOf(server, requests);
      if fault == RequestFails {
        StopsAtRequest(server, pitId, log, pit, pages, rest, asks, true);
        return log, pit, true;
      }
      if Renewed(server, requests).Some? {
        pit := Renewed(server, requests).value;
      }
      var page := PageAt(hits, batchSize, limit, cursor);
      if fault == NoHits || page.lo == page.hi {
        StopsAtRequest(server, pitId, log, pit, pages, rest, asks, false);
        return;
      }
      if fault == BatchFails {
        StopsAtRequest(server, pitId, log, pit, pages, rest, asks, true);
        return log, pit, true;
      }
      YieldsSnoc(pages, page);
      log := log + [Yield(page)];
      if fault == NoSortValues || page.hi - page.lo < PageSize(batchSize, remaining) {
        assert rest == [page] + rest[1..];
        StopsWith(server, pitId, log, pit, pages, page, rest[1..], asks);
        return;
      }
      SearchMovesOn(hits, page);
      OneMoreFine(server, requests);
      requests, cursor := requests + 1, Advance(hits, cursor, page);
      assert pages + ([page] + ahead(cursor).pages) == (pages + [page]) + ahead(cursor).pages;
      pages, rest := pages + [page], ahead(cursor).pages;
    }
  }

  /**
    How a reading looks from outside: pages are handed on first; then the PIT is closed, once,
    under the id last heard of; and only then an error is reported.
  */
  ghost predicate IsReading(server: Server, first: Pit, all: seq<Page>, asks: bool, log: seq<Event>, pages: seq<Page>, replies: nat, failed: bool) {
    log == Yields(pages) + Closing(LastHeard(server, first, replies), failed) && StopsAfter(server, all, asks, pages, replies, failed)
  }

  /** Event by event. */
  lemma ReadingInOrder(server: Server, first: Pit, all: seq<Page>, asks: bool, log: seq<Event>, pages: seq<Page>, replies: nat, failed: bool)
    requires IsReading(server, first, all, asks, log, pages, replies, failed)
    ensures |log| == |pages| + (if failed then 2 else 1)
    ensures forall i | 0 <= i < |pages| :: log[i] == Yield(all[i])
    ensures log[|pages|] == ClosePit(LastHeard(server, first, replies))
    ensures failed ==> log[|pages| + 1] == Fail
  {
  }

  /** Whatever fails, that is how a reading looks; without a PIT there is only the error. */
  method ReadTabular(hits: seq<Hit>, batchSize: nat, limit: Option<nat>, server: Server) returns (log: seq<Event>)
    requires Sorted(hits) && batchSize > 0
    ensures server.pit.None? ==> log == [Fail]
    ensures server.pit.Some? ==>
              var all := Pages(CourseOf(hits), batchSize, 0, limit);
              exists pages, replies: nat, failed ::
                IsReading(server, server.pit.value, all, AsksAgain(all, batchSize, limit), log, pages, replies, failed)
  {
    if server.pit.None? {
      return [Fail];
    }
    ghost var ahead := c => Undisturbed(hits, batchSize, limit, c);
    forall c ensures Tells(hits, batchSize, limit, ahead, c) {
      RequestsGoAhead(hits, batchSize, limit, c);
    }
    AsksFromIs(CourseOf(hits), batchSize, 0, limit);
    var pit, loopError;
    log, pit, loopError := ReadPages(hits, batchSize, limit, server, server.pit.value, ahead);
    ghost var all := Pages(CourseOf(hits), batchSize, 0, limit);
    ghost var asks := AsksAgain(all, batchSize, limit);
    ghost var pages, replies: nat :| Stopped(server, server.pit.value, all, asks, log, pit, loopError, pages, replies);
    log := log + [ClosePit(pit)];
    if loopError {
      log := log + [Fail];
    }
    assert IsReading(server, server.pit.value, all, asks, log, pages, replies, loopError);
  }
}
