/**
 The paging driver `fetch_images_from_keyword` (bbid.py:88-111) as a pure
 function of the search responses. The k-th request gets `pages[k]`; the
 driver launches one `download` thread per link and the model records which
 links it launched from each page and the `first=` offset of each request.
 */
module Paging {
  import opened Wrappers

  /** The response to one search request: the scraped links, or an exception from `urlopen`. */
  datatype Page = Links(links: seq<string>) | RequestRaises

  /** Why the driver stopped; `OutOfPages` means the given responses ran out while it would ask again. */
  datatype Stop = NoResults | RepeatedLastLink | LimitReached | RequestFailed | OutOfPages

  /** One request: its `first=` offset and the links launched from its response. */
  datatype Request = Request(offset: nat, launched: seq<string>)

  datatype Crawl = Crawl(requests: seq<Request>, stop: Stop)

  /** Every launched link, in launch order. */
  function Launched(requests: seq<Request>): seq<string> {
    if |requests| == 0 then [] else requests[0].launched + Launched(requests[1..])
  }

  /** How the launch loop over one page ended: how many links it launched and whether the limit stopped it. */
  datatype Batch = Batch(count: nat, hitLimit: bool)

  /**
   The `for` loop at bbid.py:101-106 from position `index` with the running
   counter `current`. As written the test is `current + index >= limit`
   although `current` already grew by one per launch; `intended` tests
   `current >= limit` instead.
   */
  function LaunchLoop(links: seq<string>, index: nat, current: nat, limit: Option<int>, intended: bool): (b: Batch)
    requires index <= |links|
    ensures index <= b.count <= |links|
    ensures b.hitLimit <==> b.count < |links|
    ensures b.hitLimit ==> limit.Some?
    decreases |links| - index
  {
    if index == |links| then Batch(index, false)
    else if limit.Some? && (if intended then current else current + index) >= limit.value then Batch(index, true)
    else LaunchLoop(links, index + 1, current + 1, limit, intended)
  }

  /**
   The loop as written launches the links at positions `i` with
   `start + 2 * i < limit` and stops at the first position where that fails:
   the counter is counted twice.
   */
  lemma {:induction false} LaunchLoopCountsTwice(links: seq<string>, index: nat, start: nat, n: int)
    requires index <= |links|
    requires forall i :: 0 <= i < index ==> start + 2 * i < n
    ensures var b := LaunchLoop(links, index, start + index, Some(n), false);
            && (forall i :: 0 <= i < b.count ==> start + 2 * i < n)
            && (b.hitLimit ==> start + 2 * b.count >= n)
    decreases |links| - index
  {
    if index < |links| && start + 2 * index < n {
      LaunchLoopCountsTwice(links, index + 1, start, n);
    }
  }

  /** The intended loop launches exactly as many links as the limit leaves room for. */
  lemma {:induction false} LaunchLoopIntended(links: seq<string>, index: nat, start: nat, n: int)
    requires index <= |links|
    requires start + index <= n || index == 0
    ensures LaunchLoop(links, index, start + index, Some(n), true).count
            == if n - start <= index then index else if |links| <= n - start then |links| else n - start
    decreases |links| - index
  {
    if index < |links| && start + index < n {
      LaunchLoopIntended(links, index + 1, start, n);
    }
  }

  /** The intended loop from the start of a page launches as many links as fit in the room the limit leaves. */
  lemma IntendedBatch(links: seq<string>, current: nat, n: int)
    ensures LaunchLoop(links, 0, current, Some(n), true).count == if |links| <= Room(n, current) then |links| else Room(n, current)
  {
    LaunchLoopIntended(links, 0, current, n);
  }

  /** Without a limit every link of the page is launched. */
  lemma UnlimitedLaunchesAll(links: seq<string>, index: nat, current: nat, intended: bool)
    requires index <= |links|
    ensures LaunchLoop(links, index, current, None, intended) == Batch(|links|, false)
  {
  }

  /** The links of a response, none when the request raised. */
  function LinksOf(p: Page): seq<string> {
    if p.Links? then p.links else []
  }

  /** The last link of a response, or the empty string when it has none. */
  function LastLink(p: Page): string {
    if |LinksOf(p)| > 0 then LinksOf(p)[|LinksOf(p)| - 1] else ""
  }

  /** A response the driver does not stop on before its launch loop: it has links, and its last link is new. */
  predicate Fresh(p: Page, prev: string) {
    |LinksOf(p)| > 0 && LastLink(p) != prev
  }

  /**
   What one response does at bbid.py:95-106, read at offset `current` after a
   response whose last link was `prev`: the request it ends the crawl with and
   why, or no request and `OutOfPages` when the driver goes on to the next
   page. A raised request, an empty response (the `IndexError` of
   `links[-1]`) and a repeated last link stop it with nothing launched; the
   limit stops it with a proper prefix of the links launched.
   */
  function PageEnd(p: Page, current: nat, prev: string, limit: Option<int>, intended: bool): (d: Crawl)
    ensures d.stop == OutOfPages ==> d.requests == []
    ensures d.stop != OutOfPages ==> |d.requests| == 1 && d.requests[0].offset == current
  {
    match p
    case RequestRaises => Crawl([Request(current, [])], RequestFailed)
    case Links(links) =>
      if |links| == 0 then Crawl([Request(current, [])], NoResults)
      else if links[|links| - 1] == prev then Crawl([Request(current, [])], RepeatedLastLink)
      else
        var b := LaunchLoop(links, 0, current, limit, intended);
        if b.hitLimit then Crawl([Request(current, links[..b.count])], LimitReached)
        else Crawl([], OutOfPages)
  }

  /** The driver goes on past a response exactly when it is fresh and its launch loop runs to the end. */
  lemma PageGoesOn(p: Page, current: nat, prev: string, limit: Option<int>, intended: bool)
    ensures PageEnd(p, current, prev, limit, intended).stop == OutOfPages
            <==> Fresh(p, prev) && !LaunchLoop(LinksOf(p), 0, current, limit, intended).hitLimit
  {
  }

  /**
   How response `p`, read after a response whose last link was `prev`, ends
   a crawl with request `r` and reason `stop`: a raised request, an empty
   response or a repeated last link stop it with nothing launched, and a
   fresh response stops it only when the limit cut its links to a proper
   prefix.
   */
  predicate StopsOn(p: Page, prev: string, limit: Option<int>, r: Request, stop: Stop) {
    && stop != OutOfPages
    && (stop == RequestFailed <==> p.RequestRaises?)
    && (stop == NoResults <==> p == Links([]))
    && (stop == RepeatedLastLink <==> |LinksOf(p)| > 0 && LastLink(p) == prev)
    && (stop == LimitReached <==> Fresh(p, prev))
    && r.launched <= LinksOf(p)
    && (stop != LimitReached ==> r.launched == [])
    && (stop == LimitReached ==> limit.Some? && |r.launched| < |LinksOf(p)|)
  }

  /** A response that stops the crawl stops it as `StopsOn` says. */
  lemma PageStop(p: Page, current: nat, prev: string, limit: Option<int>, intended: bool)
    ensures var d := PageEnd(p, current, prev, limit, intended);
            d.stop != OutOfPages ==> StopsOn(p, prev, limit, d.requests[0], d.stop)
  {
  }

  /**
   bbid.py:91-111 from the k-th request, with `current` links launched so far
   and `last` the last link of the previous page: the k-th response either
   ends the crawl (`PageEnd`) or has all its links launched, and the next page
   is requested at offset `current` plus their number.
   */
  function CrawlFrom(pages: seq<Page>, k: nat, current: nat, last: string, limit: Option<int>, intended: bool): (c: Crawl)
    requires k <= |pages|
    ensures |c.requests| <= |pages| - k
    ensures c.stop == OutOfPages ==> |c.requests| == |pages| - k
    ensures c.stop != OutOfPages ==> |c.requests| > 0
    decreases |pages| - k
  {
    if k == |pages| then Crawl([], OutOfPages)
    else
      var e := PageEnd(pages[k], current, last, limit, intended);
      if e.stop != OutOfPages then e
      else
        var links := LinksOf(pages[k]);
        var rest := CrawlFrom(pages, k + 1, current + |links|, LastLink(pages[k]), limit, intended);
        Crawl([Request(current, links)] + rest.requests, rest.stop)
  }

  /** The driver goes on past the k-th response. */
  predicate GoesOn(pages: seq<Page>, k: nat, current: nat, last: string, limit: Option<int>, intended: bool) {
    k < |pages| && PageEnd(pages[k], current, last, limit, intended).stop == OutOfPages
  }

  /** `fetch_images_from_keyword(pool_sema, keyword, dir, filters, limit)` as written. */
  function CrawlPages(pages: seq<Page>, limit: Option<int>): Crawl {
    CrawlFrom(pages, 0, 0, "", limit, false)
  }

  /** The paging driver with the limit test the evidently intended way. */
  function CrawlPagesIntended(pages: seq<Page>, limit: Option<int>): Crawl {
    CrawlFrom(pages, 0, 0, "", limit, true)
  }

  lemma LaunchedCons(r: Request, rest: seq<Request>)
    ensures Launched([r] + rest) == r.launched + Launched(rest)
  {
    assert ([r] + rest)[1..] == rest;
  }

  /** The room a limit of `n` leaves after `current` launches. */
  function Room(n: int, current: nat): nat {
    if n - current <= 0 then 0 else n - current
  }

  /** One page's launch loop, written or intended, stays within the room the limit leaves. */
  lemma BatchWithinRoom(links: seq<string>, current: nat, n: int, intended: bool)
    ensures LaunchLoop(links, 0, current, Some(n), intended).count <= Room(n, current)
  {
    var b := LaunchLoop(links, 0, current, Some(n), intended);
    if intended {
      LaunchLoopIntended(links, 0, current, n);
    } else {
      LaunchLoopCountsTwice(links, 0, current, n);
      if b.count > 0 {
        assert current + 2 * (b.count - 1) < n;
      }
    }
  }

  // Offsets

  /** Each request's `first=` offset is `current` plus the number of links launched by the requests before it. */
  predicate OffsetsCountLaunches(requests: seq<Request>, current: nat) {
    forall i :: 0 <= i < |requests| ==> requests[i].offset == current + |Launched(requests[..i])|
  }

  /** The same, one request at a time: the first is made at `current`, the rest after its launches. */
  predicate OffsetsFrom(requests: seq<Request>, current: nat) {
    |requests| == 0 || (requests[0].offset == current && OffsetsFrom(requests[1..], current + |requests[0].launched|))
  }

  /** The request-by-request reading of offsets gives the counting one. */
  lemma {:induction false} OffsetsFromCounts(requests: seq<Request>, current: nat)
    requires OffsetsFrom(requests, current)
    ensures OffsetsCountLaunches(requests, current)
    decreases |requests|
  {
    if |requests| > 0 {
      var r, rest := requests[0], requests[1..];
      OffsetsFromCounts(rest, current + |r.launched|);
      forall i | 0 <= i < |requests|
        ensures requests[i].offset == current + |Launched(requests[..i])|
      {
        if i == 0 {
          assert requests[..0] == [];
        } else {
          assert requests[..i] == [r] + rest[..i - 1];
          assert requests[i] == rest[i - 1];
          LaunchedCons(r, rest[..i - 1]);
        }
      }
    }
  }

  /** A crawl that stops at the k-th response makes at most one request there, at offset `current`. */
  lemma OffsetsHere(pages: seq<Page>, k: nat, current: nat, last: string, limit: Option<int>, intended: bool)
    requires k <= |pages| && !GoesOn(pages, k, current, last, limit, intended)
    ensures OffsetsFrom(CrawlFrom(pages, k, current, last, limit, intended).requests, current)
  {
    if k < |pages| {
      var c := CrawlFrom(pages, k, current, last, limit, intended);
      assert c.requests[1..] == [];
    }
  }

  /** Going on past the k-th response puts its request at `current` in front of requests that start after its links. */
  lemma OffsetsLater(pages: seq<Page>, k: nat, current: nat, last: string, limit: Option<int>, intended: bool)
    requires GoesOn(pages, k, current, last, limit, intended)
    requires var links := LinksOf(pages[k]);
             OffsetsFrom(CrawlFrom(pages, k + 1, current + |links|, LastLink(pages[k]), limit, intended).requests, current + |links|)
    ensures OffsetsFrom(CrawlFrom(pages, k, current, last, limit, intended).requests, current)
  {
    var links := LinksOf(pages[k]);
    var rest := CrawlFrom(pages, k + 1, current + |links|, LastLink(pages[k]), limit, intended);
    assert CrawlFrom(pages, k, current, last, limit, intended) == Crawl([Request(current, links)] + rest.requests, rest.stop);
    assert ([Request(current, links)] + rest.requests)[1..] == rest.requests;
  }

  /** A crawl's requests are made one after another, each at the offset the launches before it reached. */
  lemma {:induction false} CrawlOffsetsFrom(pages: seq<Page>, k: nat, current: nat, last: string, limit: Option<int>, intended: bool)
    requires k <= |pages|
    ensures OffsetsFrom(CrawlFrom(pages, k, current, last, limit, intended).requests, current)
    decreases |pages| - k
  {
    if GoesOn(pages, k, current, last, limit, intended) {
      CrawlOffsetsFrom(pages, k + 1, current + |LinksOf(pages[k])|, LastLink(pages[k]), limit, intended);
      OffsetsLater(pages, k, current, last, limit, intended);
    } else {
      OffsetsHere(pages, k, current, last, limit, intended);
    }
  }

  /**
   Request i of a crawl is made at offset `current` plus the number of links
   launched before it: the `first=` parameter counts the launches so far.
   */
  lemma CrawlOffsets(pages: seq<Page>, k: nat, current: nat, last: string, limit: Option<int>, intended: bool)
    requires k <= |pages|
    ensures OffsetsCountLaunches(CrawlFrom(pages, k, current, last, limit, intended).requests, current)
  {
    CrawlOffsetsFrom(pages, k, current, last, limit, intended);
    OffsetsFromCounts(CrawlFrom(pages, k, current, last, limit, intended).requests, current);
  }

  // Whole pages

  /** Request `r` launched every link of the non-empty response `p`. */
  predicate LaunchedWhole(p: Page, r: Request) {
    p.Links? && |p.links| > 0 && r.launched == p.links
  }

  /** The last link of the response before the `p`-th, or `last` for the first response of the crawl. */
  function PrevLast(pages: seq<Page>, k: nat, last: string, p: nat): string
    requires k <= p <= |pages|
  {
    if p == k then last else LastLink(pages[p - 1])
  }

  /**
   Every response of crawl `c` from the k-th before its last request, and the
   last one too when it ran out of responses, was non-empty, ended in a link
   other than the previous response's last link, and was launched whole.
   */
  predicate WholeUntilStop(pages: seq<Page>, k: nat, last: string, c: Crawl)
    requires k <= |pages|
  {
    var m := if c.stop == OutOfPages then |c.requests| else |c.requests| - 1;
    forall p :: k <= p < k + m ==>
      && p < |pages|
      && LaunchedWhole(pages[p], c.requests[p - k])
      && Fresh(pages[p], PrevLast(pages, k, last, p))
  }

  /** A crawl that stops at the k-th response has no whole response before its last request. */
  lemma WholeHere(pages: seq<Page>, k: nat, current: nat, last: string, limit: Option<int>, intended: bool)
    requires k <= |pages| && !GoesOn(pages, k, current, last, limit, intended)
    ensures WholeUntilStop(pages, k, last, CrawlFrom(pages, k, current, last, limit, intended))
  {
  }

  /** Going on past the k-th response adds it, fresh and launched whole, in front of the whole responses after it. */
  lemma WholeLater(pages: seq<Page>, k: nat, current: nat, last: string, limit: Option<int>, intended: bool)
    requires GoesOn(pages, k, current, last, limit, intended)
    requires var links := LinksOf(pages[k]);
             WholeUntilStop(pages, k + 1, LastLink(pages[k]), CrawlFrom(pages, k + 1, current + |links|, LastLink(pages[k]), limit, intended))
    ensures WholeUntilStop(pages, k, last, CrawlFrom(pages, k, current, last, limit, intended))
  {
    var links := LinksOf(pages[k]);
    var c := CrawlFrom(pages, k, current, last, limit, intended);
    var rest := CrawlFrom(pages, k + 1, current + |links|, LastLink(pages[k]), limit, intended);
    assert c == Crawl([Request(current, links)] + rest.requests, rest.stop);
    PageGoesOn(pages[k], current, last, limit, intended);
    var m := if c.stop == OutOfPages then |c.requests| else |c.requests| - 1;
    forall p | k <= p < k + m
      ensures p < |pages| && LaunchedWhole(pages[p], c.requests[p - k]) && Fresh(pages[p], PrevLast(pages, k, last, p))
    {
      if p > k {
        assert c.requests[p - k] == rest.requests[p - (k + 1)];
        assert PrevLast(pages, k + 1, LastLink(pages[k]), p) == PrevLast(pages, k, last, p);
      }
    }
  }

  /**
   Every response before the last one requested, and the last one too when
   the crawl ran out of responses, was non-empty, ended in a link other than
   the previous response's last link, and was launched whole.
   */
  lemma {:induction false} CrawlLaunchesWholePages(pages: seq<Page>, k: nat, current: nat, last: string, limit: Option<int>, intended: bool)
    requires k <= |pages|
    ensures WholeUntilStop(pages, k, last, CrawlFrom(pages, k, current, last, limit, intended))
    decreases |pages| - k
  {
    if GoesOn(pages, k, current, last, limit, intended) {
      CrawlLaunchesWholePages(pages, k + 1, current + |LinksOf(pages[k])|, LastLink(pages[k]), limit, intended);
      WholeLater(pages, k, current, last, limit, intended);
    } else {
      WholeHere(pages, k, current, last, limit, intended);
    }
  }

  // How a crawl stops

  /**
   A crawl from the k-th response that did not run out of responses ended on
   its last request as `StopsOn` says, reading the response that request got
   after the one before it (after `last` when it is the first).
   */
  predicate EndsAsStopsOn(pages: seq<Page>, k: nat, last: string, limit: Option<int>, c: Crawl)
    requires k <= |pages|
  {
    c.stop != OutOfPages ==>
      var q := k + |c.requests| - 1;
      && k <= q < |pages|
      && StopsOn(pages[q], PrevLast(pages, k, last, q), limit, c.requests[|c.requests| - 1], c.stop)
  }

  /** A response the driver stops on ends the crawl as `StopsOn` says. */
  lemma EndsHere(pages: seq<Page>, k: nat, current: nat, last: string, limit: Option<int>, intended: bool)
    requires k <= |pages| && !GoesOn(pages, k, current, last, limit, intended)
    ensures EndsAsStopsOn(pages, k, last, limit, CrawlFrom(pages, k, current, last, limit, intended))
  {
    if k < |pages| {
      PageStop(pages[k], current, last, limit, intended);
    }
  }

  /** Going on past the k-th response keeps the ending of the crawl from the next response. */
  lemma EndsLater(pages: seq<Page>, k: nat, current: nat, last: string, limit: Option<int>, intended: bool)
    requires GoesOn(pages, k, current, last, limit, intended)
    requires var links := LinksOf(pages[k]);
             EndsAsStopsOn(pages, k + 1, LastLink(pages[k]), limit, CrawlFrom(pages, k + 1, current + |links|, LastLink(pages[k]), limit, intended))
    ensures EndsAsStopsOn(pages, k, last, limit, CrawlFrom(pages, k, current, last, limit, intended))
  {
    var links := LinksOf(pages[k]);
    var c := CrawlFrom(pages, k, current, last, limit, intended);
    var rest := CrawlFrom(pages, k + 1, current + |links|, LastLink(pages[k]), limit, intended);
    assert c == Crawl([Request(current, links)] + rest.requests, rest.stop);
    if c.stop != OutOfPages {
      var q := k + |c.requests| - 1;
      assert q == (k + 1) + |rest.requests| - 1;
      assert c.requests[|c.requests| - 1] == rest.requests[|rest.requests| - 1];
      assert PrevLast(pages, k + 1, LastLink(pages[k]), q) == PrevLast(pages, k, last, q);
    }
  }

  /**
   The last response requested decides how a crawl that did not run out of
   responses stopped, as `StopsOn` says.
   */
  lemma {:induction false} CrawlStopReason(pages: seq<Page>, k: nat, current: nat, last: string, limit: Option<int>, intended: bool)
    requires k <= |pages|
    ensures EndsAsStopsOn(pages, k, last, limit, CrawlFrom(pages, k, current, last, limit, intended))
    decreases |pages| - k
  {
    if GoesOn(pages, k, current, last, limit, intended) {
      CrawlStopReason(pages, k + 1, current + |LinksOf(pages[k])|, LastLink(pages[k]), limit, intended);
      EndsLater(pages, k, current, last, limit, intended);
    } else {
      EndsHere(pages, k, current, last, limit, intended);
    }
  }

  // The limit

  /**
   The links the responses offer from the k-th on, read off the responses
   alone: every link of each response up to the first one that failed, was
   empty or repeats the previous response's last link.
   */
  function AllLinks(pages: seq<Page>, k: nat, last: string): seq<string>
    requires k <= |pages|
    decreases |pages| - k
  {
    if k < |pages| && Fresh(pages[k], last) then LinksOf(pages[k]) + AllLinks(pages, k + 1, LastLink(pages[k]))
    else []
  }

  /** A response that is missing, failed, empty or repeated launches nothing and offers nothing. */
  lemma SilentPage(pages: seq<Page>, k: nat, current: nat, last: string, limit: Option<int>, intended: bool)
    requires k <= |pages|
    requires k < |pages| ==> !Fresh(pages[k], last)
    ensures Launched(CrawlFrom(pages, k, current, last, limit, intended).requests) == []
    ensures AllLinks(pages, k, last) == []
  {
    var c := CrawlFrom(pages, k, current, last, limit, intended);
    if k < |pages| {
      PageGoesOn(pages[k], current, last, limit, intended);
      PageStop(pages[k], current, last, limit, intended);
      assert c.requests == [Request(current, [])];
      LaunchedCons(Request(current, []), []);
    }
  }

  /**
   At a fresh response the crawl launches a prefix of its links, all of them
   unless the limit stops it, and then goes on; the response offers all its
   links ahead of what the next ones offer.
   */
  lemma FreshPage(pages: seq<Page>, k: nat, current: nat, last: string, limit: Option<int>, intended: bool)
    requires k < |pages| && Fresh(pages[k], last)
    ensures var links := LinksOf(pages[k]);
            var b := LaunchLoop(links, 0, current, limit, intended);
            var rest := CrawlFrom(pages, k + 1, current + |links|, LastLink(pages[k]), limit, intended);
            var launched := Launched(CrawlFrom(pages, k, current, last, limit, intended).requests);
            && AllLinks(pages, k, last) == links + AllLinks(pages, k + 1, LastLink(pages[k]))
            && (b.hitLimit ==> launched == links[..b.count])
            && (!b.hitLimit ==> launched == links + Launched(rest.requests))
  {
    var links := LinksOf(pages[k]);
    var b := LaunchLoop(links, 0, current, limit, intended);
    var rest := CrawlFrom(pages, k + 1, current + |links|, LastLink(pages[k]), limit, intended);
    PageGoesOn(pages[k], current, last, limit, intended);
    if b.hitLimit {
      assert CrawlFrom(pages, k, current, last, limit, intended).requests == [Request(current, links[..b.count])];
      LaunchedCons(Request(current, links[..b.count]), []);
    } else {
      assert CrawlFrom(pages, k, current, last, limit, intended).requests == [Request(current, links)] + rest.requests;
      LaunchedCons(Request(current, links), rest.requests);
    }
  }

  /** Past a fresh response without a limit, the crawl launches its links and then what the crawl from the next one launches. */
  lemma UnlimitedFresh(pages: seq<Page>, k: nat, current: nat, last: string, intended: bool)
    requires k < |pages| && Fresh(pages[k], last)
    requires var links := LinksOf(pages[k]);
             Launched(CrawlFrom(pages, k + 1, current + |links|, LastLink(pages[k]), None, intended).requests)
             == AllLinks(pages, k + 1, LastLink(pages[k]))
    ensures Launched(CrawlFrom(pages, k, current, last, None, intended).requests) == AllLinks(pages, k, last)
  {
    UnlimitedLaunchesAll(LinksOf(pages[k]), 0, current, intended);
    FreshPage(pages, k, current, last, None, intended);
  }

  /** Without a limit a crawl launches exactly the links the responses offer. */
  lemma {:induction false} UnlimitedLaunchesAllLinks(pages: seq<Page>, k: nat, current: nat, last: string, intended: bool)
    requires k <= |pages|
    ensures Launched(CrawlFrom(pages, k, current, last, None, intended).requests) == AllLinks(pages, k, last)
    decreases |pages| - k
  {
    if k < |pages| && Fresh(pages[k], last) {
      UnlimitedLaunchesAllLinks(pages, k + 1, current + |LinksOf(pages[k])|, LastLink(pages[k]), intended);
      UnlimitedFresh(pages, k, current, last, intended);
    } else {
      SilentPage(pages, k, current, last, None, intended);
    }
  }

  /** With limit `n`, the crawl from the k-th response launches a prefix of the links offered, within the room the limit leaves. */
  predicate LimitedPrefix(pages: seq<Page>, k: nat, current: nat, last: string, n: int, intended: bool)
    requires k <= |pages|
  {
    var lim := Launched(CrawlFrom(pages, k, current, last, Some(n), intended).requests);
    lim <= AllLinks(pages, k, last) && |lim| <= Room(n, current)
  }

  /** A fresh response whose links the limit cuts ends the crawl with a prefix of its links within the room. */
  lemma LimitedCut(pages: seq<Page>, k: nat, current: nat, last: string, n: int, intended: bool)
    requires k < |pages| && Fresh(pages[k], last)
    requires LaunchLoop(LinksOf(pages[k]), 0, current, Some(n), intended).hitLimit
    ensures LimitedPrefix(pages, k, current, last, n, intended)
  {
    BatchWithinRoom(LinksOf(pages[k]), current, n, intended);
    FreshPage(pages, k, current, last, Some(n), intended);
  }

  /** Past a fresh response the limit does not cut, its links come before a prefix of what the next responses offer. */
  lemma LimitedLater(pages: seq<Page>, k: nat, current: nat, last: string, n: int, intended: bool)
    requires k < |pages| && Fresh(pages[k], last)
    requires !LaunchLoop(LinksOf(pages[k]), 0, current, Some(n), intended).hitLimit
    requires LimitedPrefix(pages, k + 1, current + |LinksOf(pages[k])|, LastLink(pages[k]), n, intended)
    ensures LimitedPrefix(pages, k, current, last, n, intended)
  {
    BatchWithinRoom(LinksOf(pages[k]), current, n, intended);
    FreshPage(pages, k, current, last, Some(n), intended);
  }

  /** With a limit, a crawl launches a prefix of the links the responses offer, and no more than the limit leaves room for. */
  lemma {:induction false} LimitedLaunchesPrefix(pages: seq<Page>, k: nat, current: nat, last: string, n: int, intended: bool)
    requires k <= |pages|
    ensures LimitedPrefix(pages, k, current, last, n, intended)
    decreases |pages| - k
  {
    if k < |pages| && Fresh(pages[k], last) {
      if LaunchLoop(LinksOf(pages[k]), 0, current, Some(n), intended).hitLimit {
        LimitedCut(pages, k, current, last, n, intended);
      } else {
        LimitedLaunchesPrefix(pages, k + 1, current + |LinksOf(pages[k])|, LastLink(pages[k]), n, intended);
        LimitedLater(pages, k, current, last, n, intended);
      }
    } else {
      SilentPage(pages, k, current, last, Some(n), intended);
    }
  }

  /** The first `room` elements of a sequence, all of them when it is shorter. */
  function Take<T>(s: seq<T>, room: nat): (r: seq<T>)
    ensures r <= s && |r| == if room <= |s| then room else |s|
  {
    if room <= |s| then s[..room] else s
  }

  /** Taking `room` from a page followed by more links: a page that fits is kept whole and the rest is taken from the remainder. */
  lemma TakeAppend<T>(page: seq<T>, more: seq<T>, room: nat)
    ensures |page| <= room ==> Take(page + more, room) == page + Take(more, room - |page|)
    ensures room < |page| ==> Take(page + more, room) == page[..room]
  {
    if |page| <= room {
      var r := room - |page|;
      if r <= |more| {
        assert (page + more)[..room] == page + more[..r];
      }
    } else {
      assert (page + more)[..room] == page[..room];
    }
  }

  /** The intended crawl with limit `n` from the k-th response launches the first links the responses offer, as many as fit in the room. */
  predicate IntendedTakes(pages: seq<Page>, k: nat, current: nat, last: string, n: int)
    requires k <= |pages|
  {
    Launched(CrawlFrom(pages, k, current, last, Some(n), true).requests) == Take(AllLinks(pages, k, last), Room(n, current))
  }

  /** A fresh response whose links the limit cuts ends the intended crawl with the links there was room for. */
  lemma IntendedCut(pages: seq<Page>, k: nat, current: nat, last: string, n: int)
    requires k < |pages| && Fresh(pages[k], last)
    requires LaunchLoop(LinksOf(pages[k]), 0, current, Some(n), true).hitLimit
    ensures IntendedTakes(pages, k, current, last, n)
  {
    var links := LinksOf(pages[k]);
    IntendedBatch(links, current, n);
    FreshPage(pages, k, current, last, Some(n), true);
    TakeAppend(links, AllLinks(pages, k + 1, LastLink(pages[k])), Room(n, current));
  }

  /** Past a fresh response the limit does not cut, the intended crawl takes its links and then from the next response on. */
  lemma IntendedLater(pages: seq<Page>, k: nat, current: nat, last: string, n: int)
    requires k < |pages| && Fresh(pages[k], last)
    requires !LaunchLoop(LinksOf(pages[k]), 0, current, Some(n), true).hitLimit
    requires IntendedTakes(pages, k + 1, current + |LinksOf(pages[k])|, LastLink(pages[k]), n)
    ensures IntendedTakes(pages, k, current, last, n)
  {
    var links := LinksOf(pages[k]);
    IntendedBatch(links, current, n);
    FreshPage(pages, k, current, last, Some(n), true);
    TakeAppend(links, AllLinks(pages, k + 1, LastLink(pages[k])), Room(n, current));
    assert Room(n, current + |links|) == Room(n, current) - |links|;
  }

  /** The intended crawl with a limit launches exactly the first links the responses offer, as many as the limit leaves room for. */
  lemma {:induction false} IntendedTakesAllLinks(pages: seq<Page>, k: nat, current: nat, last: string, n: int)
    requires k <= |pages|
    ensures IntendedTakes(pages, k, current, last, n)
    decreases |pages| - k
  {
    if k < |pages| && Fresh(pages[k], last) {
      if LaunchLoop(LinksOf(pages[k]), 0, current, Some(n), true).hitLimit {
        IntendedCut(pages, k, current, last, n);
      } else {
        IntendedTakesAllLinks(pages, k + 1, current + |LinksOf(pages[k])|, LastLink(pages[k]), n);
        IntendedLater(pages, k, current, last, n);
      }
    } else {
      SilentPage(pages, k, current, last, Some(n), true);
    }
  }

  /** The written driver launches a prefix of what an unlimited driver launches, and never more than the limit. */
  lemma CrawlWithinLimit(pages: seq<Page>, k: nat, current: nat, last: string, n: int, intended: bool)
    requires k <= |pages|
    ensures var lim := Launched(CrawlFrom(pages, k, current, last, Some(n), intended).requests);
            var all := Launched(CrawlFrom(pages, k, current, last, None, intended).requests);
            lim <= all && |lim| <= Room(n, current)
  {
    LimitedLaunchesPrefix(pages, k, current, last, n, intended);
    UnlimitedLaunchesAllLinks(pages, k, current, last, intended);
  }

  /** The intended driver with a limit launches the first links of the same driver without one. */
  lemma IntendedTakesFromUnlimited(pages: seq<Page>, k: nat, current: nat, last: string, n: int)
    requires k <= |pages|
    ensures Launched(CrawlFrom(pages, k, current, last, Some(n), true).requests)
            == Take(Launched(CrawlFrom(pages, k, current, last, None, true).requests), Room(n, current))
  {
    IntendedTakesAllLinks(pages, k, current, last, n);
    UnlimitedLaunchesAllLinks(pages, k, current, last, true);
  }

  /** Without a limit the written and the intended driver are the same. */
  lemma {:induction false} UnlimitedIgnoresLimitTest(pages: seq<Page>, k: nat, current: nat, last: string)
    requires k <= |pages|
    ensures CrawlFrom(pages, k, current, last, None, true) == CrawlFrom(pages, k, current, last, None, false)
    decreases |pages| - k
  {
    if k < |pages| && Fresh(pages[k], last) {
      var links := LinksOf(pages[k]);
      UnlimitedLaunchesAll(links, 0, current, true);
      UnlimitedLaunchesAll(links, 0, current, false);
      PageGoesOn(pages[k], current, last, None, true);
      PageGoesOn(pages[k], current, last, None, false);
      UnlimitedIgnoresLimitTest(pages, k + 1, current + |links|, LastLink(pages[k]));
    }
  }

  /**
   The intended driver launches exactly the first `limit` links the unlimited
   driver launches (all of them when there are fewer).
   */
  lemma IntendedLaunchesUpToLimit(pages: seq<Page>, n: int)
    ensures Launched(CrawlPagesIntended(pages, Some(n)).requests)
            == Take(Launched(CrawlPages(pages, None).requests), Room(n, 0))
  {
    IntendedTakesFromUnlimited(pages, 0, 0, "", n);
    UnlimitedIgnoresLimitTest(pages, 0, 0, "");
  }

  /**
   The double count at work: with a limit of 4 and one page of five links the
   written driver launches only two, the intended one four.
   */
  lemma LimitDoubleCountExample()
    ensures var pages := [Links(["a", "b", "c", "d", "e"])];
            && Launched(CrawlPages(pages, Some(4)).requests) == ["a", "b"]
            && CrawlPages(pages, Some(4)).stop == LimitReached
            && Launched(CrawlPagesIntended(pages, Some(4)).requests) == ["a", "b", "c", "d"]
  {
    var links := ["a", "b", "c", "d", "e"];
    assert LaunchLoop(links, 0, 0, Some(4), false) == Batch(2, true);
    assert LaunchLoop(links, 0, 0, Some(4), true) == Batch(4, true);
    LaunchedCons(Request(0, links[..2]), []);
    LaunchedCons(Request(0, links[..4]), []);
  }
}
