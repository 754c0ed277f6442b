/** The page-harvest loop of `main` (scraper.py:451-509). The quiet branch and
    the progress-bar branch do the same thing with the data, so one loop models
    both. Pages are requested in order with a pagination cursor; the loop stops
    when the song limit is already reached, when a page yields no records, or
    when the page budget is used up, and the result is cut to the song limit. */
module Harvest {
  import opened Wrappers
  import opened Records

  /** One page request: the `actPage` number and the `lastId` cursor. The
      cursor is absent when the previous page's last item had no `data-id`. */
  datatype Request = Request(page: int, cursor: Option<string>)

  /** The site as the loop sees it: the raw items extracted from the response
      to a request. A transport error, a bad status or unparsable markup all
      arrive as an empty sequence, because `scrape_playlist` returns `[]` then. */
  type Site = (int, Option<string>) -> seq<RawItem>

  /** `scrape_playlist` for one request: the kept records of the page. */
  function Scrape(site: Site, req: Request): seq<Record> {
    Extract(site(req.page, req.cursor))
  }

  /** The records of the given requests' pages, concatenated in request order. */
  function Collected(site: Site, reqs: seq<Request>): (all: seq<Record>)
    decreases |reqs|
  {
    if reqs == [] then []
    else Collected(site, reqs[..|reqs| - 1]) + Scrape(site, reqs[|reqs| - 1])
  }

  /** The cursor for the next page: the `data_id` of the page's last record. */
  function NextCursor(page: seq<Record>): Option<string>
    requires page != []
  {
    page[|page| - 1].dataId
  }

  /** `max_songs` is tested for truthiness: absent and zero both mean "no limit",
      and a negative value is an active limit. */
  predicate LimitActive(maxSongs: Option<int>) {
    maxSongs.Some? && maxSongs.value != 0
  }

  /** The guard checked before each page request. */
  predicate LimitReached(maxSongs: Option<int>, count: int) {
    LimitActive(maxSongs) && count >= maxSongs.value
  }

  /** Python's `s[:n]`: a negative `n` counts from the end. */
  function SliceTo<T>(s: seq<T>, n: int): (r: seq<T>)
    ensures |r| <= |s| && r == s[..|r|]
    ensures 0 <= n ==> |r| == if n < |s| then n else |s|
    ensures n < 0 ==> |r| == if |s| + n > 0 then |s| + n else 0
  {
    if 0 <= n then (if n < |s| then s[..n] else s)
    else if |s| + n > 0 then s[..|s| + n]
    else []
  }

  /** The final trim: with an active limit and more records than it, keep
      `all[:max_songs]`; otherwise keep everything. */
  function Trim(all: seq<Record>, maxSongs: Option<int>): (songs: seq<Record>)
    ensures |songs| <= |all| && songs == all[..|songs|]
    ensures !LimitActive(maxSongs) ==> songs == all
    ensures LimitActive(maxSongs) && 0 < maxSongs.value ==>
      |songs| == if |all| < maxSongs.value then |all| else maxSongs.value
  {
    if LimitActive(maxSongs) && |all| > maxSongs.value then SliceTo(all, maxSongs.value) else all
  }

  /** The requests form the cursor chain of a run: page j + 1 is requested with
      the cursor left by page j, page 1 with `startId`, and the first `scraped`
      pages were non-empty. */
  predicate CursorChain(site: Site, startId: string, reqs: seq<Request>, scraped: nat) {
    && scraped <= |reqs|
    && (forall j :: 0 <= j < |reqs| ==> reqs[j].page == j + 1)
    && (|reqs| > 0 ==> reqs[0].cursor == Some(startId))
    && (forall j :: 0 <= j < scraped ==> Scrape(site, reqs[j]) != [])
    && (forall j :: 0 <= j < |reqs| - 1 && j < scraped ==> reqs[j + 1].cursor == NextCursor(Scrape(site, reqs[j])))
  }

  /** Every request was made while the records gathered before it were below
      the limit. */
  predicate BelowLimit(site: Site, maxSongs: Option<int>, reqs: seq<Request>) {
    forall j :: 0 <= j < |reqs| ==> !LimitReached(maxSongs, |Collected(site, reqs[..j])|)
  }

  /** The stop rules of the loop: at most `pages` requests; every request is
      made while the records gathered so far are below the limit; only the
      last request may have come back empty, and then it is the reason to stop;
      otherwise the loop ended because the budget was used up or the limit was
      reached. */
  predicate StopRules(site: Site, pages: int, maxSongs: Option<int>, reqs: seq<Request>, scraped: nat)
    requires scraped <= |reqs|
  {
    && |reqs| <= (if pages > 0 then pages else 0)
    && BelowLimit(site, maxSongs, reqs)
    && (scraped == |reqs| || (scraped == |reqs| - 1 && Scrape(site, reqs[scraped]) == []))
    && (scraped == |reqs| ==> |reqs| >= pages || LimitReached(maxSongs, |Collected(site, reqs)|))
  }

  /** A complete run of the loop: `reqs` are the requests made, `scraped` is
      `pages_scraped`, and `songs` is the trimmed concatenation of the pages
      that were appended. */
  predicate IsHarvest(site: Site, pages: int, maxSongs: Option<int>, startId: string,
                      reqs: seq<Request>, scraped: nat, songs: seq<Record>)
  {
    && CursorChain(site, startId, reqs, scraped)
    && StopRules(site, pages, maxSongs, reqs, scraped)
    && songs == Trim(Collected(site, reqs[..scraped]), maxSongs)
  }

  lemma CollectedSnoc(site: Site, reqs: seq<Request>, req: Request)
    ensures Collected(site, reqs + [req]) == Collected(site, reqs) + Scrape(site, req)
  {
    assert (reqs + [req])[..|reqs|] == reqs;
  }

  /** Appending a request made below the limit keeps every request below
      the limit. */
  lemma BelowLimitSnoc(site: Site, maxSongs: Option<int>, reqs: seq<Request>, req: Request)
    requires BelowLimit(site, maxSongs, reqs)
    requires !LimitReached(maxSongs, |Collected(site, reqs)|)
    ensures BelowLimit(site, maxSongs, reqs + [req])
  {
    forall j | 0 <= j < |reqs| + 1
      ensures !LimitReached(maxSongs, |Collected(site, (reqs + [req])[..j])|)
    {
      assert (reqs + [req])[..j] == reqs[..j];
      if j == |reqs| {
        assert reqs[..j] == reqs;
      }
    }
  }

  /** The cursor the loop holds after the pages `reqs` were all non-empty. */
  function CurrentCursor(site: Site, startId: string, reqs: seq<Request>): Option<string>
    requires reqs != [] ==> Scrape(site, reqs[|reqs| - 1]) != []
  {
    if reqs == [] then Some(startId) else NextCursor(Scrape(site, reqs[|reqs| - 1]))
  }

  /** Requesting the next page with the current cursor extends the chain. */
  lemma ChainSnoc(site: Site, startId: string, reqs: seq<Request>, req: Request)
    requires CursorChain(site, startId, reqs, |reqs|)
    requires req.page == |reqs| + 1 && req.cursor == CurrentCursor(site, startId, reqs)
    ensures CursorChain(site, startId, reqs + [req], |reqs|)
    ensures Scrape(site, req) != [] ==> CursorChain(site, startId, reqs + [req], |reqs| + 1)
  {
    var reqs' := reqs + [req];
    forall j | 0 <= j < |reqs'|
      ensures reqs'[j].page == j + 1
    {
      if j < |reqs| {
        assert reqs'[j] == reqs[j];
      }
    }
    forall j | 0 <= j < |reqs'| - 1 && j < |reqs|
      ensures reqs'[j + 1].cursor == NextCursor(Scrape(site, reqs'[j]))
    {
      assert reqs'[j] == reqs[j];
      if j + 1 < |reqs| {
        assert reqs'[j + 1] == reqs[j + 1];
      }
    }
    assert forall j :: 0 <= j < |reqs| ==> Scrape(site, reqs'[j]) == Scrape(site, reqs[j]);
  }

  /** The state of the loop at the top of an iteration: every page so far was
      non-empty, `all` is their concatenation and `lastId` the cursor they left. */
  predicate LoopState(site: Site, startId: string, maxSongs: Option<int>,
                      reqs: seq<Request>, all: seq<Record>, lastId: Option<string>)
  {
    && CursorChain(site, startId, reqs, |reqs|)
    && BelowLimit(site, maxSongs, reqs)
    && lastId == CurrentCursor(site, startId, reqs)
    && all == Collected(site, reqs)
  }

  /** One iteration below the limit: the request for the next page joins the
      chain; an empty page ends it, a non-empty one extends the state. */
  lemma Advance(site: Site, startId: string, maxSongs: Option<int>,
                reqs: seq<Request>, all: seq<Record>, lastId: Option<string>)
    requires LoopState(site, startId, maxSongs, reqs, all, lastId)
    requires !LimitReached(maxSongs, |all|)
    ensures var req := Request(|reqs| + 1, lastId);
      && (reqs + [req])[..|reqs|] == reqs
      && CursorChain(site, startId, reqs + [req], |reqs|)
      && BelowLimit(site, maxSongs, reqs + [req])
      && (Scrape(site, req) != [] ==>
            LoopState(site, startId, maxSongs, reqs + [req], all + Scrape(site, req), NextCursor(Scrape(site, req))))
  {
    var req := Request(|reqs| + 1, lastId);
    CollectedSnoc(site, reqs, req);
    BelowLimitSnoc(site, maxSongs, reqs, req);
    ChainSnoc(site, startId, reqs, req);
    assert (reqs + [req])[..|reqs|] == reqs;
  }

  /** Every way out of the loop leaves a complete run. */
  lemma FinishRun(site: Site, pages: int, maxSongs: Option<int>, startId: string,
                  reqs: seq<Request>, scraped: nat)
    requires CursorChain(site, startId, reqs, scraped)
    requires |reqs| <= (if pages > 0 then pages else 0)
    requires BelowLimit(site, maxSongs, reqs)
    requires || (scraped == |reqs| && (|reqs| >= pages || LimitReached(maxSongs, |Collected(site, reqs)|)))
             || (scraped == |reqs| - 1 && Scrape(site, reqs[scraped]) == [])
    ensures IsHarvest(site, pages, maxSongs, startId, reqs, scraped, Trim(Collected(site, reqs[..scraped]), maxSongs))
  {
  }

  /** The harvest loop, run against `site`. Returns the trimmed songs,
      `pages_scraped`, and the requests it made, in order. */
  method Harvest(site: Site, pages: int, maxSongs: Option<int>, startId: string)
    returns (songs: seq<Record>, pagesScraped: nat, requests: seq<Request>)
    ensures IsHarvest(site, pages, maxSongs, startId, requests, pagesScraped, songs)
  {
    var all: seq<Record> := [];
    var lastId: Option<string> := Some(startId);
    pagesScraped := 0;
    requests := [];
    var page := 1;
    while page <= pages
      invariant 1 <= page && |requests| == page - 1 == pagesScraped
      invariant |requests| <= (if pages > 0 then pages else 0)
      invariant LoopState(site, startId, maxSongs, requests, all, lastId)
    {
      if LimitReached(maxSongs, |all|) {
        break;
      }
      var req := Request(page, lastId);
      var pageData := Scrape(site, req);
      Advance(site, startId, maxSongs, requests, all, lastId);
      requests := requests + [req];
      if pageData == [] {
        FinishRun(site, pages, maxSongs, startId, requests, pagesScraped);
        songs := Trim(all, maxSongs);
        return;
      }
      all := all + pageData;
      pagesScraped := page;
      lastId := pageData[|pageData| - 1].dataId;
      page := page + 1;
    }
    assert requests[..pagesScraped] == requests;
    FinishRun(site, pages, maxSongs, startId, requests, pagesScraped);
    songs := Trim(all, maxSongs);
  }

  /** Two cursor chains from the same start agree on every page they share. */
  lemma {:induction false} ChainsAgree(site: Site, startId: string,
                                       r1: seq<Request>, s1: nat, r2: seq<Request>, s2: nat, j: nat)
    requires CursorChain(site, startId, r1, s1) && CursorChain(site, startId, r2, s2)
    requires |r1| <= s1 + 1 && |r2| <= s2 + 1
    requires j < |r1| && j < |r2|
    ensures r1[j] == r2[j]
  {
    if j > 0 {
      ChainsAgree(site, startId, r1, s1, r2, s2, j - 1);
    }
  }

  /** The stop rules pin the run down: the site and the settings determine the
      requests made, `pages_scraped` and the songs returned. */
  lemma HarvestDeterministic(site: Site, pages: int, maxSongs: Option<int>, startId: string,
                             r1: seq<Request>, s1: nat, songs1: seq<Record>,
                             r2: seq<Request>, s2: nat, songs2: seq<Record>)
    requires IsHarvest(site, pages, maxSongs, startId, r1, s1, songs1)
    requires IsHarvest(site, pages, maxSongs, startId, r2, s2, songs2)
    ensures r1 == r2 && s1 == s2 && songs1 == songs2
  {
    forall j | 0 <= j < |r1| && j < |r2|
      ensures r1[j] == r2[j]
    {
      ChainsAgree(site, startId, r1, s1, r2, s2, j);
    }
    RunNotLonger(site, pages, maxSongs, startId, r1, s1, r2, s2);
    RunNotLonger(site, pages, maxSongs, startId, r2, s2, r1, s1);
    assert r1 == r2;
  }

  /** A run that agrees with a finished run on their shared pages cannot go on
      past it. */
  lemma RunNotLonger(site: Site, pages: int, maxSongs: Option<int>, startId: string,
                     r1: seq<Request>, s1: nat, r2: seq<Request>, s2: nat)
    requires CursorChain(site, startId, r1, s1) && StopRules(site, pages, maxSongs, r1, s1)
    requires CursorChain(site, startId, r2, s2) && StopRules(site, pages, maxSongs, r2, s2)
    requires forall j :: 0 <= j < |r1| && j < |r2| ==> r1[j] == r2[j]
    ensures |r2| <= |r1|
  {
    var n := |r1|;
    SharedPrefix(r1, r2);
    if s1 == n - 1 {
      assert n - 1 < |r2| ==> Scrape(site, r2[n - 1]) == [];
    }
  }

  lemma SharedPrefix<T>(a: seq<T>, b: seq<T>)
    requires forall j :: 0 <= j < |a| && j < |b| ==> a[j] == b[j]
    ensures |a| <= |b| ==> b[..|a|] == a
  {
  }

  /** With an active positive limit the run returns at most `max_songs`
      songs, and they are the first records gathered. */
  lemma HarvestWithinLimit(site: Site, pages: int, maxSongs: Option<int>, startId: string,
                           reqs: seq<Request>, scraped: nat, songs: seq<Record>)
    requires IsHarvest(site, pages, maxSongs, startId, reqs, scraped, songs)
    ensures songs == Collected(site, reqs[..scraped])[..|songs|]
    ensures LimitActive(maxSongs) && 0 < maxSongs.value ==> |songs| <= maxSongs.value
    ensures !LimitActive(maxSongs) ==> songs == Collected(site, reqs[..scraped])
  {
  }

  /** The records of one or two requests. */
  lemma CollectedPair(site: Site, r1: Request, r2: Request)
    ensures Collected(site, [r1]) == Scrape(site, r1)
    ensures Collected(site, [r1, r2]) == Scrape(site, r1) + Scrape(site, r2)
  {
    assert [r1][..0] == [];
    assert [r1, r2][..1] == [r1];
  }

  /** A run whose second page comes back empty stops there: two requests,
      one page scraped, and only the first page's records returned. */
  lemma HarvestStopsAtEmptyPage(site: Site, startId: string,
                                reqs: seq<Request>, scraped: nat, songs: seq<Record>)
    requires Scrape(site, Request(1, Some(startId))) != []
    requires Scrape(site, Request(2, NextCursor(Scrape(site, Request(1, Some(startId)))))) == []
    requires IsHarvest(site, 3, None, startId, reqs, scraped, songs)
    ensures scraped == 1 && |reqs| == 2
    ensures songs == Scrape(site, Request(1, Some(startId)))
  {
    var r1 := Request(1, Some(startId));
    var page1 := Scrape(site, r1);
    var r2 := Request(2, NextCursor(page1));
    var expected := [r1, r2];
    CollectedPair(site, r1, r2);
    assert expected[..1] == [r1];
    assert CursorChain(site, startId, expected, 1);
    assert BelowLimit(site, None, expected);
    assert StopRules(site, 3, None, expected, 1);
    assert IsHarvest(site, 3, None, startId, expected, 1, page1);
    HarvestDeterministic(site, 3, None, startId, reqs, scraped, songs, expected, 1, page1);
  }

  /** A limit of five over pages of four and four records: the second page is
      requested because four is below five, the third is not, and the eight
      records are cut to the first five. */
  lemma HarvestTrimsToLimit(site: Site, startId: string,
                            reqs: seq<Request>, scraped: nat, songs: seq<Record>)
    requires |Scrape(site, Request(1, Some(startId)))| == 4
    requires |Scrape(site, Request(2, NextCursor(Scrape(site, Request(1, Some(startId))))))| == 4
    requires IsHarvest(site, 3, Some(5), startId, reqs, scraped, songs)
    ensures scraped == 2 && |reqs| == 2 && |songs| == 5
    ensures songs == (Scrape(site, reqs[0]) + Scrape(site, reqs[1]))[..5]
  {
    var r1 := Request(1, Some(startId));
    var page1 := Scrape(site, r1);
    var r2 := Request(2, NextCursor(page1));
    var page2 := Scrape(site, r2);
    var expected := [r1, r2];
    CollectedPair(site, r1, r2);
    assert expected[..0] == [];
    assert expected[..1] == [r1];
    assert expected[..2] == expected;
    assert CursorChain(site, startId, expected, 2);
    assert BelowLimit(site, Some(5), expected);
    assert StopRules(site, 3, Some(5), expected, 2);
    assert IsHarvest(site, 3, Some(5), startId, expected, 2, (page1 + page2)[..5]);
    HarvestDeterministic(site, 3, Some(5), startId, reqs, scraped, songs, expected, 2, (page1 + page2)[..5]);
  }
}
