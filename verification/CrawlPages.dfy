// Where the pages of a crawl come from: the first from the seed, over http if https does not
// answer, and every other one from its own URL only.
module CrawlPages {
  import opened CrawlMachine
  import opened Entities

  ghost predicate PageOf(c: Config, item: Item, page: Page) {
    Yields(c, item.url, item.depth == 0, page)
  }

  // The pages are, in order, those of the attempts at these places; every other attempt failed.
  ghost predicate LoadedFrom(c: Config, s: Crawl, at: seq<nat>) {
    && |at| == |s.pages|
    && (forall k :: 0 <= k < |at| ==> at[k] < |s.attempts| && PageOf(c, s.attempts[at[k]], s.pages[k]))
    && (forall j, k :: 0 <= j < k < |at| ==> at[j] < at[k])
    && (forall i: nat :: i < |s.attempts| && i !in at ==>
          YieldsNothing(c, s.attempts[i].url, s.attempts[i].depth == 0))
  }

  // Only the first page tried can have depth 0, and that is the seed.
  ghost predicate SeedFirst(c: Config, seed: Url, s: Crawl) {
    forall i :: 0 <= i < |s.attempts| ==> (s.attempts[i].depth == 0 <==> i == 0)
                                          && (i == 0 ==> s.attempts[i] == Item(c.web.strip(seed), 0))
  }

  ghost predicate Underway(c: Config, seed: Url, s: Crawl) {
    || s == Begin(seed)
    || ((forall q :: q in s.queue ==> q.depth > 0) && (s.queue != [] ==> s.attempts != []))
  }

  ghost predicate Sourced(c: Config, seed: Url, s: Crawl) {
    SeedFirst(c, seed, s) && Underway(c, seed, s) && exists at :: LoadedFrom(c, s, at)
  }

  // The attempt at one item: a page more, or none.
  ghost predicate Attempted(c: Config, s: Crawl, s': Crawl, item: Item) {
    && s'.attempts == s.attempts + [item]
    && (|| (exists page :: PageOf(c, item, page) && s'.pages == s.pages + [page])
        || (YieldsNothing(c, item.url, item.depth == 0) && s'.pages == s.pages))
  }

  lemma AttemptedSourced(c: Config, s: Crawl, s': Crawl, item: Item, at: seq<nat>)
    requires Attempted(c, s, s', item) && LoadedFrom(c, s, at)
    ensures exists at' :: LoadedFrom(c, s', at')
  {
    var n := |s.attempts|;
    if s'.pages == s.pages {
      assert LoadedFrom(c, s', at);
    } else {
      var at' := at + [n];
      assert at'[|at|] == n;
      assert LoadedFrom(c, s', at');
    }
  }

  // A turn takes the head off the queue, and tries it or not; what it queues lies deeper.
  lemma VisitIs(c: Config, seed: Url, s: Crawl, granted: bool)
    requires Running(c, s) && Sourced(c, seed, s) && (s.queue[0].depth == 0 ==> s.pagesFetched == 0)
    ensures var s', item := Visit(c, s, granted), Item(c.web.strip(s.queue[0].url), s.queue[0].depth);
            || (s'.attempts == s.attempts && s'.pages == s.pages && s'.queue == s.queue[1..])
            || (Attempted(c, s, s', item) && forall q :: q in s'.queue ==> q in s.queue[1..] || q.depth > 0)
  {
    var s', item := Visit(c, s, granted), Item(c.web.strip(s.queue[0].url), s.queue[0].depth);
    var isSeed := item.depth == 0 && s.pagesFetched == 0;
    LoadIsPage(c, item.url, isSeed);
    if s'.attempts != s.attempts {
      var page := Load(c, item.url, isSeed);
      if page.Some? {
        assert PageOf(c, item, page.value);
        var visited := s.visited + {item.url};
        AddLinksFacts(c, s.queue[1..], visited, page.value.links, item.depth + 1);
        forall q | q in s'.queue
          ensures q in s.queue[1..] || q.depth > 0
        {
          var k :| 0 <= k < |s'.queue| && s'.queue[k] == q;
        }
      }
    }
  }

  lemma AttemptedFirst(c: Config, seed: Url, s: Crawl, s': Crawl, item: Item)
    requires SeedFirst(c, seed, s) && Attempted(c, s, s', item)
    requires item.depth == 0 <==> s.attempts == []
    requires s.attempts == [] ==> item == Item(c.web.strip(seed), 0)
    ensures SeedFirst(c, seed, s')
  {
  }

  lemma VisitSourced(c: Config, seed: Url, s: Crawl, granted: bool)
    requires Running(c, s) && Sourced(c, seed, s)
    ensures Sourced(c, seed, Visit(c, s, granted))
  {
    var s', item := Visit(c, s, granted), Item(c.web.strip(s.queue[0].url), s.queue[0].depth);
    var at :| LoadedFrom(c, s, at);
    VisitIs(c, seed, s, granted);
    assert forall q :: q in s.queue[1..] ==> q in s.queue;
    if s'.attempts == s.attempts {
      assert LoadedFrom(c, s', at);
    } else {
      AttemptedFirst(c, seed, s, s', item);
      AttemptedSourced(c, s, s', item, at);
    }
  }

  lemma {:induction false} RunSourced(c: Config, seed: Url, run: seq<Crawl>)
    requires IsRun(c, seed, run)
    ensures Sourced(c, seed, run[|run| - 1])
    decreases |run|
  {
    if |run| == 1 {
      assert LoadedFrom(c, Begin(seed), []);
    } else {
      var n := |run| - 1;
      assert Step(c, run[n - 1], run[n]);
      RunSourced(c, seed, run[..n]);
      VisitSourced(c, seed, run[n - 1], true);
      VisitSourced(c, seed, run[n - 1], false);
    }
  }

  // The first turn tries the seed, unless it is off site or refused.
  ghost predicate SeedTried(c: Config, seed: Url, s: Crawl) {
    var u := c.web.strip(seed);
    && (!OnSite(c, u) ==> s.attempts == [])
    && (OnSite(c, u) && !s.denied ==>
          && s.attempts != []
          && (YieldsNothing(c, u, true) ==> s.stopped && s.pages == []))
  }

  lemma FirstVisit(c: Config, seed: Url, granted: bool)
    requires Running(c, Begin(seed))
    ensures SeedTried(c, seed, Visit(c, Begin(seed), granted))
    ensures !OnSite(c, c.web.strip(seed)) ==> Visit(c, Begin(seed), granted).queue == []
  {
    LoadIsPage(c, c.web.strip(seed), true);
  }

  lemma StepTried(c: Config, seed: Url, s: Crawl, s': Crawl)
    requires Step(c, s, s') && SeedTried(c, seed, s) && (!OnSite(c, c.web.strip(seed)) ==> s.queue == [])
    ensures SeedTried(c, seed, s') && (!OnSite(c, c.web.strip(seed)) ==> s'.queue == [])
  {
  }

  lemma {:induction false} RunTriesSeed(c: Config, seed: Url, run: seq<Crawl>)
    requires IsRun(c, seed, run) && |run| > 1
    ensures SeedTried(c, seed, run[|run| - 1])
    ensures !OnSite(c, c.web.strip(seed)) ==> run[|run| - 1].queue == []
    decreases |run|
  {
    var n := |run| - 1;
    assert Step(c, run[n - 1], run[n]);
    if n == 1 {
      FirstVisit(c, seed, true);
      FirstVisit(c, seed, false);
    } else {
      RunTriesSeed(c, seed, run[..n]);
      StepTried(c, seed, run[n - 1], run[n]);
    }
  }

  // A crawl that has ended and was not refused a page, from an address u on the seed's site.
  ghost predicate BeganAt(c: Config, u: Url, s: Crawl) {
    && (forall body :: c.web.get(u) == Some(body) ==> s.pages != [] && s.pages[0] == c.web.parse(body, u))
    && (forall rest, body ::
          c.web.get(u).None? && u == "https://" + rest && c.web.get("http://" + rest) == Some(body) ==>
          s.pages != [] && s.pages[0] == c.web.parse(body, "http://" + rest))
    && (YieldsNothing(c, u, true) ==> s.pages == [] && s.collected == [])
  }

  // The page of an address tried after the seed, fetched as it stands.
  ghost predicate IsFurtherPage(c: Config, s: Crawl, page: Page) {
    exists i :: 0 < i < |s.attempts| && OwnPage(c, s.attempts[i].url, page)
  }

  ghost predicate OthersAreOwn(c: Config, s: Crawl) {
    forall k :: 0 < k < |s.pages| ==> IsFurtherPage(c, s, s.pages[k])
  }

  // From the seed over https, or over http if https does not answer, or not at all; from
  // every further address as it stands; and from nowhere if the seed is off its own site.
  ghost predicate StartsAtSeed(c: Config, seed: Url, s: Crawl) {
    && (c.maxPages >= 1 && OnSite(c, c.web.strip(seed)) && !s.denied ==> BeganAt(c, c.web.strip(seed), s))
    && (!OnSite(c, c.web.strip(seed)) ==> s.pages == [] && s.collected == [])
    && OthersAreOwn(c, s)
  }

  lemma OnlyPage(c: Config, u: Url, page: Page)
    requires Yields(c, u, true, page)
    ensures forall body :: c.web.get(u) == Some(body) ==> page == c.web.parse(body, u)
    ensures forall rest, body ::
      c.web.get(u).None? && u == "https://" + rest && c.web.get("http://" + rest) == Some(body) ==>
      page == c.web.parse(body, "http://" + rest)
  {
    forall rest | u == "https://" + rest
      ensures rest == u[8..]
    {
    }
  }

  lemma NoPagesNoTraces(c: Config, s: Crawl)
    requires Bounded(c, s)
    ensures s.pages == [] ==> s.collected == []
  {
    if s.collected != [] {
      assert s.collected[0] in s.collected;
    }
  }

  lemma FirstPage(c: Config, seed: Url, s: Crawl, at: seq<nat>)
    requires SeedFirst(c, seed, s) && LoadedFrom(c, s, at) && SeedTried(c, seed, s) && Bounded(c, s)
    requires OnSite(c, c.web.strip(seed)) && !s.denied
    ensures BeganAt(c, c.web.strip(seed), s)
  {
    var u := c.web.strip(seed);
    assert s.attempts[0] == Item(u, 0);
    if !YieldsNothing(c, u, true) {
      assert 0 in at;
      var k :| 0 <= k < |at| && at[k] == 0;
      assert at[0] <= at[k] && PageOf(c, s.attempts[at[0]], s.pages[0]);
      OnlyPage(c, u, s.pages[0]);
    } else {
      NoPagesNoTraces(c, s);
    }
  }

  lemma LaterPages(c: Config, seed: Url, s: Crawl, at: seq<nat>)
    requires SeedFirst(c, seed, s) && LoadedFrom(c, s, at)
    ensures OthersAreOwn(c, s)
  {
    forall k | 0 < k < |s.pages|
      ensures IsFurtherPage(c, s, s.pages[k])
    {
      assert 0 <= at[0] < at[k];
      assert PageOf(c, s.attempts[at[k]], s.pages[k]) && s.attempts[at[k]].depth > 0;
    }
  }

  lemma CrawlStartsAtSeed(c: Config, seed: Url, run: seq<Crawl>)
    requires IsRun(c, seed, run) && !Running(c, run[|run| - 1])
    ensures StartsAtSeed(c, seed, run[|run| - 1])
  {
    var s := run[|run| - 1];
    RunSourced(c, seed, run);
    CrawlIsBounded(c, seed, run);
    var at :| LoadedFrom(c, s, at);
    if |run| > 1 {
      RunTriesSeed(c, seed, run);
      if OnSite(c, c.web.strip(seed)) && !s.denied {
        FirstPage(c, seed, s, at);
      }
    }
    LaterPages(c, seed, s, at);
    assert s.attempts == [] ==> at == [];
    NoPagesNoTraces(c, s);
  }
}
