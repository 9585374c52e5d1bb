// The bounded crawl as a state machine: one step handles one queue item. The shared budget
// may grant or refuse each request, whatever other crawls do.
module CrawlMachine {
  import opened Entities
  import opened Walks

  type Url = string
  type Host = string

  datatype Page = Page(traces: seq<Trace>, links: seq<Url>)

  // The web and the URL library as seen from one crawl.
  datatype Web = Web(
    // stripFragment
    strip: Url -> Url,
    // url.Parse and Hostname; None for a parse error or an empty host part
    host: Url -> Option<Host>,
    // registrableDomain
    registrable: Host -> Option<string>,
    // fetcher.Get and reading the body
    get: Url -> Option<string>,
    // parsePage on a body and the URL it came from
    parse: (string, Url) -> Page)

  datatype Item = Item(url: Url, depth: nat)

  datatype Config = Config(web: Web, seedHost: Host, maxDepth: int, maxPages: int)

  // Histories beside the loop's variables: attempts, the fetches made, in order; pages, those
  // that loaded; denied, the budget refused at least once; stopped, the seed did not load.
  datatype Crawl = Crawl(
    queue: seq<Item>,
    visited: set<Url>,
    collected: seq<Trace>,
    pagesFetched: nat,
    attempts: seq<Item>,
    pages: seq<Page>,
    denied: bool,
    stopped: bool)

  function SameSite(c: Config, candidate: Host): bool {
    var seed, other := c.web.registrable(c.seedHost), c.web.registrable(candidate);
    seed.Some? && other.Some? && seed.value == other.value
  }

  predicate InScope(c: Config, u: Url) {
    c.web.host(u).Some? && SameSite(c, c.web.host(u).value)
  }

  const HTTPS := "https://"
  const HTTP := "http://"

  predicate HasPrefix(s: string, prefix: string) {
    |prefix| <= |s| && s[..|prefix|] == prefix
  }

  // fetchURL: the seed page is tried over http when https fails.
  function Load(c: Config, u: Url, tryHTTPFallback: bool): Option<Page> {
    match c.web.get(u)
    case Some(body) => Some(c.web.parse(body, u))
    case None =>
      if tryHTTPFallback && HasPrefix(u, HTTPS) then
        var plain := HTTP + u[|HTTPS|..];
        match c.web.get(plain)
        case Some(body) => Some(c.web.parse(body, plain))
        case None => None
      else None
  }

  // ---- What a load and a link come to, on the web alone ----

  ghost predicate OwnPage(c: Config, u: Url, page: Page) {
    exists body :: c.web.get(u) == Some(body) && page == c.web.parse(body, u)
  }

  // u does not answer over https, but over http.
  ghost predicate PlainPage(c: Config, u: Url, page: Page) {
    c.web.get(u).None? && exists rest :: u == "https://" + rest && OwnPage(c, "http://" + rest, page)
  }

  // The page u yields; only the seed may come over http.
  ghost predicate Yields(c: Config, u: Url, isSeed: bool, page: Page) {
    OwnPage(c, u, page) || (isSeed && PlainPage(c, u, page))
  }

  ghost predicate YieldsNothing(c: Config, u: Url, isSeed: bool) {
    && c.web.get(u).None?
    && (isSeed ==> forall rest :: u == "https://" + rest ==> c.web.get("http://" + rest).None?)
  }

  // The seed's host and that of u belong to one registrable domain.
  ghost predicate OnSite(c: Config, u: Url) {
    exists host, domain ::
      c.web.host(u) == Some(host) && c.web.registrable(host) == Some(domain)
      && c.web.registrable(c.seedHost) == Some(domain)
  }

  lemma LoadIsPage(c: Config, u: Url, tryHTTPFallback: bool)
    ensures forall page :: Load(c, u, tryHTTPFallback) == Some(page) <==> Yields(c, u, tryHTTPFallback, page)
    ensures Load(c, u, tryHTTPFallback).None? <==> YieldsNothing(c, u, tryHTTPFallback)
  {
    forall rest | u == HTTPS + rest
      ensures HasPrefix(u, HTTPS) && u[|HTTPS|..] == rest
    {
    }
    if HasPrefix(u, HTTPS) {
      assert u == HTTPS + u[|HTTPS|..];
    }
  }

  // The traces of a page that were not collected before.
  function AddTraces(collected: seq<Trace>, traces: seq<Trace>): seq<Trace> {
    if traces == [] then collected
    else
      var front, t := AddTraces(collected, traces[..|traces| - 1]), traces[|traces| - 1];
      if t in front then front else front + [t]
  }

  predicate Follow(c: Config, visited: set<Url>, link: Url) {
    c.web.strip(link) !in visited && InScope(c, c.web.strip(link))
  }

  // The links of a page that are worth queueing.
  function AddLinks(c: Config, queue: seq<Item>, visited: set<Url>, links: seq<Url>, depth: nat): seq<Item> {
    if links == [] then queue
    else
      var front, link := AddLinks(c, queue, visited, links[..|links| - 1], depth), links[|links| - 1];
      if Follow(c, visited, link) then front + [Item(c.web.strip(link), depth)] else front
  }

  function Begin(seed: Url): Crawl {
    Crawl([Item(seed, 0)], {}, [], 0, [], [], false, false)
  }

  predicate Running(c: Config, s: Crawl) {
    s.queue != [] && s.pagesFetched < c.maxPages && !s.stopped
  }

  function Fetched(c: Config, s: Crawl, item: Item, page: Page): Crawl {
    var s' := s.(pagesFetched := s.pagesFetched + 1, pages := s.pages + [page],
                 collected := AddTraces(s.collected, page.traces));
    if item.depth >= c.maxDepth then s'
    else s'.(queue := AddLinks(c, s.queue, s.visited, page.links, item.depth + 1))
  }

  function IsSeedTry(s: Crawl, item: Item): bool {
    item.depth == 0 && s.pagesFetched == 0
  }

  function Attempt(c: Config, s: Crawl, item: Item): Crawl {
    var s' := s.(attempts := s.attempts + [item]);
    match Load(c, item.url, IsSeedTry(s, item))
    case Some(page) => Fetched(c, s', item, page)
    case None => if IsSeedTry(s, item) then s'.(stopped := true) else s'
  }

  // One turn of the loop; granted is the budget's answer if it is asked.
  function Visit(c: Config, s: Crawl, granted: bool): Crawl
    requires Running(c, s)
  {
    var item := Item(c.web.strip(s.queue[0].url), s.queue[0].depth);
    var rest := s.(queue := s.queue[1..]);
    if item.url in s.visited then rest
    else
      var marked := rest.(visited := s.visited + {item.url});
      if !InScope(c, item.url) then marked
      else if !granted then marked.(denied := true)
      else Attempt(c, marked, item)
  }

  ghost predicate Step(c: Config, s: Crawl, s': Crawl) {
    Running(c, s) && (s' == Visit(c, s, true) || s' == Visit(c, s, false))
  }

  ghost predicate IsRun(c: Config, seed: Url, run: seq<Crawl>) {
    && run != []
    && run[0] == Begin(seed)
    && forall i :: 0 < i < |run| ==> Step(c, run[i - 1], run[i])
  }

  lemma RunExtends(c: Config, seed: Url, run: seq<Crawl>, granted: bool)
    requires IsRun(c, seed, run) && Running(c, run[|run| - 1])
    ensures IsRun(c, seed, run + [Visit(c, run[|run| - 1], granted)])
  {
    assert Step(c, run[|run| - 1], Visit(c, run[|run| - 1], granted));
  }

  // ---- Helpers ----

  lemma {:induction false} AddTracesFacts(collected: seq<Trace>, traces: seq<Trace>)
    ensures Simple(collected) ==> Simple(AddTraces(collected, traces))
    ensures forall t :: t in AddTraces(collected, traces) <==> t in collected || t in traces
  {
    if traces != [] {
      var front, t := traces[..|traces| - 1], traces[|traces| - 1];
      AddTracesFacts(collected, front);
      SimpleAppend(AddTraces(collected, front), t);
      assert forall x :: x in traces <==> x in front || x == t;
    }
  }

  lemma {:induction false} AddLinksFacts(c: Config, queue: seq<Item>, visited: set<Url>, links: seq<Url>, depth: nat)
    ensures queue <= AddLinks(c, queue, visited, links, depth)
    ensures forall i :: |queue| <= i < |AddLinks(c, queue, visited, links, depth)| ==>
      var item := AddLinks(c, queue, visited, links, depth)[i];
      item.depth == depth && item.url !in visited && InScope(c, item.url)
      && exists link :: link in links && item.url == c.web.strip(link)
    ensures forall link :: link in links && Follow(c, visited, link) ==>
      Item(c.web.strip(link), depth) in AddLinks(c, queue, visited, links, depth)
  {
    if links != [] {
      var front, last := links[..|links| - 1], links[|links| - 1];
      AddLinksFacts(c, queue, visited, front, depth);
      assert forall link :: link in links <==> link in front || link == last;
    }
  }

  // ---- What is added comes in the order of the page ----

  ghost predicate Increasing(at: seq<nat>) {
    forall j, k :: 0 <= j < k < |at| ==> at[j] < at[k]
  }

  // The i-th trace of the page was not collected and comes here for the first time.
  ghost predicate IsNewTrace(collected: seq<Trace>, traces: seq<Trace>, i: nat) {
    i < |traces| && traces[i] !in collected && forall j :: 0 <= j < i ==> traces[j] != traces[i]
  }

  ghost predicate TracesInOrder(collected: seq<Trace>, traces: seq<Trace>, collected': seq<Trace>, at: seq<nat>) {
    && |collected'| == |collected| + |at| && collected'[..|collected|] == collected && Increasing(at)
    && forall k :: 0 <= k < |at| ==>
         IsNewTrace(collected, traces, at[k]) && collected'[|collected| + k] == traces[at[k]]
  }

  lemma NextTrace(collected: seq<Trace>, front: seq<Trace>, collected': seq<Trace>, at: seq<nat>, t: Trace)
    requires TracesInOrder(collected, front, collected', at)
    ensures TracesInOrder(collected, front + [t], collected', at)
    ensures IsNewTrace(collected, front + [t], |front|) ==>
              TracesInOrder(collected, front + [t], collected' + [t], at + [|front|])
  {
    forall i: nat | IsNewTrace(collected, front, i)
      ensures IsNewTrace(collected, front + [t], i)
    {
    }
    assert (collected' + [t])[..|collected|] == collected;
  }

  lemma {:induction false} TracesKeepOrder(collected: seq<Trace>, traces: seq<Trace>) returns (at: seq<nat>)
    ensures TracesInOrder(collected, traces, AddTraces(collected, traces), at)
  {
    at := [];
    if traces != [] {
      var front, t := traces[..|traces| - 1], traces[|traces| - 1];
      assert traces == front + [t];
      var at' := TracesKeepOrder(collected, front);
      AddTracesFacts(collected, front);
      NextTrace(collected, front, AddTraces(collected, front), at', t);
      if t in AddTraces(collected, front) {
        at := at';
      } else {
        assert IsNewTrace(collected, front + [t], |front|);
        at := at' + [|front|];
      }
    }
  }

  ghost predicate LinksInOrder(c: Config, queue: seq<Item>, visited: set<Url>, links: seq<Url>, depth: nat,
      queue': seq<Item>, at: seq<nat>)
  {
    && |queue'| == |queue| + |at| && queue'[..|queue|] == queue && Increasing(at)
    && (forall k :: 0 <= k < |at| ==> at[k] < |links| && queue'[|queue| + k] == Item(c.web.strip(links[at[k]]), depth))
    && (forall i: nat :: i in at <==>
          i < |links| && c.web.strip(links[i]) !in visited && OnSite(c, c.web.strip(links[i])))
  }

  lemma NextLink(c: Config, queue: seq<Item>, visited: set<Url>, front: seq<Url>, depth: nat, queue': seq<Item>,
      at: seq<nat>, link: Url)
    requires LinksInOrder(c, queue, visited, front, depth, queue', at)
    ensures if Follow(c, visited, link)
            then LinksInOrder(c, queue, visited, front + [link], depth,
                              queue' + [Item(c.web.strip(link), depth)], at + [|front|])
            else LinksInOrder(c, queue, visited, front + [link], depth, queue', at)
  {
    var links := front + [link];
    assert forall i :: 0 <= i < |front| ==> links[i] == front[i];
    assert (queue' + [Item(c.web.strip(link), depth)])[..|queue|] == queue;
    forall k | 0 <= k < |at|
      ensures at[k] < |front|
    {
    }
    forall i: nat
      ensures i in at + [|front|] <==> i in at || i == |front|
    {
    }
  }

  // The unvisited links on the seed's site are queued, each as often and in the order they
  // stand on the page.
  lemma {:induction false} LinksKeepPageOrder(c: Config, queue: seq<Item>, visited: set<Url>, links: seq<Url>,
      depth: nat)
    returns (at: seq<nat>)
    ensures LinksInOrder(c, queue, visited, links, depth, AddLinks(c, queue, visited, links, depth), at)
  {
    at := [];
    if links != [] {
      var front, link := links[..|links| - 1], links[|links| - 1];
      assert links == front + [link];
      var at' := LinksKeepPageOrder(c, queue, visited, front, depth);
      NextLink(c, queue, visited, front, depth, AddLinks(c, queue, visited, front, depth), at', link);
      at := if Follow(c, visited, link) then at' + [|front|] else at';
    }
  }

  // ---- Bounds: every run, with any refusals ----

  ghost predicate Bounded(c: Config, s: Crawl) {
    && (s.pagesFetched == 0 || s.pagesFetched <= c.maxPages)
    && s.pagesFetched <= |s.attempts|
    && (forall i :: 0 <= i < |s.attempts| ==> s.attempts[i].url in s.visited && OnSite(c, s.attempts[i].url))
    && (forall i, j :: 0 <= i < j < |s.attempts| ==> s.attempts[i].url != s.attempts[j].url)
    && |s.pages| == s.pagesFetched
    && Simple(s.collected)
    && (forall t :: t in s.collected <==> exists p :: p in s.pages && t in p.traces)
  }

  lemma VisitBounded(c: Config, s: Crawl, granted: bool)
    requires Running(c, s) && Bounded(c, s)
    ensures Bounded(c, Visit(c, s, granted))
  {
    var item := Item(c.web.strip(s.queue[0].url), s.queue[0].depth);
    var marked := s.(queue := s.queue[1..], visited := s.visited + {item.url});
    if item.url !in s.visited && InScope(c, item.url) && granted {
      AttemptBounded(c, s, marked, item);
    }
  }

  lemma AttemptBounded(c: Config, s: Crawl, marked: Crawl, item: Item)
    requires Running(c, s) && Bounded(c, s) && item.url !in s.visited && InScope(c, item.url)
    requires marked == s.(queue := s.queue[1..], visited := s.visited + {item.url})
    ensures Bounded(c, Attempt(c, marked, item))
  {
    match Load(c, item.url, IsSeedTry(marked, item))
    case Some(page) =>
      AddTracesFacts(s.collected, page.traces);
      assert forall p :: p in s.pages + [page] <==> p in s.pages || p == page;
    case None =>
  }

  // At most maxPages pages, all on the registrable domain of the seed host, no page tried
  // twice, and the traces of the loaded pages collected without repetition.
  lemma {:induction false} CrawlIsBounded(c: Config, seed: Url, run: seq<Crawl>)
    requires IsRun(c, seed, run)
    ensures Bounded(c, run[|run| - 1])
    decreases |run|
  {
    if |run| > 1 {
      var n := |run| - 1;
      CrawlIsBounded(c, seed, run[..n]);
      assert Step(c, run[n - 1], run[n]);
      VisitBounded(c, run[n - 1], true);
      VisitBounded(c, run[n - 1], false);
    }
  }

  // Each turn either fetches a page or shortens the queue.
  lemma VisitDecreases(c: Config, s: Crawl, granted: bool)
    requires Running(c, s)
    ensures var s' := Visit(c, s, granted);
            || s'.pagesFetched == s.pagesFetched + 1
            || (s'.pagesFetched == s.pagesFetched && |s'.queue| < |s.queue|)
  {
  }

  // ---- Completeness when neither cap binds ----

  // Links the crawl may follow: from a page that loads to a target on the seed's site.
  ghost predicate IsLink(c: Config, seed: Url, a: Url, b: Url) {
    OnSite(c, b) && exists page, link :: Yields(c, a, a == seed, page) && link in page.links && b == c.web.strip(link)
  }

  ghost function Links(c: Config, seed: Url): Graph<Url> {
    (a, b) => IsLink(c, seed, a, b)
  }

  ghost predicate HasWalk(c: Config, seed: Url, item: Item) {
    exists w :: Joins(Links(c, seed), seed, item.url, w) && |w| == item.depth + 1
  }

  ghost predicate Good(c: Config, seed: Url, item: Item) {
    && HasWalk(c, seed, item)
    && OnSite(c, item.url) && c.web.strip(item.url) == item.url
    && (item.depth > 0 ==> item.depth <= c.maxDepth)
    && (item.url == seed <==> item.depth == 0)
  }

  // The pages tried so far followed by those waiting.
  function Line(s: Crawl): seq<Item> {
    s.attempts + s.queue
  }

  // v was tried, or waits, at depth at most d.
  ghost predicate Covered(line: seq<Item>, v: Url, d: int) {
    exists x :: x in line && x.url == v && x.depth <= d
  }

  ghost predicate NonDecreasing(line: seq<Item>) {
    forall i, j :: 0 <= i <= j < |line| ==> line[i].depth <= line[j].depth
  }

  // Depths never go down along the line, and the queue spans at most two of them.
  ghost predicate Sorted(s: Crawl) {
    && NonDecreasing(Line(s))
    && forall q :: q in s.queue ==> q.depth <= s.queue[0].depth + 1
  }

  ghost predicate Tracked(c: Config, seed: Url, s: Crawl) {
    && (forall u :: u in s.visited <==> exists a :: a in s.attempts && a.url == u)
    && (forall x :: x in Line(s) ==> Good(c, seed, x))
    && s.pagesFetched <= |s.attempts|
  }

  // Every link out of a page above the depth cap is taken care of.
  ghost predicate Closed(c: Config, seed: Url, attempts: seq<Item>, line: seq<Item>) {
    && Covered(line, seed, 0)
    && forall a, v :: a in attempts && a.depth < c.maxDepth && IsLink(c, seed, a.url, v) ==>
         Covered(line, v, a.depth + 1)
  }

  ghost predicate Complete(c: Config, seed: Url, s: Crawl) {
    Sorted(s) && Tracked(c, seed, s) && Closed(c, seed, s.attempts, Line(s))
  }

  // For the links on these pages, stripping a fragment twice is stripping it once.
  ghost predicate StableLinks(c: Config, pages: seq<Page>) {
    forall p, link :: p in pages && link in p.links ==> c.web.strip(c.web.strip(link)) == c.web.strip(link)
  }

  lemma HeadIsInLine(s: Crawl)
    requires s.queue != []
    ensures Line(s)[|s.attempts|] == s.queue[0] && s.queue[0] in Line(s)
    ensures Line(s) == s.attempts + [s.queue[0]] + s.queue[1..]
  {
  }

  lemma QueueStaysNarrow(s: Crawl)
    requires s.queue != [] && Sorted(s)
    ensures forall q :: q in s.queue[1..] ==> q.depth <= s.queue[1..][0].depth + 1
    ensures forall a :: a in s.attempts ==> a.depth <= s.queue[0].depth
  {
    var n := |s.attempts|;
    if |s.queue| > 1 {
      assert Line(s)[n].depth <= Line(s)[n + 1].depth;
    }
    forall a | a in s.attempts
      ensures a.depth <= s.queue[0].depth
    {
      var i :| 0 <= i < n && s.attempts[i] == a;
      assert Line(s)[i].depth <= Line(s)[n].depth;
    }
    assert forall q :: q in s.queue[1..] ==> q in s.queue;
  }

  // An item whose URL was tried before is dropped.
  lemma DropKeeps(c: Config, seed: Url, s: Crawl, s': Crawl)
    requires Complete(c, seed, s) && s.queue != [] && s.queue[0].url in s.visited
    requires s' == s.(queue := s.queue[1..])
    ensures Complete(c, seed, s')
  {
    var h := s.queue[0];
    QueueStaysNarrow(s);
    HeadIsInLine(s);
    assert Line(s') == s.attempts + s.queue[1..];
    var earlier :| earlier in s.attempts && earlier.url == h.url;
    assert earlier in Line(s') && earlier.depth <= h.depth;
    forall v, d: int | Covered(Line(s), v, d)
      ensures Covered(Line(s'), v, d)
    {
      var x :| x in Line(s) && x.url == v && x.depth <= d;
      assert x == h || x in Line(s');
    }
    DropKeepsOrder(Line(s), |s.attempts|, Line(s'));
  }

  lemma DropKeepsOrder(line: seq<Item>, n: nat, line': seq<Item>)
    requires NonDecreasing(line) && n < |line| && line' == line[..n] + line[n + 1..]
    ensures NonDecreasing(line')
  {
    assert forall i :: 0 <= i < |line'| ==> line'[i] == if i < n then line[i] else line[i + 1];
  }

  // Once a page was tried, the seed was.
  lemma SeedComesFirst(c: Config, seed: Url, s: Crawl)
    requires Complete(c, seed, s) && Line(s) != []
    ensures Line(s)[0].url == seed && Line(s)[0].depth == 0
  {
    var x :| x in Line(s) && x.url == seed && x.depth <= 0;
    var i :| 0 <= i < |Line(s)| && Line(s)[i] == x;
    assert Line(s)[0].depth <= Line(s)[i].depth;
    assert Good(c, seed, Line(s)[0]);
  }

  // So the fallback is offered to the seed and to no other page.
  lemma SeedTryIsSeed(c: Config, seed: Url, s: Crawl)
    requires Complete(c, seed, s) && s.queue != [] && s.queue[0].url !in s.visited
    ensures IsSeedTry(s, s.queue[0]) <==> s.queue[0].url == seed
    ensures seed in s.visited + {s.queue[0].url}
  {
    SeedComesFirst(c, seed, s);
    HeadIsInLine(s);
    assert Good(c, seed, s.queue[0]);
    if s.attempts != [] {
      assert s.attempts[0] == Line(s)[0];
      assert s.attempts[0] in s.attempts;
    }
  }

  // The state after the head was tried and before any of its links are queued: the line is
  // the same, one more of it is done.
  function Tried(s: Crawl, fetched: nat): Crawl
    requires s.queue != []
  {
    s.(queue := s.queue[1..], visited := s.visited + {s.queue[0].url},
       attempts := s.attempts + [s.queue[0]], pagesFetched := fetched)
  }

  lemma TriedKeeps(c: Config, seed: Url, s: Crawl, fetched: nat)
    requires Complete(c, seed, s) && s.queue != [] && fetched <= |s.attempts| + 1
    ensures Line(Tried(s, fetched)) == Line(s)
    ensures Sorted(Tried(s, fetched)) && Tracked(c, seed, Tried(s, fetched))
  {
    var s' := Tried(s, fetched);
    HeadIsInLine(s);
    QueueStaysNarrow(s);
    assert Line(s') == Line(s);
    assert forall a :: a in s'.attempts <==> a in s.attempts || a == s.queue[0];
  }

  lemma NewLinkIsGood(c: Config, seed: Url, h: Item, page: Page, v: Url)
    requires Load(c, h.url, h.url == seed) == Some(page) && StableLinks(c, [page])
    requires Good(c, seed, h) && h.depth < c.maxDepth
    requires IsLink(c, seed, h.url, v) && v != seed
    ensures Good(c, seed, Item(v, h.depth + 1))
  {
    var w :| Joins(Links(c, seed), seed, h.url, w) && |w| == h.depth + 1;
    ExtendWalk(Links(c, seed), seed, h.url, v, w);
    assert |w + [v]| == h.depth + 2;
    var link :| link in page.links && v == c.web.strip(link);
    assert page in [page] && c.web.strip(v) == v;
  }

  // more are the items queued for the links of h.
  ghost predicate AreLinksOf(c: Config, seed: Url, visited: set<Url>, h: Item, more: seq<Item>) {
    && (forall x :: x in more ==> x.depth == h.depth + 1 && x.url !in visited && IsLink(c, seed, h.url, x.url))
    && (forall v :: IsLink(c, seed, h.url, v) && v !in visited ==> Item(v, h.depth + 1) in more)
  }

  lemma QueuedAreLinks(c: Config, seed: Url, queue: seq<Item>, visited: set<Url>, h: Item, page: Page)
      returns (more: seq<Item>)
    requires Load(c, h.url, h.url == seed) == Some(page)
    ensures AddLinks(c, queue, visited, page.links, h.depth + 1) == queue + more
    ensures AreLinksOf(c, seed, visited, h, more)
  {
    AddLinksFacts(c, [], visited, page.links, h.depth + 1);
    more := AddLinks(c, [], visited, page.links, h.depth + 1);
    AddLinksAppends(c, queue, visited, page.links, h.depth + 1);
    forall v | IsLink(c, seed, h.url, v) && v !in visited
      ensures Item(v, h.depth + 1) in more
    {
      var link :| link in page.links && v == c.web.strip(link);
      assert Follow(c, visited, link);
    }
    forall x | x in more
      ensures x.depth == h.depth + 1 && x.url !in visited && IsLink(c, seed, h.url, x.url)
    {
      var i :| 0 <= i < |more| && more[i] == x;
    }
  }

  lemma {:induction false} AddLinksAppends(c: Config, queue: seq<Item>, visited: set<Url>, links: seq<Url>, depth: nat)
    ensures AddLinks(c, queue, visited, links, depth) == queue + AddLinks(c, [], visited, links, depth)
  {
    if links != [] {
      AddLinksAppends(c, queue, visited, links[..|links| - 1], depth);
    }
  }

  // A page that loaded below the depth cap: its links join the end of the line.
  lemma LinksKeep(c: Config, seed: Url, s: Crawl, t: Crawl, page: Page, more: seq<Item>, s': Crawl)
    requires Complete(c, seed, s) && s.queue != [] && s.queue[0].url !in s.visited
    requires Load(c, s.queue[0].url, s.queue[0].url == seed) == Some(page) && StableLinks(c, [page])
    requires s.queue[0].depth < c.maxDepth && t == Tried(s, s.pagesFetched + 1)
    requires AreLinksOf(c, seed, t.visited, s.queue[0], more)
    requires s'.attempts == t.attempts && s'.visited == t.visited && s'.pagesFetched == t.pagesFetched
    requires s'.queue == t.queue + more
    ensures Complete(c, seed, s')
  {
    var h := s.queue[0];
    HeadIsInLine(s);
    SeedTryIsSeed(c, seed, s);
    TriedKeeps(c, seed, s, s.pagesFetched + 1);
    assert Line(s') == Line(s) + more;
    forall x | x in more
      ensures Good(c, seed, x)
    {
      NewLinkIsGood(c, seed, h, page, x.url);
      assert x == Item(x.url, h.depth + 1);
    }
    LinksKeepOrder(s, t, more, s');
    LinksKeepClosed(c, seed, s, t.visited, more);
  }

  lemma LinksKeepOrder(s: Crawl, t: Crawl, more: seq<Item>, s': Crawl)
    requires s.queue != [] && Sorted(s) && Sorted(t) && t.queue == s.queue[1..] && Line(t) == Line(s)
    requires forall x :: x in more ==> x.depth == s.queue[0].depth + 1
    requires s'.attempts == t.attempts && s'.queue == t.queue + more
    ensures Sorted(s')
  {
    var d := s.queue[0].depth;
    QueueStaysNarrow(s);
    assert Line(s') == Line(s) + more;
    forall x | x in Line(s)
      ensures x.depth <= d + 1
    {
      assert x in s.attempts || x in s.queue;
    }
    if t.queue != [] {
      assert s'.queue[0] == s.queue[1];
      assert Line(s)[|s.attempts|].depth <= Line(s)[|s.attempts| + 1].depth;
    }
    assert forall q :: q in s'.queue ==> q in s.queue || q in more;
  }

  lemma LinksKeepClosed(c: Config, seed: Url, s: Crawl, visited: set<Url>, more: seq<Item>)
    requires Complete(c, seed, s) && s.queue != [] && visited == s.visited + {s.queue[0].url}
    requires AreLinksOf(c, seed, visited, s.queue[0], more)
    ensures Closed(c, seed, s.attempts + [s.queue[0]], Line(s) + more)
  {
    var h, line := s.queue[0], Line(s) + more;
    HeadIsInLine(s);
    QueueStaysNarrow(s);
    assert forall x :: x in Line(s) ==> x in line;
    forall a, v | a in s.attempts + [h] && a.depth < c.maxDepth && IsLink(c, seed, a.url, v)
      ensures Covered(line, v, a.depth + 1)
    {
      if a in s.attempts {
        assert Covered(Line(s), v, a.depth + 1);
      } else if v in s.visited {
        var b :| b in s.attempts && b.url == v;
        assert b in line;
      } else if v == h.url {
        assert h in line;
      } else {
        assert Item(v, h.depth + 1) in line;
      }
    }
  }

  // A page that failed, or lies at the depth cap, has no links to follow.
  lemma NoLinksKeeps(c: Config, seed: Url, s: Crawl, s': Crawl)
    requires Complete(c, seed, s) && s.queue != [] && s.queue[0].url !in s.visited
    requires Load(c, s.queue[0].url, s.queue[0].url == seed).None? || s.queue[0].depth >= c.maxDepth
    requires s'.pagesFetched <= s.pagesFetched + 1
    requires s'.attempts == Tried(s, s'.pagesFetched).attempts && s'.visited == Tried(s, s'.pagesFetched).visited
    requires s'.queue == s.queue[1..]
    ensures Complete(c, seed, s')
  {
    var h := s.queue[0];
    TriedKeeps(c, seed, s, s'.pagesFetched);
    assert Line(s') == Line(s);
    forall a, v | a in s'.attempts && a.depth < c.maxDepth && IsLink(c, seed, a.url, v)
      ensures Covered(Line(s'), v, a.depth + 1)
    {
      if a != h {
        assert a in s.attempts;
      }
    }
  }

  lemma VisitKeeps(c: Config, seed: Url, s: Crawl)
    requires Complete(c, seed, s) && Running(c, s) && StableLinks(c, Visit(c, s, true).pages)
    ensures Complete(c, seed, Visit(c, s, true))
  {
    var h, s' := s.queue[0], Visit(c, s, true);
    HeadIsInLine(s);
    assert Good(c, seed, h);
    assert Item(c.web.strip(h.url), h.depth) == h;
    if h.url in s.visited {
      DropKeeps(c, seed, s, s');
    } else {
      SeedTryIsSeed(c, seed, s);
      match Load(c, h.url, h.url == seed)
      case Some(page) =>
        if h.depth < c.maxDepth {
          var t := Tried(s, s.pagesFetched + 1);
          var more := QueuedAreLinks(c, seed, t.queue, t.visited, h, page);
          assert page in s'.pages;
          LinksKeep(c, seed, s, t, page, more, s');
        } else {
          NoLinksKeeps(c, seed, s, s');
        }
      case None =>
        NoLinksKeeps(c, seed, s, s');
    }
  }

  lemma {:induction false} RunComplete(c: Config, seed: Url, run: seq<Crawl>)
    requires IsRun(c, seed, run) && !run[|run| - 1].denied
    requires StableLinks(c, run[|run| - 1].pages) && c.web.strip(seed) == seed && OnSite(c, seed)
    ensures Complete(c, seed, run[|run| - 1])
    decreases |run|
  {
    if |run| == 1 {
      BeginComplete(c, seed);
    } else {
      var n := |run| - 1;
      assert Step(c, run[n - 1], run[n]);
      NotDeniedMeansGranted(c, run[n - 1], run[n]);
      assert forall p :: p in run[n - 1].pages ==> p in run[n].pages;
      RunComplete(c, seed, run[..n]);
      VisitKeeps(c, seed, run[n - 1]);
    }
  }

  lemma BeginComplete(c: Config, seed: Url)
    requires c.web.strip(seed) == seed && OnSite(c, seed)
    ensures Complete(c, seed, Begin(seed))
  {
    assert Joins(Links(c, seed), seed, seed, [seed]);
    assert Item(seed, 0) in Line(Begin(seed));
  }

  lemma NotDeniedMeansGranted(c: Config, s: Crawl, s': Crawl)
    requires Step(c, s, s') && !s'.denied
    ensures !s.denied && s' == Visit(c, s, true)
  {
  }

  // The crawl ran to the end of its queue, was never refused by the budget, and its seed loaded.
  ghost predicate Exhausted(s: Crawl) {
    s.queue == [] && !s.denied && !s.stopped
  }

  // Completeness: the pages tried are exactly the in-scope pages within maxDepth link hops of
  // the seed through pages that loaded, each once and at its shortest distance, nearest first.
  lemma CrawlIsComplete(c: Config, seed: Url, run: seq<Crawl>)
    requires IsRun(c, seed, run) && Exhausted(run[|run| - 1])
    requires StableLinks(c, run[|run| - 1].pages) && c.web.strip(seed) == seed && OnSite(c, seed)
    ensures var attempts := run[|run| - 1].attempts;
            && (forall a :: a in attempts <==>
                  Distance(Links(c, seed), seed, a.url, a.depth) && (a.depth == 0 || a.depth <= c.maxDepth))
            && (forall i, j :: 0 <= i < j < |attempts| ==> attempts[i].url != attempts[j].url)
            && NonDecreasing(attempts)
  {
    var s := run[|run| - 1];
    RunComplete(c, seed, run);
    CrawlIsBounded(c, seed, run);
    assert Line(s) == s.attempts;
    forall a | a in s.attempts
      ensures Distance(Links(c, seed), seed, a.url, a.depth) && (a.depth == 0 || a.depth <= c.maxDepth)
    {
      AttemptAtDistance(c, seed, s, a);
    }
    forall a: Item | Distance(Links(c, seed), seed, a.url, a.depth) && (a.depth == 0 || a.depth <= c.maxDepth)
      ensures a in s.attempts
    {
      var w :| Joins(Links(c, seed), seed, a.url, w) && |w| == a.depth + 1;
      var b := WalkIsAttempted(c, seed, s, w);
      AttemptAtDistance(c, seed, s, b);
      DistanceIsUnique(Links(c, seed), seed, a.url, a.depth, b.depth);
    }
  }

  lemma {:induction false} WalkIsAttempted(c: Config, seed: Url, s: Crawl, w: seq<Url>) returns (a: Item)
    requires Complete(c, seed, s) && s.queue == []
    requires IsWalk(Links(c, seed), w) && w[0] == seed && (|w| == 1 || |w| <= c.maxDepth + 1)
    ensures a in s.attempts && a.url == w[|w| - 1] && a.depth < |w|
    decreases |w|
  {
    assert Line(s) == s.attempts;
    if |w| == 1 {
      a :| a in s.attempts && a.url == seed && a.depth <= 0;
    } else {
      var b := WalkIsAttempted(c, seed, s, w[..|w| - 1]);
      assert Links(c, seed)(w[|w| - 2], w[|w| - 1]);
      assert Covered(s.attempts, w[|w| - 1], b.depth + 1);
      a :| a in s.attempts && a.url == w[|w| - 1] && a.depth <= b.depth + 1;
    }
  }

  lemma AttemptAtDistance(c: Config, seed: Url, s: Crawl, a: Item)
    requires Complete(c, seed, s) && s.queue == [] && a in s.attempts && Bounded(c, s)
    ensures Distance(Links(c, seed), seed, a.url, a.depth) && (a.depth == 0 || a.depth <= c.maxDepth)
  {
    assert a in Line(s) && Good(c, seed, a);
    forall w | Joins(Links(c, seed), seed, a.url, w)
      ensures |w| >= a.depth + 1
    {
      if |w| == 1 || |w| <= c.maxDepth + 1 {
        var b := WalkIsAttempted(c, seed, s, w);
        var i :| 0 <= i < |s.attempts| && s.attempts[i] == a;
        var j :| 0 <= j < |s.attempts| && s.attempts[j] == b;
        assert i == j;
      }
    }
  }

  // ---- While the page cap may bind ----

  // Every walk no longer than the depth reached so far ends at a page tried or waiting, no
  // deeper than the walk is long.
  lemma {:induction false} WalkIsInLine(c: Config, seed: Url, s: Crawl, w: seq<Url>) returns (x: Item)
    requires Complete(c, seed, s) && s.attempts != []
    requires IsWalk(Links(c, seed), w) && w[0] == seed && |w| - 1 <= s.attempts[|s.attempts| - 1].depth
    ensures x in Line(s) && x.url == w[|w| - 1] && x.depth < |w|
    ensures x.depth < s.attempts[|s.attempts| - 1].depth ==> x in s.attempts
    decreases |w|
  {
    if |w| == 1 {
      x :| x in Line(s) && x.url == seed && x.depth <= 0;
    } else {
      var b := WalkIsInLine(c, seed, s, w[..|w| - 1]);
      assert Links(c, seed)(w[|w| - 2], w[|w| - 1]);
      LastAttemptIsGood(c, seed, s);
      assert Covered(Line(s), w[|w| - 1], b.depth + 1);
      x :| x in Line(s) && x.url == w[|w| - 1] && x.depth <= b.depth + 1;
    }
    ShallowIsTried(s, x);
  }

  lemma LastAttemptIsGood(c: Config, seed: Url, s: Crawl)
    requires Complete(c, seed, s) && s.attempts != []
    ensures Good(c, seed, s.attempts[|s.attempts| - 1])
  {
    assert Line(s)[|s.attempts| - 1] == s.attempts[|s.attempts| - 1];
    assert s.attempts[|s.attempts| - 1] in Line(s);
  }

  // What waits is at least as deep as the last page tried.
  lemma ShallowIsTried(s: Crawl, x: Item)
    requires Sorted(s) && s.attempts != [] && x in Line(s)
    ensures x.depth < s.attempts[|s.attempts| - 1].depth ==> x in s.attempts
  {
    var n := |s.attempts|;
    var i :| 0 <= i < |Line(s)| && Line(s)[i] == x;
    if i >= n {
      assert Line(s)[n - 1].depth <= Line(s)[i].depth;
    }
  }

  lemma TriedAtDistance(c: Config, seed: Url, s: Crawl, a: Item)
    requires Complete(c, seed, s) && Bounded(c, s) && a in s.attempts
    ensures Distance(Links(c, seed), seed, a.url, a.depth) && (a.depth == 0 || a.depth <= c.maxDepth)
  {
    assert a in Line(s) && Good(c, seed, a);
    var i :| 0 <= i < |s.attempts| && s.attempts[i] == a;
    var last := s.attempts[|s.attempts| - 1];
    assert Line(s)[i].depth <= Line(s)[|s.attempts| - 1].depth;
    forall w | Joins(Links(c, seed), seed, a.url, w)
      ensures |w| >= a.depth + 1
    {
      if |w| - 1 <= last.depth {
        var b := WalkIsInLine(c, seed, s, w);
        if b.depth < last.depth {
          TriedOnce(c, s, a, b);
        }
      }
    }
  }

  lemma TriedOnce(c: Config, s: Crawl, a: Item, b: Item)
    requires Bounded(c, s) && a in s.attempts && b in s.attempts && a.url == b.url
    ensures a == b
  {
  }

  // At any moment of a run the budget did not cut short: the pages tried so far come nearest
  // first, each once and at its shortest distance within maxDepth, and no page nearer than the
  // last of them was left out.
  lemma CrawlIsBreadthFirst(c: Config, seed: Url, run: seq<Crawl>)
    requires IsRun(c, seed, run) && !run[|run| - 1].denied
    requires StableLinks(c, run[|run| - 1].pages) && c.web.strip(seed) == seed && OnSite(c, seed)
    ensures var attempts := run[|run| - 1].attempts;
            && NonDecreasing(attempts)
            && (forall i, j :: 0 <= i < j < |attempts| ==> attempts[i].url != attempts[j].url)
            && (forall a :: a in attempts ==>
                  Distance(Links(c, seed), seed, a.url, a.depth) && (a.depth == 0 || a.depth <= c.maxDepth))
            && (attempts != [] ==>
                  forall u, d: nat :: d < attempts[|attempts| - 1].depth && Distance(Links(c, seed), seed, u, d) ==>
                    Item(u, d) in attempts)
  {
    var s := run[|run| - 1];
    RunComplete(c, seed, run);
    CrawlIsBounded(c, seed, run);
    forall i, j | 0 <= i <= j < |s.attempts|
      ensures s.attempts[i].depth <= s.attempts[j].depth
    {
      assert Line(s)[i].depth <= Line(s)[j].depth;
    }
    forall a | a in s.attempts
      ensures Distance(Links(c, seed), seed, a.url, a.depth) && (a.depth == 0 || a.depth <= c.maxDepth)
    {
      TriedAtDistance(c, seed, s, a);
    }
    forall u, d: nat |
      s.attempts != [] && d < s.attempts[|s.attempts| - 1].depth && Distance(Links(c, seed), seed, u, d)
      ensures Item(u, d) in s.attempts
    {
      var w :| Joins(Links(c, seed), seed, u, w) && |w| == d + 1;
      var x := WalkIsInLine(c, seed, s, w);
      TriedAtDistance(c, seed, s, x);
      DistanceIsUnique(Links(c, seed), seed, u, d, x.depth);
      assert x == Item(u, d);
    }
  }
}
