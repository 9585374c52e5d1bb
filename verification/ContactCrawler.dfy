// The contact crawler's loop and the page budget it shares with every other crawl.
module ContactCrawler {
  import opened Entities
  import opened CrawlMachine
  import opened CrawlPages
  import opened Text

  // ---- The shared budget ----

  function NonNegative(n: int): nat {
    if n < 0 then 0 else n
  }

  function Left(limits: map<string, int>, maximum: int, d: string): int {
    if d in limits then limits[d] else maximum
  }

  function SpentOn(spent: map<string, nat>, d: string): nat {
    if d in spent then spent[d] else 0
  }

  // What is left of every domain's allowance is the maximum less what was spent on it.
  ghost predicate Balanced(limits: map<string, int>, spent: map<string, nat>, maximum: int) {
    forall d :: SpentOn(spent, d) <= NonNegative(maximum)
                && NonNegative(Left(limits, maximum, d)) == NonNegative(maximum) - SpentOn(spent, d)
  }

  lemma RefusalBalances(limits: map<string, int>, spent: map<string, nat>, maximum: int, domain: string)
    requires Balanced(limits, spent, maximum) && Left(limits, maximum, domain) <= 0
    ensures Balanced(limits[domain := 0], spent, maximum)
  {
    forall d: string
      ensures SpentOn(spent, d) <= NonNegative(maximum)
      ensures NonNegative(Left(limits[domain := 0], maximum, d)) == NonNegative(maximum) - SpentOn(spent, d)
    {
      assert NonNegative(Left(limits, maximum, d)) == NonNegative(maximum) - SpentOn(spent, d);
    }
  }

  lemma SpendBalances(limits: map<string, int>, spent: map<string, nat>, maximum: int, domain: string)
    requires Balanced(limits, spent, maximum) && Left(limits, maximum, domain) > 0
    ensures Balanced(limits[domain := Left(limits, maximum, domain) - 1],
                     spent[domain := SpentOn(spent, domain) + 1], maximum)
  {
    var limits' := limits[domain := Left(limits, maximum, domain) - 1];
    var spent' := spent[domain := SpentOn(spent, domain) + 1];
    forall d: string
      ensures SpentOn(spent', d) <= NonNegative(maximum)
      ensures NonNegative(Left(limits', maximum, d)) == NonNegative(maximum) - SpentOn(spent', d)
    {
      assert NonNegative(Left(limits, maximum, d)) == NonNegative(maximum) - SpentOn(spent, d);
    }
  }

  class DomainBudget {
    const maximum: int
    const registrable: Host -> Option<string>
    var limits: map<string, int>
    // successful spends by domain
    ghost var spent: map<string, nat>

    ghost predicate Valid()
      reads this
    {
      Balanced(limits, spent, maximum)
    }

    constructor (maximum: int, registrable: Host -> Option<string>)
      ensures Valid() && this.maximum == maximum && this.registrable == registrable && spent == map[]
    {
      this.maximum, this.registrable := maximum, registrable;
      limits, spent := map[], map[];
    }

    // Granted exactly while the host's domain has something left; a host without a
    // registrable domain is refused and costs nothing.
    method TrySpend(host: Host) returns (ok: bool)
      requires Valid()
      modifies this
      ensures Valid()
      ensures ok <==> registrable(host).Some? && SpentOn(old(spent), registrable(host).value) < NonNegative(maximum)
      ensures limits == if registrable(host).None? then old(limits)
                        else old(limits)[registrable(host).value :=
                          if ok then Left(old(limits), maximum, registrable(host).value) - 1 else 0]
      ensures spent ==
        if ok then old(spent)[registrable(host).value := SpentOn(old(spent), registrable(host).value) + 1]
        else old(spent)
    {
      var domain := registrable(host);
      if domain.None? {
        return false;
      }
      var remaining := if domain.value in limits then limits[domain.value] else maximum;
      assert NonNegative(Left(limits, maximum, domain.value)) == NonNegative(maximum) - SpentOn(spent, domain.value);
      if remaining <= 0 {
        RefusalBalances(limits, spent, maximum, domain.value);
        limits := limits[domain.value := 0];
        return false;
      }
      SpendBalances(limits, spent, maximum, domain.value);
      limits := limits[domain.value := remaining - 1];
      spent := spent[domain.value := SpentOn(spent, domain.value) + 1];
      ok := true;
    }

    // Other crawls may ask any number of times in between.
    method OthersSpend()
      requires Valid()
      modifies this
      ensures Valid() && forall d :: SpentOn(spent, d) >= SpentOn(old(spent), d)
    {
      var requests: nat := *;
      while requests > 0
        invariant Valid() && forall d :: SpentOn(spent, d) >= SpentOn(old(spent), d)
      {
        var host: Host := *;
        var _ := TrySpend(host);
        requests := requests - 1;
      }
    }
  }

  // Requests of all crawls in the order the mutex served them, by the domain each is charged
  // to; the answer to each. A request without a domain is refused.
  function Answers(maximum: int, domains: seq<Option<string>>): (granted: seq<bool>)
    ensures |granted| == |domains|
  {
    if domains == [] then []
    else
      var n := |domains| - 1;
      var earlier := Answers(maximum, domains[..n]);
      earlier + [domains[n].Some? && Grants(domains[..n], earlier, domains[n].value) < NonNegative(maximum)]
  }

  function Grants(domains: seq<Option<string>>, granted: seq<bool>, d: string): nat
    requires |granted| == |domains|
  {
    if domains == [] then 0
    else
      var n := |domains| - 1;
      Grants(domains[..n], granted[..n], d) + (if domains[n] == Some(d) && granted[n] then 1 else 0)
  }

  function Requests(domains: seq<Option<string>>, d: string): nat {
    if domains == [] then 0
    else Requests(domains[..|domains| - 1], d) + (if domains[|domains| - 1] == Some(d) then 1 else 0)
  }

  function Domains(registrable: Host -> Option<string>, hosts: seq<Host>): (domains: seq<Option<string>>)
    ensures |domains| == |hosts| && forall i :: 0 <= i < |hosts| ==> domains[i] == registrable(hosts[i])
  {
    seq(|hosts|, i requires 0 <= i < |hosts| => registrable(hosts[i]))
  }

  lemma NextAnswer(maximum: int, domains: seq<Option<string>>, i: nat, granted: seq<bool>, ok: bool)
    requires i < |domains| && granted == Answers(maximum, domains[..i])
    ensures Answers(maximum, domains[..i + 1]) == granted +
            [domains[i].Some? && Grants(domains[..i], granted, domains[i].value) < NonNegative(maximum)]
    ensures forall d :: Grants(domains[..i + 1], granted + [ok], d) ==
                        Grants(domains[..i], granted, d) + (if domains[i] == Some(d) && ok then 1 else 0)
  {
    assert domains[..i + 1][..i] == domains[..i] && (granted + [ok])[..i] == granted;
  }

  // A budget serving requests one after another, whichever crawl each comes from.
  method ServeRequests(maximum: int, registrable: Host -> Option<string>, hosts: seq<Host>)
    returns (granted: seq<bool>)
    ensures granted == Answers(maximum, Domains(registrable, hosts))
  {
    var budget := new DomainBudget(maximum, registrable);
    granted := [];
    ghost var domains := Domains(registrable, hosts);
    var i := 0;
    while i < |hosts|
      invariant 0 <= i <= |hosts| && fresh(budget) && budget.Valid()
      invariant budget.maximum == maximum && budget.registrable == registrable
      invariant granted == Answers(maximum, domains[..i])
      invariant forall d :: SpentOn(budget.spent, d) == Grants(domains[..i], granted, d)
    {
      var ok := budget.TrySpend(hosts[i]);
      NextAnswer(maximum, domains, i, granted, ok);
      granted := granted + [ok];
      i := i + 1;
    }
    assert domains[..i] == domains;
  }

  // Over any interleaving of crawls a domain is granted all its requests up to the maximum
  // and none beyond it, independently of the other domains.
  lemma {:induction false} GrantsAreCapped(maximum: int, domains: seq<Option<string>>, d: string)
    ensures Grants(domains, Answers(maximum, domains), d) ==
            if Requests(domains, d) <= NonNegative(maximum) then Requests(domains, d) else NonNegative(maximum)
  {
    if domains != [] {
      var n := |domains| - 1;
      GrantsAreCapped(maximum, domains[..n], d);
      assert Answers(maximum, domains)[..n] == Answers(maximum, domains[..n]);
    }
  }

  // ---- The crawl ----

  // The seed: a trimmed URL is kept, a trimmed host becomes the root page of an https site.
  ghost predicate IsSeedURL(input: string, url: Url) {
    exists i: nat, j: nat :: IsTrimmed(input, i, j) &&
      url == if HasScheme(input[i..j]) then input[i..j] else "https://" + input[i..j] + "/"
  }

  ghost predicate HasScheme(s: string) {
    exists rest :: s == "http://" + rest || s == "https://" + rest
  }

  lemma PrefixIsScheme(s: string)
    ensures HasScheme(s) <==> HasPrefix(s, HTTP) || HasPrefix(s, HTTPS)
  {
    if HasPrefix(s, HTTP) {
      assert s == "http://" + s[|HTTP|..];
    }
    if HasPrefix(s, HTTPS) {
      assert s == "https://" + s[|HTTPS|..];
    }
  }

  function NormalizeURL(host: string): (url: Url)
    ensures IsSeedURL(host, url)
  {
    TrimmedPart(host);
    PrefixIsScheme(TrimSpace(host));
    var trimmed := TrimSpace(host);
    if HasPrefix(trimmed, HTTP) || HasPrefix(trimmed, HTTPS) then trimmed else HTTPS + trimmed + "/"
  }

  // A run from this seed that has ended, each page from where it should come.
  ghost predicate IsCrawlOf(c: Config, seed: Url, run: seq<CrawlMachine.Crawl>) {
    && IsRun(c, seed, run) && !Running(c, run[|run| - 1])
    && StartsAtSeed(c, seed, run[|run| - 1])
  }

  ghost predicate IsCrawlFor(c: Config, input: string, run: seq<CrawlMachine.Crawl>) {
    exists url :: IsSeedURL(input, url) && IsCrawlOf(c, c.web.strip(url), run)
  }

  lemma RunIsCrawlFor(c: Config, input: string, run: seq<CrawlMachine.Crawl>)
    requires IsRun(c, c.web.strip(NormalizeURL(input)), run) && !Running(c, run[|run| - 1])
    ensures IsCrawlFor(c, input, run)
  {
    CrawlStartsAtSeed(c, c.web.strip(NormalizeURL(input)), run);
    assert IsCrawlOf(c, c.web.strip(NormalizeURL(input)), run);
  }

  class Crawler {
    const c: Config
    const budget: DomainBudget

    constructor (c: Config, budget: DomainBudget)
      ensures this.c == c && this.budget == budget
    {
      this.c, this.budget := c, budget;
    }

    // seenTraces holds the keys of the collected traces.
    method CollectTraces(collected: seq<Trace>, seenTraces: set<string>, traces: seq<Trace>)
      returns (collected': seq<Trace>, seenTraces': set<string>)
      requires forall t: Trace :: TraceKey(t) in seenTraces <==> t in collected
      ensures collected' == AddTraces(collected, traces)
      ensures forall t: Trace :: TraceKey(t) in seenTraces' <==> t in collected'
    {
      collected', seenTraces' := collected, seenTraces;
      var i := 0;
      while i < |traces|
        invariant 0 <= i <= |traces|
        invariant collected' == AddTraces(collected, traces[..i])
        invariant forall t: Trace :: TraceKey(t) in seenTraces' <==> t in collected'
      {
        assert traces[..i + 1][..i] == traces[..i];
        var trace := traces[i];
        if TraceKey(trace) !in seenTraces' {
          forall t: Trace | TraceKey(t) == TraceKey(trace)
            ensures t == trace
          {
            TraceKeyInjective(t, trace);
          }
          seenTraces' := seenTraces' + {TraceKey(trace)};
          collected' := collected' + [trace];
        }
        i := i + 1;
      }
      assert traces[..i] == traces;
    }

    method QueueLinks(queue: seq<Item>, visited: set<Url>, links: seq<Url>, depth: nat) returns (queue': seq<Item>)
      ensures queue' == AddLinks(c, queue, visited, links, depth)
    {
      queue' := queue;
      var i := 0;
      while i < |links|
        invariant 0 <= i <= |links|
        invariant queue' == AddLinks(c, queue, visited, links[..i], depth)
      {
        assert links[..i + 1][..i] == links[..i];
        var link := c.web.strip(links[i]);
        if link !in visited {
          var host := c.web.host(link);
          if host.Some? && SameSite(c, host.value) {
            queue' := queue' + [Item(link, depth)];
          }
        }
        i := i + 1;
      }
      assert links[..i] == links;
    }

    // The first of the URLs to try that answers.
    method FetchURL(pageURL: Url, tryHTTPFallback: bool) returns (page: Option<Page>)
      ensures page == Load(c, pageURL, tryHTTPFallback)
      ensures page.Some? ==> Yields(c, pageURL, tryHTTPFallback, page.value)
      ensures page.None? <==> YieldsNothing(c, pageURL, tryHTTPFallback)
    {
      LoadIsPage(c, pageURL, tryHTTPFallback);
      var urlsToTry := [pageURL];
      if tryHTTPFallback && HasPrefix(pageURL, HTTPS) {
        urlsToTry := urlsToTry + [HTTP + pageURL[|HTTPS|..]];
      }
      var i := 0;
      while i < |urlsToTry|
        invariant 0 <= i <= |urlsToTry|
        invariant urlsToTry[0] == pageURL && (i > 0 ==> c.web.get(pageURL).None?)
        invariant i > 1 ==> c.web.get(urlsToTry[1]).None?
      {
        var body := c.web.get(urlsToTry[i]);
        if body.Some? {
          return Some(c.web.parse(body.value, urlsToTry[i]));
        }
        i := i + 1;
      }
      page := None;
    }

    // What a granted request leads to: load the page, keep its traces, queue its links.
    // stop is set when the seed page cannot be loaded.
    method Fetch(item: Item, queue: seq<Item>, visited: set<Url>, collected: seq<Trace>, seenTraces: set<string>,
                 pagesFetched: nat, ghost s: CrawlMachine.Crawl)
      returns (queue': seq<Item>, collected': seq<Trace>, seenTraces': set<string>, pagesFetched': nat, stop: bool)
      requires queue == s.queue && visited == s.visited && collected == s.collected && pagesFetched == s.pagesFetched
      requires !s.stopped
      requires forall t: Trace :: TraceKey(t) in seenTraces <==> t in collected
      ensures var s' := Attempt(c, s, item);
              queue' == s'.queue && collected' == s'.collected && pagesFetched' == s'.pagesFetched && stop == s'.stopped
      ensures forall t: Trace :: TraceKey(t) in seenTraces' <==> t in collected'
      ensures var isSeed := item.depth == 0 && pagesFetched == 0;
              if YieldsNothing(c, item.url, isSeed)
              then pagesFetched' == pagesFetched && collected' == collected && queue' == queue && stop == isSeed
              else exists page :: && Yields(c, item.url, isSeed, page)
                                  && pagesFetched' == pagesFetched + 1 && !stop && queue <= queue'
                                  && forall t :: t in collected' <==> t in collected || t in page.traces
    {
      queue', collected', seenTraces', pagesFetched', stop := queue, collected, seenTraces, pagesFetched, false;
      var seedTry := item.depth == 0 && pagesFetched == 0;
      LoadIsPage(c, item.url, seedTry);
      var page := FetchURL(item.url, seedTry);
      if page.None? {
        stop := seedTry;
        return;
      }
      pagesFetched' := pagesFetched + 1;
      collected', seenTraces' := CollectTraces(collected, seenTraces, page.value.traces);
      AddTracesFacts(collected, page.value.traces);
      AddLinksFacts(c, queue, visited, page.value.links, item.depth + 1);
      if item.depth >= c.maxDepth {
        return;
      }
      queue' := QueueLinks(queue, visited, page.value.links, item.depth + 1);
    }

    // Fetches made so far are all paid for.
    ghost predicate PaidFor(spentBefore: map<string, nat>, attempts: nat)
      reads budget
    {
      var domain := c.web.registrable(c.seedHost);
      domain.Some? ==> SpentOn(budget.spent, domain.value) >= SpentOn(spentBefore, domain.value) + attempts
    }

    // The seed's domain has nothing left.
    ghost predicate UsedUp()
      reads budget
    {
      var domain := c.web.registrable(c.seedHost);
      domain.Some? && SpentOn(budget.spent, domain.value) == NonNegative(budget.maximum)
    }

    // One turn of the loop: item is the head just taken off the queue.
    method Turn(item: Item, queue: seq<Item>, visited: set<Url>, collected: seq<Trace>, seenTraces: set<string>,
                pagesFetched: nat, ghost s: CrawlMachine.Crawl)
      returns (queue': seq<Item>, visited': set<Url>, collected': seq<Trace>, seenTraces': set<string>,
               pagesFetched': nat, stop: bool, granted: bool)
      requires budget.Valid() && budget.registrable == c.web.registrable && Running(c, s)
      requires item == Item(c.web.strip(s.queue[0].url), s.queue[0].depth) && queue == s.queue[1..]
      requires visited == s.visited && collected == s.collected && pagesFetched == s.pagesFetched
      requires forall t: Trace :: TraceKey(t) in seenTraces <==> t in collected
      modifies budget
      ensures budget.Valid()
      ensures var s' := Visit(c, s, granted);
              && queue' == s'.queue && visited' == s'.visited && collected' == s'.collected
              && pagesFetched' == s'.pagesFetched && stop == s'.stopped
      ensures forall t: Trace :: TraceKey(t) in seenTraces' <==> t in collected'
      ensures Visit(c, s, granted).denied && !s.denied ==> UsedUp()
      ensures old(UsedUp()) ==> UsedUp()
      ensures PaidFor(old(budget.spent), if |Visit(c, s, granted).attempts| > |s.attempts| then 1 else 0)
    {
      queue', visited', collected', seenTraces' := queue, visited, collected, seenTraces;
      pagesFetched', stop, granted := pagesFetched, false, false;
      if item.url in visited {
        return;
      }
      visited' := visited + {item.url};
      var host := c.web.host(item.url);
      if host.None? || !SameSite(c, host.value) {
        return;
      }
      budget.OthersSpend();
      granted := budget.TrySpend(host.value);
      if granted {
        ghost var marked := s.(queue := queue, visited := visited');
        queue', collected', seenTraces', pagesFetched', stop :=
          Fetch(item, queue, visited', collected, seenTraces, pagesFetched, marked);
      }
    }

    // Every execution is a run of CrawlMachine that ended; each fetch it made was paid for out
    // of the shared budget, and it was refused one only if the budget was used up.
    method Crawl(seedURL: string) returns (collected: seq<Trace>, ghost run: seq<CrawlMachine.Crawl>)
      requires budget.Valid() && budget.registrable == c.web.registrable
      modifies budget
      ensures budget.Valid()
      ensures IsCrawlFor(c, seedURL, run)
      ensures run != [] && collected == run[|run| - 1].collected
      ensures PaidFor(old(budget.spent), |run[|run| - 1].attempts|)
      ensures run[|run| - 1].denied ==> UsedUp()
    {
      var seed := c.web.strip(NormalizeURL(seedURL));
      var queue, visited, pagesFetched, stop := [Item(seed, 0)], {}, 0, false;
      var seenTraces: set<string> := {};
      collected := [];
      ghost var s := Begin(seed);
      run := [s];
      while |queue| > 0 && pagesFetched < c.maxPages && !stop
        invariant budget.Valid() && IsRun(c, seed, run) && run[|run| - 1] == s
        invariant queue == s.queue && visited == s.visited && collected == s.collected && pagesFetched == s.pagesFetched
        invariant stop == s.stopped
        invariant forall t: Trace :: TraceKey(t) in seenTraces <==> t in collected
        invariant PaidFor(old(budget.spent), |s.attempts|)
        invariant s.denied ==> UsedUp()
        decreases c.maxPages - pagesFetched, |queue|
      {
        ghost var before := s;
        var item := Item(c.web.strip(queue[0].url), queue[0].depth);
        var granted;
        queue, visited, collected, seenTraces, pagesFetched, stop, granted :=
          Turn(item, queue[1..], visited, collected, seenTraces, pagesFetched, before);
        s := Visit(c, before, granted);
        VisitDecreases(c, before, granted);
        AttemptsGrowByOne(before, granted);
        RunExtends(c, seed, run, granted);
        run := run + [s];
      }
      RunIsCrawlFor(c, seedURL, run);
    }

    lemma AttemptsGrowByOne(s: CrawlMachine.Crawl, granted: bool)
      requires Running(c, s)
      ensures |s.attempts| <= |Visit(c, s, granted).attempts| <= |s.attempts| + 1
    {
    }
  }
}
