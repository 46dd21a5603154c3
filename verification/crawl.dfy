/**
  The crawl controller: `scrape_page` (fetch, extract, save, return the links)
  and `scrape_website` (breadth-first loop over a FIFO frontier with a visited
  set). The network fetch together with the HTML parse, `urlparse` and
  `urljoin` are the collaborators it is given.
 */
module Crawl {
  import opened Wrappers
  import opened Dom
  import opened Extract
  import opened Keys
  import opened Store

  /** What the crawler calls out to: `fetch` stands for `fetch_webpage`
      followed by the HTML parse (`None` on any request error or HTTP error
      status), `parse` for `urlparse` and `join` for `urljoin`. */
  datatype Web = Web(
    fetch: string -> Option<Document>,
    parse: string -> Url,
    join: (string, string) -> string)

  /** Outcome of `scrape_page`: the files afterwards and the returned links. */
  datatype PageResult = PageResult(files: Files, links: Option<seq<string>>)

  /** `scrape_page(url)`: a failed fetch returns `None` and writes nothing;
      otherwise the page's record is saved and its links are returned. */
  function ScrapePage(web: Web, files: Files, url: string): (r: PageResult)
    ensures web.fetch(url).None? ==> r.files == files && r.links.None?
    ensures web.fetch(url).Some? ==>
      && r.files == Save(files, web.parse(url), ExtractContent(web.fetch(url).value))
      && r.links.Some?
      && var name := SiteFileName(web.parse(url).netloc);
         var page := PageKey(web.parse(url).path);
         name in r.files && page in r.files[name] && r.links.value == r.files[name][page].links
  {
    match web.fetch(url)
    case None => PageResult(files, None)
    case Some(doc) =>
      var data := ExtractContent(doc);
      PageResult(Save(files, web.parse(url), data), Some(ExtractLinks(doc)))
  }

  /** The links `scrape_website` gets back for `url` (`if new_links:` treats
      `None` and an empty list alike). */
  function LinksOf(web: Web, url: string): seq<string> {
    match web.fetch(url)
    case None => []
    case Some(doc) => ExtractLinks(doc)
  }

  /** The elements of `urls` not in `visited`, in order and with repeats. */
  function Unvisited(visited: set<string>, urls: seq<string>): (r: seq<string>)
    ensures |r| <= |urls|
    ensures forall x :: x in r <==> x in urls && x !in visited
  {
    if urls == [] then []
    else (if urls[0] !in visited then [urls[0]] else []) + Unvisited(visited, urls[1..])
  }

  /** The URLs appended to the frontier after scraping `current`: each link
      resolved against `current`, kept when not yet visited, in link order.
      Only `visited` is consulted, so a URL already waiting in the frontier,
      or found twice on the page, is appended again. */
  function NewUrls(web: Web, visited: set<string>, current: string, links: seq<string>): (r: seq<string>)
    ensures |r| <= |links|
    ensures forall i :: 0 <= i < |r| ==> r[i] !in visited
    ensures forall x :: x in r <==> x !in visited && exists l :: l in links && x == web.join(current, l)
  {
    if links == [] then []
    else
      var full := web.join(current, links[0]);
      (if full !in visited then [full] else []) + NewUrls(web, visited, current, links[1..])
  }

  /** Every link of a page in `universe` resolves into `universe`. A finite set
      containing the seeds and closed in this sense bounds the crawl. */
  ghost predicate Closed(web: Web, universe: set<string>) {
    forall u, l :: u in universe && l in LinksOf(web, u) ==> web.join(u, l) in universe
  }

  /** The distinct elements of `s`, each at its first occurrence. */
  function Dedup(s: seq<string>): (r: seq<string>)
    ensures Distinct(r)
    ensures forall x :: x in r <==> x in s
  {
    if s == [] then []
    else
      var d := Dedup(s[..|s| - 1]);
      var x := s[|s| - 1];
      if x in s[..|s| - 1] then d
      else
        assert forall y :: y in s <==> y in s[..|s| - 1] || y == x by {
          assert s == s[..|s| - 1] + [x];
        }
        d + [x]
  }

  /** The files after scraping the URLs of `trail` in order, starting from `files`. */
  function ScrapeAll(web: Web, files: Files, trail: seq<string>): Files {
    if trail == [] then files
    else ScrapePage(web, ScrapeAll(web, files, trail[..|trail| - 1]), trail[|trail| - 1]).files
  }

  /** The record of the page at `u` has an entry in `files`. */
  predicate Stored(files: Files, u: Url) {
    SiteFileName(u.netloc) in files && PageKey(u.path) in files[SiteFileName(u.netloc)]
  }

  /** A save never removes a file or a page entry. */
  lemma SaveKeepsStored(files: Files, u: Url, v: Url, data: Content)
    requires Stored(files, v)
    ensures Stored(Save(files, u, data), v)
  {
  }

  /** After scraping a trail of URLs, every URL of it whose fetch succeeded has
      an entry for its page in the files (possibly overwritten by a later URL
      with the same file name and page key). */
  lemma {:induction false} ScrapeAllStoresFetched(web: Web, files: Files, trail: seq<string>)
    ensures forall i :: 0 <= i < |trail| && web.fetch(trail[i]).Some? ==>
      Stored(ScrapeAll(web, files, trail), web.parse(trail[i]))
  {
    if trail != [] {
      var prefix := trail[..|trail| - 1];
      var last := trail[|trail| - 1];
      var before := ScrapeAll(web, files, prefix);
      ScrapeAllStoresFetched(web, files, prefix);
      forall i | 0 <= i < |trail| && web.fetch(trail[i]).Some?
        ensures Stored(ScrapeAll(web, files, trail), web.parse(trail[i]))
      {
        if i < |trail| - 1 {
          assert trail[i] == prefix[i];
          if web.fetch(last).Some? {
            SaveKeepsStored(before, web.parse(last), web.parse(trail[i]), ExtractContent(web.fetch(last).value));
          }
        }
      }
    }
  }

  /** Links are handled one after the other: the URLs appended for two runs of
      links in sequence are those of the first run followed by those of the
      second, each link contributing its own entry. */
  lemma {:induction false} NewUrlsAppend(web: Web, visited: set<string>, current: string, a: seq<string>, b: seq<string>)
    ensures NewUrls(web, visited, current, a + b) == NewUrls(web, visited, current, a) + NewUrls(web, visited, current, b)
  {
    if a == [] {
      assert a + b == b;
    } else {
      assert (a + b)[0] == a[0];
      assert (a + b)[1..] == a[1..] + b;
      NewUrlsAppend(web, visited, current, a[1..], b);
    }
  }

  /** A single link appends its resolved URL exactly when that URL is not visited. */
  lemma NewUrlsSingle(web: Web, visited: set<string>, current: string, l: string)
    ensures NewUrls(web, visited, current, [l])
         == if web.join(current, l) in visited then [] else [web.join(current, l)]
  {
    assert [l][1..] == [];
  }

  /** Index by index: the `i`-th appended URL is the resolution of the `i`-th
      link whose resolution is not visited, so repeats and link order are kept. */
  lemma {:induction false} NewUrlsIndexed(web: Web, visited: set<string>, current: string, links: seq<string>)
    ensures NewUrls(web, visited, current, links)
         == Unvisited(visited, seq(|links|, i requires 0 <= i < |links| => web.join(current, links[i])))
  {
    var full := seq(|links|, i requires 0 <= i < |links| => web.join(current, links[i]));
    if links != [] {
      NewUrlsIndexed(web, visited, current, links[1..]);
      var rest := seq(|links[1..]|, i requires 0 <= i < |links[1..]| => web.join(current, links[1..][i]));
      assert full[1..] == rest;
      assert full[0] == web.join(current, links[0]);
    }
  }

  /** The frontier can hold the same URL twice: a link that appears twice on a
      page is appended twice when it is not yet visited. */
  lemma NewUrlsKeepsRepeats(web: Web, visited: set<string>, current: string, l: string)
    requires web.join(current, l) !in visited
    ensures NewUrls(web, visited, current, [l, l]) == [web.join(current, l), web.join(current, l)]
  {
    assert [l, l][1..] == [l];
    assert [l][1..] == [];
  }

  /** Every link of a visited page resolves to a URL that is visited or still
      waiting in the frontier. */
  ghost predicate LinksCovered(web: Web, visited: set<string>, frontier: seq<string>) {
    forall u, l :: u in visited && l in LinksOf(web, u) ==>
      web.join(u, l) in visited || web.join(u, l) in frontier
  }

  /** Length of `urls[:num_urls]` for a non-negative `num_urls`: Python's
      slice stops at the end of the list when `num_urls` goes past it. */
  function SeedCount(urls: seq<string>, numUrls: nat): (n: nat)
    ensures n <= |urls| && n <= numUrls
    ensures n == numUrls || n == |urls|
  {
    if numUrls <= |urls| then numUrls else |urls|
  }

  /** The URLs of `s`, as a set. */
  function Seen(s: seq<string>): (r: set<string>)
    ensures forall x :: x in r <==> x in s
  {
    set x | x in s
  }

  /** What the crawl appends to the frontier while it scrapes the URLs of
      `scraped` in order: for each of them, its resolved links that were not
      visited at that moment, i.e. not among the URLs scraped before it. */
  function Appended(web: Web, scraped: seq<string>): seq<string> {
    if scraped == [] then []
    else
      var prior := scraped[..|scraped| - 1];
      var url := scraped[|scraped| - 1];
      Appended(web, prior) + NewUrls(web, Seen(prior), url, LinksOf(web, url))
  }

  /** Everything appended is a resolved link of one of the scraped pages. */
  lemma {:induction false} AppendedAreResolvedLinks(web: Web, scraped: seq<string>, x: string)
    requires x in Appended(web, scraped)
    ensures exists j, l :: 0 <= j < |scraped| && l in LinksOf(web, scraped[j]) && x == web.join(scraped[j], l)
  {
    var prior := scraped[..|scraped| - 1];
    var url := scraped[|scraped| - 1];
    if x in Appended(web, prior) {
      AppendedAreResolvedLinks(web, prior, x);
      var j, l :| 0 <= j < |prior| && l in LinksOf(web, prior[j]) && x == web.join(prior[j], l);
      assert prior[j] == scraped[j];
    } else {
      assert x in NewUrls(web, Seen(prior), url, LinksOf(web, url));
      assert scraped[|scraped| - 1] == url;
    }
  }

  /** Appending one element to a sequence appends it to its deduplication
      exactly when it is new. */
  lemma DedupSnoc(s: seq<string>, x: string)
    ensures Dedup(s + [x]) == if x in s then Dedup(s) else Dedup(s) + [x]
  {
    assert (s + [x])[..|s|] == s;
  }

  /** Deduplication keeps what it already produced when more elements follow. */
  lemma {:induction false} DedupPrefix(a: seq<string>, b: seq<string>)
    ensures Dedup(a) <= Dedup(a + b)
    decreases |b|
  {
    if b == [] {
      assert a + b == a;
    } else {
      var b' := b[..|b| - 1];
      DedupPrefix(a, b');
      assert a + b == (a + b') + [b[|b| - 1]];
      DedupSnoc(a + b', b[|b| - 1]);
    }
  }

  /** Popping a URL that is already visited keeps every visited page's links covered. */
  lemma CoveredAfterSkip(web: Web, visited: set<string>, frontier: seq<string>)
    requires frontier != [] && frontier[0] in visited
    requires LinksCovered(web, visited, frontier)
    ensures LinksCovered(web, visited, frontier[1..])
  {
    forall u, l | u in visited && l in LinksOf(web, u)
      ensures web.join(u, l) in visited || web.join(u, l) in frontier[1..]
    {
      var x := web.join(u, l);
      if x !in visited {
        assert x in frontier && x != frontier[0];
        var i :| 0 <= i < |frontier| && frontier[i] == x;
        assert frontier[1..][i - 1] == x;
      }
    }
  }

  /** Scraping the head and appending its new URLs keeps every visited page's
      links covered, the head's own links included. */
  lemma CoveredAfterScrape(web: Web, visited: set<string>, frontier: seq<string>)
    requires frontier != []
    requires LinksCovered(web, visited, frontier)
    ensures LinksCovered(web, visited + {frontier[0]},
                         frontier[1..] + NewUrls(web, visited, frontier[0], LinksOf(web, frontier[0])))
  {
    var c := frontier[0];
    var added := NewUrls(web, visited, c, LinksOf(web, c));
    var next := frontier[1..] + added;
    forall u, l | u in visited + {c} && l in LinksOf(web, u)
      ensures web.join(u, l) in visited + {c} || web.join(u, l) in next
    {
      var x := web.join(u, l);
      if x !in visited && x != c {
        if u == c {
          assert x in added;
        } else {
          assert x in frontier;
          var i :| 0 <= i < |frontier| && frontier[i] == x;
          assert frontier[1..][i - 1] == x;
        }
      }
    }
  }

  lemma ScrapeAllAppend(web: Web, files: Files, trail: seq<string>, url: string)
    ensures ScrapeAll(web, files, trail + [url]) == ScrapePage(web, ScrapeAll(web, files, trail), url).files
  {
    assert (trail + [url])[..|trail|] == trail;
  }

  /** Marking one more URL of `universe` as visited shrinks what is left to visit. */
  lemma VisitShrinks(universe: set<string>, visited: set<string>, c: string)
    requires c in universe && c !in visited
    ensures |universe - (visited + {c})| < |universe - visited|
  {
    assert universe - visited == (universe - (visited + {c})) + {c};
  }

  /** The loop invariant of `scrape_website`. `enqueued` is every URL ever put
      in the frontier, in order (the seeds, then what each scrape appended);
      `popped` of them have been dequeued, the frontier is the rest, and the
      scraped URLs are the dequeued ones at their first occurrence. Each
      scraped URL had been enqueued before it was scraped. `cur` is the files
      so far. */
  ghost predicate CrawlInv(web: Web, files: Files, seeds: seq<string>, universe: set<string>,
                           frontier: seq<string>, visited: set<string>, scraped: seq<string>,
                           cur: Files, popped: nat, enqueued: seq<string>)
  {
    && visited == Seen(scraped)
    && visited <= universe
    && (forall x :: x in frontier ==> x in universe)
    && cur == ScrapeAll(web, files, scraped)
    && LinksCovered(web, visited, frontier)
    && enqueued == seeds + Appended(web, scraped)
    && popped <= |enqueued|
    && frontier == enqueued[popped..]
    && scraped == Dedup(enqueued[..popped])
    && (forall k :: 0 <= k < |scraped| ==> scraped[k] in seeds + Appended(web, scraped[..k]))
  }

  /** Scraping one more URL appends its unvisited resolved links. */
  lemma AppendedSnoc(web: Web, scraped: seq<string>, c: string)
    ensures Appended(web, scraped + [c]) == Appended(web, scraped) + NewUrls(web, Seen(scraped), c, LinksOf(web, c))
  {
    assert (scraped + [c])[..|scraped|] == scraped;
  }

  lemma SeenSnoc(s: seq<string>, c: string)
    ensures Seen(s + [c]) == Seen(s) + {c}
  {
    assert forall x :: x in s + [c] <==> x in s || x == c;
  }

  /** Dequeuing the next enqueued URL: it is scraped exactly when it is new. */
  lemma PopStep(enqueued: seq<string>, popped: nat, scraped: seq<string>)
    requires popped < |enqueued| && scraped == Dedup(enqueued[..popped])
    ensures Dedup(enqueued[..popped + 1])
         == if enqueued[popped] in scraped then scraped else scraped + [enqueued[popped]]
  {
    assert enqueued[..popped + 1] == enqueued[..popped] + [enqueued[popped]];
    DedupSnoc(enqueued[..popped], enqueued[popped]);
  }

  /** The frontier stays the not yet dequeued part of the queue when `added` is
      appended to both. */
  lemma QueueShape(enqueued: seq<string>, popped: nat, frontier: seq<string>, added: seq<string>)
    requires popped <= |enqueued| && frontier == enqueued[popped..] && frontier != []
    ensures popped + 1 <= |enqueued + added|
    ensures frontier[0] == enqueued[popped]
    ensures frontier[1..] + added == (enqueued + added)[popped + 1..]
    ensures (enqueued + added)[..popped + 1] == enqueued[..popped + 1]
  {
  }

  /** The scraped URL `c` was enqueued before it was scraped. */
  lemma EnqueuedBeforeStep(web: Web, seeds: seq<string>, scraped: seq<string>, c: string)
    requires forall k :: 0 <= k < |scraped| ==> scraped[k] in seeds + Appended(web, scraped[..k])
    requires c in seeds + Appended(web, scraped)
    ensures forall k :: 0 <= k < |scraped + [c]| ==>
      (scraped + [c])[k] in seeds + Appended(web, (scraped + [c])[..k])
  {
    var s := scraped + [c];
    forall k | 0 <= k < |s| ensures s[k] in seeds + Appended(web, s[..k]) {
      if k < |scraped| {
        assert s[..k] == scraped[..k];
      } else {
        assert s[..k] == scraped;
      }
    }
  }

  /** Popping a visited URL keeps the invariant. */
  lemma SkipStep(web: Web, files: Files, seeds: seq<string>, universe: set<string>,
                 frontier: seq<string>, visited: set<string>, scraped: seq<string>, cur: Files,
                 popped: nat, enqueued: seq<string>)
    requires CrawlInv(web, files, seeds, universe, frontier, visited, scraped, cur, popped, enqueued)
    requires frontier != [] && frontier[0] in visited
    ensures CrawlInv(web, files, seeds, universe, frontier[1..], visited, scraped, cur, popped + 1, enqueued)
  {
    QueueShape(enqueued, popped, frontier, []);
    assert enqueued + [] == enqueued;
    PopStep(enqueued, popped, scraped);
    CoveredAfterSkip(web, visited, frontier);
  }

  /** The order facts of the invariant after scraping the unvisited head. */
  lemma ScrapeOrderStep(web: Web, seeds: seq<string>, frontier: seq<string>, visited: set<string>,
                        scraped: seq<string>, popped: nat, enqueued: seq<string>)
    requires visited == Seen(scraped)
    requires enqueued == seeds + Appended(web, scraped)
    requires popped <= |enqueued| && frontier == enqueued[popped..]
    requires scraped == Dedup(enqueued[..popped])
    requires forall k :: 0 <= k < |scraped| ==> scraped[k] in seeds + Appended(web, scraped[..k])
    requires frontier != [] && frontier[0] !in visited
    ensures var c := frontier[0];
            var added := NewUrls(web, visited, c, LinksOf(web, c));
            var s := scraped + [c];
            var e := enqueued + added;
            && visited + {c} == Seen(s)
            && e == seeds + Appended(web, s)
            && popped + 1 <= |e|
            && frontier[1..] + added == e[popped + 1..]
            && s == Dedup(e[..popped + 1])
            && (forall k :: 0 <= k < |s| ==> s[k] in seeds + Appended(web, s[..k]))
  {
    var c := frontier[0];
    var added := NewUrls(web, visited, c, LinksOf(web, c));
    AppendedSnoc(web, scraped, c);
    ConcatAssoc(seeds, Appended(web, scraped), added);
    QueueShape(enqueued, popped, frontier, added);
    PopStep(enqueued, popped, scraped);
    EnqueuedBeforeStep(web, seeds, scraped, c);
    SeenSnoc(scraped, c);
  }

  /** Scraping an unvisited head keeps the invariant and leaves fewer URLs of
      the universe to visit. */
  lemma ScrapeStep(web: Web, files: Files, seeds: seq<string>, universe: set<string>,
                   frontier: seq<string>, visited: set<string>, scraped: seq<string>, cur: Files,
                   popped: nat, enqueued: seq<string>)
    requires Closed(web, universe)
    requires CrawlInv(web, files, seeds, universe, frontier, visited, scraped, cur, popped, enqueued)
    requires frontier != [] && frontier[0] !in visited
    ensures var c := frontier[0];
            var added := NewUrls(web, visited, c, LinksOf(web, c));
            CrawlInv(web, files, seeds, universe, frontier[1..] + added, visited + {c}, scraped + [c],
                     ScrapePage(web, cur, c).files, popped + 1, enqueued + added)
    ensures |universe - (visited + {frontier[0]})| < |universe - visited|
  {
    var c := frontier[0];
    var added := NewUrls(web, visited, c, LinksOf(web, c));
    ScrapeOrderStep(web, seeds, frontier, visited, scraped, popped, enqueued);
    CoveredAfterScrape(web, visited, frontier);
    VisitShrinks(universe, visited, c);
    assert forall x :: x in added ==> x in universe;
    ScrapeAllAppend(web, files, scraped, c);
  }

  /** The invariant holds before the first pop. */
  lemma CrawlStart(web: Web, files: Files, seeds: seq<string>, universe: set<string>)
    requires forall x :: x in seeds ==> x in universe
    ensures CrawlInv(web, files, seeds, universe, seeds, {}, [], files, 0, seeds)
  {
    assert seeds[0..] == seeds && seeds[..0] == [];
    assert Seen([]) == {};
    assert seeds + Appended(web, []) == seeds;
  }

  /** With the frontier empty the whole queue has been dequeued: the scraped
      order is the deduplicated queue, and the visited set is closed. */
  lemma CrawlDone(web: Web, files: Files, seeds: seq<string>, universe: set<string>,
                  frontier: seq<string>, visited: set<string>, scraped: seq<string>, cur: Files,
                  popped: nat, enqueued: seq<string>)
    requires CrawlInv(web, files, seeds, universe, frontier, visited, scraped, cur, popped, enqueued)
    requires frontier == []
    ensures forall x :: x in visited <==> x in scraped
    ensures Distinct(scraped)
    ensures scraped == Dedup(seeds + Appended(web, scraped))
    ensures Dedup(seeds) <= scraped
    ensures forall u, l :: u in visited && l in LinksOf(web, u) ==> web.join(u, l) in visited
  {
    assert enqueued[..popped] == enqueued;
    DedupPrefix(seeds, Appended(web, scraped));
  }

  /** `if new_links:` treats a failed page and a page without links alike. */
  lemma PageLinks(web: Web, files: Files, url: string)
    ensures (var p := ScrapePage(web, files, url); if p.links.Some? then p.links.value else [])
         == LinksOf(web, url)
  {
  }

  /** Every scraped URL is a seed or a resolved link of a page scraped before it. */
  lemma ScrapedAreReached(web: Web, seeds: seq<string>, scraped: seq<string>)
    requires forall k :: 0 <= k < |scraped| ==> scraped[k] in seeds + Appended(web, scraped[..k])
    ensures forall k :: 0 <= k < |scraped| ==>
      || scraped[k] in seeds
      || exists j, l :: 0 <= j < k && l in LinksOf(web, scraped[j]) && scraped[k] == web.join(scraped[j], l)
  {
    forall k | 0 <= k < |scraped| && scraped[k] !in seeds
      ensures exists j, l :: 0 <= j < k && l in LinksOf(web, scraped[j]) && scraped[k] == web.join(scraped[j], l)
    {
      var prior := scraped[..k];
      AppendedAreResolvedLinks(web, prior, scraped[k]);
      var j, l :| 0 <= j < |prior| && l in LinksOf(web, prior[j]) && scraped[k] == web.join(prior[j], l);
      assert prior[j] == scraped[j];
    }
  }

  /** Every visited page whose fetch succeeded has its entry in the files. */
  lemma VisitedAreStored(web: Web, files: Files, visited: set<string>, scraped: seq<string>)
    requires forall x :: x in visited <==> x in scraped
    ensures forall u :: u in visited && web.fetch(u).Some? ==> Stored(ScrapeAll(web, files, scraped), web.parse(u))
  {
    ScrapeAllStoresFetched(web, files, scraped);
    forall u | u in visited && web.fetch(u).Some? ensures Stored(ScrapeAll(web, files, scraped), web.parse(u)) {
      var i :| 0 <= i < |scraped| && scraped[i] == u;
    }
  }

  /** The loop of `scrape_website`, from the initial frontier `seeds`: the
      frontier is consumed from the front; a URL already visited is skipped;
      any other URL is scraped, its unvisited resolved links are appended, and
      it is marked visited. Returns the files, the visited set and the order in
      which URLs were scraped. */
  method CrawlFrontier(web: Web, files: Files, seeds: seq<string>, ghost universe: set<string>)
    returns (files': Files, visited: set<string>, scraped: seq<string>)
    requires forall x :: x in seeds ==> x in universe
    requires Closed(web, universe)
    ensures forall x :: x in visited <==> x in scraped
    ensures Distinct(scraped)
    ensures visited <= universe
    ensures scraped == Dedup(seeds + Appended(web, scraped))
    ensures forall k :: 0 <= k < |scraped| ==> scraped[k] in seeds + Appended(web, scraped[..k])
    ensures Dedup(seeds) <= scraped
    ensures forall u, l :: u in visited && l in LinksOf(web, u) ==> web.join(u, l) in visited
    ensures files' == ScrapeAll(web, files, scraped)
  {
    var frontier := seeds;
    visited, scraped, files' := {}, [], files;
    ghost var popped: nat := 0;
    ghost var enqueued := seeds;
    CrawlStart(web, files, seeds, universe);
    while frontier != []
      invariant CrawlInv(web, files, seeds, universe, frontier, visited, scraped, files', popped, enqueued)
      decreases |universe - visited|, |frontier|
    {
      var current := frontier[0];
      if current in visited {
        SkipStep(web, files, seeds, universe, frontier, visited, scraped, files', popped, enqueued);
        frontier := frontier[1..];
      } else {
        ScrapeStep(web, files, seeds, universe, frontier, visited, scraped, files', popped, enqueued);
        var page := ScrapePage(web, files', current);
        var found := if page.links.Some? then page.links.value else [];
        PageLinks(web, files', current);
        var added := NewUrls(web, visited, current, found);
        files' := page.files;
        frontier := frontier[1..] + added;
        enqueued := enqueued + added;
        visited := visited + {current};
        scraped := scraped + [current];
      }
      popped := popped + 1;
    }
    CrawlDone(web, files, seeds, universe, frontier, visited, scraped, files', popped, enqueued);
  }

  /** `scrape_website(urls, num_urls)`: the frontier starts as
      `urls[:num_urls]` and is crawled to exhaustion, first in first out.
      The scraped order is the deduplicated queue of the seeds followed by
      what each scrape appended, and every scraped URL is a seed or a
      resolved link of a page scraped earlier. Every seed is scraped, no URL
      twice, the visited set is closed under resolved links, the files are
      those of scraping the URLs in that order, and every visited page whose
      fetch succeeded has its entry in the files. */
  method ScrapeWebsite(web: Web, files: Files, urls: seq<string>, numUrls: nat, ghost universe: set<string>)
    returns (files': Files, visited: set<string>, scraped: seq<string>)
    requires forall i :: 0 <= i < |urls| && i < numUrls ==> urls[i] in universe
    requires Closed(web, universe)
    ensures forall x :: x in visited <==> x in scraped
    ensures Distinct(scraped)
    ensures visited <= universe
    ensures scraped == Dedup(urls[..SeedCount(urls, numUrls)] + Appended(web, scraped))
    ensures forall k :: 0 <= k < |scraped| ==>
      || scraped[k] in urls[..SeedCount(urls, numUrls)]
      || exists j, l :: 0 <= j < k && l in LinksOf(web, scraped[j]) && scraped[k] == web.join(scraped[j], l)
    ensures Dedup(urls[..SeedCount(urls, numUrls)]) <= scraped
    ensures forall u, l :: u in visited && l in LinksOf(web, u) ==> web.join(u, l) in visited
    ensures files' == ScrapeAll(web, files, scraped)
    ensures forall u :: u in visited && web.fetch(u).Some? ==> Stored(files', web.parse(u))
  {
    var seeds := urls[..SeedCount(urls, numUrls)];
    files', visited, scraped := CrawlFrontier(web, files, seeds, universe);
    ScrapedAreReached(web, seeds, scraped);
    VisitedAreStored(web, files, visited, scraped);
  }
}
