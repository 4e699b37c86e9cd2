/**
 * The pagination walker of `scrape_images`: page-URL normalisation, the
 * visited and page-limit guards, the choice of the next page, and the image
 * URLs handed to the downloader. Fetching and HTML parsing are abstracted:
 * `web(url)` is the page a request for `url` yields, already reduced to what
 * the walker reads from it.
 */
module Crawler {
  import opened Wrappers
  import PageQuery
  import ImageUrl

  /** A URL split as `urlparse` + `parse_qs` see it: everything but the query, and the query's dictionary. */
  datatype Parsed = Parsed(rest: string, query: PageQuery.Query)

  /**
   * The URL functions of Python's standard library, left uninterpreted:
   * `join` is `urljoin` (reference resolution, section 5.2 of RFC 3986),
   * `parse` is `urlparse` followed by `parse_qs` of the query, and `unparse`
   * is `urlencode(..., doseq=True)` followed by `urlunparse`.
   */
  datatype UrlLib = UrlLib(
    join: (string, string) -> string,
    parse: string -> Parsed,
    unparse: Parsed -> string)

  /**
   * What the idempotence of normalisation rests on: parsed queries are well
   * formed, and any parts with a well-formed query, written out, parse back
   * to exactly those parts, the non-query `rest` included. This idealises
   * Python's library, whose `urlunparse` loses an empty authority before a
   * `//` path (`http:////x`).
   */
  ghost predicate Coherent(lib: UrlLib) {
    && (forall s :: PageQuery.WellFormed(lib.parse(s).query))
    && (forall p: Parsed :: PageQuery.WellFormed(p.query) ==> lib.parse(lib.unparse(p)) == p)
  }

  /** How the request for a page ended. */
  datatype Outcome =
    | Ok        // any status outside 400-599, the range for which `raise_for_status` raises
    | NotFound  // `HTTPError` with status 404: logged as the end of pagination
    | Failed    // any other HTTP error or exception

  /**
   * A fetched page as the walker reads it: the attribute maps of the `<img>`
   * tags inside `div.article-fulltext` (empty when there is no such div), the
   * `href` of the first `<a rel="next">` and of the first anchor whose
   * `.string` contains "下一页"; an anchor with several children has no
   * `.string`, and an anchor without `href` is given as `""`, which
   * `urljoin` treats alike.
   */
  datatype Page = Page(
    outcome: Outcome,
    images: seq<ImageUrl.Tag>,
    relNext: Option<string>,
    textNext: Option<string>)

  /** imgscrape.py lines 98-102: a URL whose query lacks `page` gets `page=1` added; any other URL is kept verbatim. */
  function NormaliseUrl(lib: UrlLib, url: string): string {
    var p := lib.parse(url);
    if PageQuery.PageKey in PageQuery.Keys(p.query) then url
    else lib.unparse(Parsed(p.rest, PageQuery.Normalise(p.query)))
  }

  /** The normalised URL carries a `page` key, and normalising again changes nothing. */
  lemma NormaliseUrlIdempotent(lib: UrlLib, url: string)
    requires Coherent(lib)
    ensures PageQuery.PageKey in PageQuery.Keys(lib.parse(NormaliseUrl(lib, url)).query)
    ensures NormaliseUrl(lib, NormaliseUrl(lib, url)) == NormaliseUrl(lib, url)
  {
    var p := lib.parse(url);
    if PageQuery.PageKey !in PageQuery.Keys(p.query) {
      var q := PageQuery.Normalise(p.query);
      PageQuery.NormaliseWellFormed(p.query);
      RoundTrip(lib, Parsed(p.rest, q));
    }
  }

  /** A URL whose query already has `page` is used verbatim: it is not written out again. */
  lemma NormaliseUrlKeepsPaged(lib: UrlLib, url: string)
    requires PageQuery.PageKey in PageQuery.Keys(lib.parse(url).query)
    ensures NormaliseUrl(lib, url) == url
  {
  }

  /** A URL without `page` gains it with value `1`; its other components and keys are kept. */
  lemma NormaliseUrlAddsFirstPage(lib: UrlLib, url: string)
    requires Coherent(lib)
    requires PageQuery.PageKey !in PageQuery.Keys(lib.parse(url).query)
    ensures var before, after := lib.parse(url), lib.parse(NormaliseUrl(lib, url));
      && after.rest == before.rest
      && PageQuery.Keys(after.query) == PageQuery.Keys(before.query) + [PageQuery.PageKey]
      && PageQuery.Lookup(after.query, PageQuery.PageKey) == Some(["1"])
      && forall k :: k != PageQuery.PageKey ==> PageQuery.Lookup(after.query, k) == PageQuery.Lookup(before.query, k)
  {
    var p := lib.parse(url);
    var q := PageQuery.Normalise(p.query);
    PageQuery.NormaliseWellFormed(p.query);
    RoundTrip(lib, Parsed(p.rest, q));
    forall k | k != PageQuery.PageKey
      ensures PageQuery.Lookup(q, k) == PageQuery.Lookup(p.query, k)
    {
      PageQuery.NormaliseLookup(p.query, k);
    }
    PageQuery.NormaliseLookup(p.query, PageQuery.PageKey);
  }

  /** Where the walker goes after a successfully fetched page. */
  datatype Next =
    | Follow(url: string)  // recurse into this URL
    | NoNextPage           // no link and no `page` key: the walk ends
    | BadPageNumber        // `int(...)` raised: the exception handler ends the walk

  /** imgscrape.py lines 145-160: where the walk goes after the page at `target`. */
  function NextPage(lib: UrlLib, target: string, page: Page): (r: Next)
    ensures r.NoNextPage? <==>
      page.relNext.None? && page.textNext.None? && PageQuery.PageKey !in PageQuery.Keys(lib.parse(target).query)
    ensures r.BadPageNumber? ==> page.relNext.None? && page.textNext.None?
  {
    if page.relNext.Some? then Follow(lib.join(target, page.relNext.value))
    else if page.textNext.Some? then Follow(lib.join(target, page.textNext.value))
    else
      var p := lib.parse(target);
      match PageQuery.IncrementPage(p.query)
      case Incremented(q) => Follow(lib.unparse(Parsed(p.rest, q)))
      case NoPageKey => NoNextPage
      case BadPageValue => BadPageNumber
  }

  /**
   * The fixed priority: a `rel="next"` link wins whatever else the page
   * has; the "下一页" link is used only without one; the query is consulted
   * only when the page has neither link.
   */
  lemma NextPagePriority(lib: UrlLib, target: string, page: Page)
    ensures page.relNext.Some? ==> NextPage(lib, target, page) == Follow(lib.join(target, page.relNext.value))
    ensures page.relNext.None? && page.textNext.Some? ==>
      NextPage(lib, target, page) == Follow(lib.join(target, page.textNext.value))
    ensures page.relNext.None? && page.textNext.None? ==>
      (NextPage(lib, target, page) == NoNextPage <==> PageQuery.PageKey !in PageQuery.Keys(lib.parse(target).query))
    ensures page.relNext.None? && page.textNext.None? ==>
      (NextPage(lib, target, page) == BadPageNumber <==>
        PageQuery.PageKey in PageQuery.Keys(lib.parse(target).query) && PageQuery.PageNumber(lib.parse(target).query).None?)
  {
  }

  /**
   * Without links, the next URL is the current one with its page number
   * advanced by one and every other part kept.
   */
  lemma NextPageIncrements(lib: UrlLib, target: string, page: Page)
    requires Coherent(lib)
    requires page.relNext.None? && page.textNext.None?
    requires PageQuery.PageNumber(lib.parse(target).query).Some?
    ensures NextPage(lib, target, page).Follow?
    ensures var before, after := lib.parse(target), lib.parse(NextPage(lib, target, page).url);
      && after.rest == before.rest
      && PageQuery.Keys(after.query) == PageQuery.Keys(before.query)
      && PageQuery.PageNumber(after.query).Some?
      && PageQuery.PageNumber(after.query).value == PageQuery.PageNumber(before.query).value + 1
      && forall k :: k != PageQuery.PageKey ==> PageQuery.Lookup(after.query, k) == PageQuery.Lookup(before.query, k)
  {
    IncrementedUrlParses(lib, target, page);
    IncrementedParts(lib.parse(target), lib.parse(NextPage(lib, target, page).url));
  }

  /** The parts of a URL whose query was incremented: the same rest and keys, the page advanced, the other values kept. */
  lemma IncrementedParts(before: Parsed, after: Parsed)
    requires PageQuery.PageNumber(before.query).Some?
    requires after.rest == before.rest && after.query == PageQuery.IncrementPage(before.query).query
    ensures PageQuery.Keys(after.query) == PageQuery.Keys(before.query)
    ensures PageQuery.PageNumber(after.query).Some?
    ensures PageQuery.PageNumber(after.query).value == PageQuery.PageNumber(before.query).value + 1
    ensures forall k :: k != PageQuery.PageKey ==> PageQuery.Lookup(after.query, k) == PageQuery.Lookup(before.query, k)
  {
    PageQuery.IncrementAdvances(before.query);
    PageQuery.IncrementKeepsOthers(before.query);
  }

  /** The generated next URL parses back to the current URL's parts with the incremented query. */
  lemma IncrementedUrlParses(lib: UrlLib, target: string, page: Page)
    requires Coherent(lib)
    requires page.relNext.None? && page.textNext.None?
    requires PageQuery.PageNumber(lib.parse(target).query).Some?
    ensures PageQuery.IncrementPage(lib.parse(target).query).Incremented?
    ensures NextPage(lib, target, page).Follow?
    ensures lib.parse(NextPage(lib, target, page).url)
      == Parsed(lib.parse(target).rest, PageQuery.IncrementPage(lib.parse(target).query).query)
  {
    var p := lib.parse(target);
    PageQuery.IncrementAdvances(p.query);
    var q := PageQuery.IncrementPage(p.query).query;
    assert NextPage(lib, target, page) == Follow(lib.unparse(Parsed(p.rest, q)));
    PageQuery.IncrementPageWellFormed(p.query);
    RoundTrip(lib, Parsed(p.rest, q));
  }

  /** Under a coherent library, a URL written from well-formed parts parses back to those parts. */
  lemma RoundTrip(lib: UrlLib, p: Parsed)
    requires Coherent(lib) && PageQuery.WellFormed(p.query)
    ensures lib.parse(lib.unparse(p)) == p
  {
  }

  /** `extract_image_url(img, target_url)` for the tags of one page. */
  function ImageFinder(join: (string, string) -> string, base: string): ImageUrl.Tag -> Option<string> {
    tag => ImageUrl.ExtractImageUrl(join, base, tag)
  }

  /** imgscrape.py lines 131-134: the image URLs of a page's tags, in order, skipping tags that yield no URL. */
  function ResolvedImages(extract: ImageUrl.Tag -> Option<string>, tags: seq<ImageUrl.Tag>): (urls: seq<string>)
    ensures |urls| <= |tags|
    ensures forall i :: 0 <= i < |urls| ==> urls[i] != ""
  {
    if |tags| == 0 then []
    else
      var url := extract(tags[|tags| - 1]);
      ResolvedImages(extract, tags[..|tags| - 1]) + (if url.Some? && url.value != "" then [url.value] else [])
  }

  /** One tag contributes one attempt, its own URL, when it resolves to a non-empty URL, and none otherwise. */
  lemma ResolvedImagesOne(extract: ImageUrl.Tag -> Option<string>, t: ImageUrl.Tag)
    ensures ResolvedImages(extract, [t]) ==
      if extract(t).Some? && extract(t).value != "" then [extract(t).value] else []
  {
    assert [t][..0] == [];
  }

  /**
   * The attempts of two runs of tags are those of the first run followed by
   * those of the second: with `ResolvedImagesOne`, this determines the
   * attempts tag by tag, in order, repeated URLs included.
   */
  lemma {:induction false} ResolvedImagesConcat(extract: ImageUrl.Tag -> Option<string>, a: seq<ImageUrl.Tag>, b: seq<ImageUrl.Tag>)
    ensures ResolvedImages(extract, a + b) == ResolvedImages(extract, a) + ResolvedImages(extract, b)
  {
    if |b| == 0 {
      assert a + b == a;
    } else {
      var init := b[..|b| - 1];
      assert (a + b)[..|a + b| - 1] == a + init;
      assert (a + b)[|a + b| - 1] == b[|b| - 1];
      ResolvedImagesConcat(extract, a, init);
    }
  }

  /** Exactly the tags that yield a non-empty URL contribute an attempt. */
  lemma {:induction false} ResolvedImagesMembers(extract: ImageUrl.Tag -> Option<string>, tags: seq<ImageUrl.Tag>, u: string)
    ensures u in ResolvedImages(extract, tags) <==>
      exists i :: 0 <= i < |tags| && extract(tags[i]) == Some(u) && u != ""
  {
    if |tags| > 0 {
      var init := tags[..|tags| - 1];
      ResolvedImagesMembers(extract, init, u);
      assert forall i :: 0 <= i < |init| ==> init[i] == tags[i];
    }
  }

  /** A tag without any of the four attributes is skipped: it yields no download attempt. */
  lemma ResolvedImagesSkipsBareTag(join: (string, string) -> string, base: string, tags: seq<ImageUrl.Tag>, i: nat)
    requires i < |tags|
    requires forall name :: name in ImageUrl.PreferredAttrs + ["srcset"] ==> !ImageUrl.HasValue(tags[i], name)
    ensures ImageFinder(join, base)(tags[i]).None?
  {
    ImageUrl.ExtractImageUrlPriority(join, base, tags[i]);
  }

  /** What a crawl session did: the page URLs fetched and the image URLs handed to the downloader, in order, and the final visited set. */
  datatype Trace = Trace(fetched: seq<string>, attempts: seq<string>, visited: set<string>)

  /** The pages still allowed from page number `page`: the recursion's termination measure. */
  function Budget(total: int, page: int): nat {
    if page <= total then total - page + 1 else 0
  }

  /**
   * `scrape_images(url, ..., total, page, visited)` as its own recursion:
   * normalise, stop if already visited, record as visited, stop beyond the
   * page limit, fetch; on success hand every resolvable image to the
   * downloader and recurse into the next page with `page + 1`.
   */
  function Crawl(lib: UrlLib, web: string -> Page, total: int, url: string, page: int, visited: set<string>): (t: Trace)
    ensures visited + {NormaliseUrl(lib, url)} <= t.visited
    decreases Budget(total, page)
  {
    var target := NormaliseUrl(lib, url);
    if target in visited then Trace([], [], visited)
    else if page > total then Trace([], [], visited + {target})
    else
      var seen := visited + {target};
      var fetched := web(target);
      if fetched.outcome != Ok then Trace([target], [], seen)
      else
        var found := ResolvedImages(ImageFinder(lib.join, target), fetched.images);
        match NextPage(lib, target, fetched)
        case Follow(next) =>
          var rest := Crawl(lib, web, total, next, page + 1, seen);
          Trace([target] + rest.fetched, found + rest.attempts, rest.visited)
        case _ => Trace([target], found, seen)
  }

  /** The trace `rest` preceded by what was fetched and attempted before it. */
  function Extend(fetched: seq<string>, attempts: seq<string>, rest: Trace): Trace {
    Trace(fetched + rest.fetched, attempts + rest.attempts, rest.visited)
  }

  /** The distinct elements of a sequence. */
  function Elements(s: seq<string>): set<string> {
    set x | x in s
  }

  /** The attempts every fetched page contributes, in fetch order: its resolvable images if it was fetched successfully, else none. */
  function AttemptsOf(lib: UrlLib, web: string -> Page, pages: seq<string>): seq<string> {
    if |pages| == 0 then []
    else
      var page := web(pages[0]);
      (if page.outcome == Ok then ResolvedImages(ImageFinder(lib.join, pages[0]), page.images) else [])
        + AttemptsOf(lib, web, pages[1..])
  }

  /**
   * No page URL is fetched twice, none that was visited before the session
   * began is fetched at all, and every fetched URL ends in the visited set.
   */
  lemma {:induction false} CrawlFetchesOnce(lib: UrlLib, web: string -> Page, total: int, url: string, page: int, visited: set<string>)
    ensures var t := Crawl(lib, web, total, url, page, visited);
      && visited <= t.visited
      && (forall i :: 0 <= i < |t.fetched| ==> t.fetched[i] in t.visited && t.fetched[i] !in visited)
      && (forall i, j :: 0 <= i < j < |t.fetched| ==> t.fetched[i] != t.fetched[j])
    decreases Budget(total, page)
  {
    var target := NormaliseUrl(lib, url);
    if target !in visited && page <= total && web(target).outcome == Ok {
      var seen := visited + {target};
      var next := NextPage(lib, target, web(target));
      if next.Follow? {
        CrawlFetchesOnce(lib, web, total, next.url, page + 1, seen);
        var rest := Crawl(lib, web, total, next.url, page + 1, seen);
        var t := Crawl(lib, web, total, url, page, visited);
        assert t.fetched == [target] + rest.fetched;
        forall i | 0 <= i < |t.fetched|
          ensures t.fetched[i] in t.visited && t.fetched[i] !in visited
          ensures i > 0 ==> t.fetched[i] != target
        {
          if i > 0 { assert t.fetched[i] == rest.fetched[i - 1]; }
        }
      }
    }
  }

  /** No page beyond the limit is fetched: at most `max(0, total - page + 1)` fetches. */
  lemma {:induction false} CrawlWithinPageLimit(lib: UrlLib, web: string -> Page, total: int, url: string, page: int, visited: set<string>)
    ensures |Crawl(lib, web, total, url, page, visited).fetched| <= Budget(total, page)
    ensures page > total ==> Crawl(lib, web, total, url, page, visited).fetched == []
    decreases Budget(total, page)
  {
    var target := NormaliseUrl(lib, url);
    if target !in visited && page <= total && web(target).outcome == Ok {
      var next := NextPage(lib, target, web(target));
      if next.Follow? {
        CrawlWithinPageLimit(lib, web, total, next.url, page + 1, visited + {target});
      }
    }
  }

  /** A download is attempted for exactly the resolvable images of every successfully fetched page, page by page. */
  lemma {:induction false} CrawlAttemptsEveryImage(lib: UrlLib, web: string -> Page, total: int, url: string, page: int, visited: set<string>)
    ensures var t := Crawl(lib, web, total, url, page, visited);
      t.attempts == AttemptsOf(lib, web, t.fetched)
    decreases Budget(total, page)
  {
    var target := NormaliseUrl(lib, url);
    if target !in visited && page <= total && web(target).outcome == Ok {
      var next := NextPage(lib, target, web(target));
      if next.Follow? {
        CrawlAttemptsEveryImage(lib, web, total, next.url, page + 1, visited + {target});
        var rest := Crawl(lib, web, total, next.url, page + 1, visited + {target});
        assert ([target] + rest.fetched)[1..] == rest.fetched;
      }
    }
  }

  /**
   * The visited set grows by the fetched URLs and by at most one more: the
   * URL that the page limit stopped, which is recorded before the limit is
   * checked. The start URL, normalised, is always recorded.
   */
  lemma {:induction false} CrawlVisitedSet(lib: UrlLib, web: string -> Page, total: int, url: string, page: int, visited: set<string>)
    ensures var t := Crawl(lib, web, total, url, page, visited);
      && NormaliseUrl(lib, url) in t.visited
      && visited + Elements(t.fetched) <= t.visited
      && |t.visited - (visited + Elements(t.fetched))| <= 1
    decreases Budget(total, page)
  {
    var target := NormaliseUrl(lib, url);
    var t := Crawl(lib, web, total, url, page, visited);
    CrawlUnfold(lib, web, total, url, page, visited);
    ElementsOfShort(t.fetched, target);
    if target !in visited && page <= total {
      var seen := visited + {target};
      var next := NextPage(lib, target, web(target));
      if web(target).outcome == Ok && next.Follow? {
        var rest := Crawl(lib, web, total, next.url, page + 1, seen);
        CrawlVisitedSet(lib, web, total, next.url, page + 1, seen);
        assert t.fetched == [target] + rest.fetched && t.visited == rest.visited;
        ElementsCons(target, rest.fetched);
        StepDifference(rest.visited, visited, target, Elements(rest.fetched));
      }
    }
  }

  lemma ElementsOfShort(s: seq<string>, x: string)
    ensures s == [] ==> Elements(s) == {}
    ensures s == [x] ==> Elements(s) == {x}
  {
  }

  lemma ElementsCons(x: string, s: seq<string>)
    ensures Elements([x] + s) == {x} + Elements(s)
  {
  }

  lemma StepDifference(v: set<string>, visited: set<string>, target: string, rest: set<string>)
    ensures v - (visited + ({target} + rest)) == v - ((visited + {target}) + rest)
  {
  }

  /** Every fetched URL is already normalised: it carries a `page` key and normalising it again changes nothing. */
  lemma {:induction false} CrawlFetchesNormalised(lib: UrlLib, web: string -> Page, total: int, url: string, page: int, visited: set<string>)
    requires Coherent(lib)
    ensures var t := Crawl(lib, web, total, url, page, visited);
      forall i :: 0 <= i < |t.fetched| ==> NormaliseUrl(lib, t.fetched[i]) == t.fetched[i]
    decreases Budget(total, page)
  {
    var target := NormaliseUrl(lib, url);
    var t := Crawl(lib, web, total, url, page, visited);
    CrawlUnfold(lib, web, total, url, page, visited);
    NormaliseUrlIdempotent(lib, url);
    if target !in visited && page <= total && web(target).outcome == Ok && NextPage(lib, target, web(target)).Follow? {
      var next := NextPage(lib, target, web(target));
      var rest := Crawl(lib, web, total, next.url, page + 1, visited + {target});
      CrawlFetchesNormalised(lib, web, total, next.url, page + 1, visited + {target});
      PrependNormalised(lib, target, rest.fetched, t.fetched);
    } else {
      assert t.fetched == [] || t.fetched == [target];
    }
  }

  lemma PrependNormalised(lib: UrlLib, target: string, rest: seq<string>, all: seq<string>)
    requires all == [target] + rest && NormaliseUrl(lib, target) == target
    requires forall i :: 0 <= i < |rest| ==> NormaliseUrl(lib, rest[i]) == rest[i]
    ensures forall i :: 0 <= i < |all| ==> NormaliseUrl(lib, all[i]) == all[i]
  {
    forall i | 0 < i < |all| ensures NormaliseUrl(lib, all[i]) == all[i] {
      assert all[i] == rest[i - 1];
    }
  }

  /**
   * One step of the walk, guard by guard: an already visited URL ends it
   * without any change; otherwise the URL is recorded even when the page
   * limit then stops the walk; a page whose request fails (404 or otherwise)
   * is fetched once and ends the walk with no image attempted; a fetched page
   * contributes its images and then the walk follows the next page, if any.
   */
  lemma CrawlUnfold(lib: UrlLib, web: string -> Page, total: int, url: string, page: int, visited: set<string>)
    ensures var target, t := NormaliseUrl(lib, url), Crawl(lib, web, total, url, page, visited);
      && (target in visited ==> t == Trace([], [], visited))
      && (target !in visited && page > total ==> t == Trace([], [], visited + {target}))
      && (target !in visited && page <= total && web(target).outcome != Ok ==>
            t == Trace([target], [], visited + {target}))
      && (target !in visited && page <= total && web(target).outcome == Ok ==>
            var found := ResolvedImages(ImageFinder(lib.join, target), web(target).images);
            match NextPage(lib, target, web(target))
            case Follow(next) => t == Extend([target], found, Crawl(lib, web, total, next, page + 1, visited + {target}))
            case _ => t == Trace([target], found, visited + {target}))
  {
  }

  lemma ExtendTwice(fetched: seq<string>, attempts: seq<string>, more: seq<string>, found: seq<string>, r: Trace)
    ensures Extend(fetched, attempts, Extend(more, found, r)) == Extend(fetched + more, attempts + found, r)
  {
    assert fetched + (more + r.fetched) == (fetched + more) + r.fetched;
    assert attempts + (found + r.attempts) == (attempts + found) + r.attempts;
  }

  lemma AppendNothing(fetched: seq<string>, attempts: seq<string>)
    ensures fetched + [] == fetched && attempts + [] == attempts
  {
  }

  /** imgscrape.py lines 131-134 as a loop: the image URLs of one page, handed to the downloader in tag order. */
  method CollectAttempts(join: (string, string) -> string, base: string, tags: seq<ImageUrl.Tag>) returns (urls: seq<string>)
    ensures urls == ResolvedImages(ImageFinder(join, base), tags)
  {
    urls := [];
    for i := 0 to |tags|
      invariant urls == ResolvedImages(ImageFinder(join, base), tags[..i])
    {
      var url := ImageUrl.ExtractImageUrl(join, base, tags[i]);
      if url.Some? && url.value != "" {
        urls := urls + [url.value];
      }
      assert tags[..i + 1][..i] == tags[..i];
    }
    assert tags[..|tags|] == tags;
  }

  /**
   * The walker as an explicit loop over the session state (current URL,
   * page counter, visited set): it does what the recursion does, and so
   * fetches each URL at most once, never beyond the page limit, and attempts
   * every resolvable image of every page it fetched.
   */
  method Scrape(lib: UrlLib, web: string -> Page, total: int, start: string, firstPage: int, visited0: set<string>)
    returns (t: Trace)
    ensures t == Crawl(lib, web, total, start, firstPage, visited0)
    ensures forall i, j :: 0 <= i < j < |t.fetched| ==> t.fetched[i] != t.fetched[j]
    ensures forall i :: 0 <= i < |t.fetched| ==> t.fetched[i] !in visited0
    ensures |t.fetched| <= Budget(total, firstPage)
    ensures t.attempts == AttemptsOf(lib, web, t.fetched)
  {
    var url, page, visited := start, firstPage, visited0;
    var fetched: seq<string>, attempts: seq<string> := [], [];
    var active := true;
    ghost var goal := Crawl(lib, web, total, start, firstPage, visited0);
    while active
      invariant active ==> goal == Extend(fetched, attempts, Crawl(lib, web, total, url, page, visited))
      invariant !active ==> goal == Trace(fetched, attempts, visited)
      decreases if active then Budget(total, page) + 1 else 0
    {
      CrawlUnfold(lib, web, total, url, page, visited);
      ghost var before := Crawl(lib, web, total, url, page, visited);
      var target := NormaliseUrl(lib, url);
      if target in visited {
        assert before == Trace([], [], visited);
        AppendNothing(fetched, attempts);
        active := false;
      } else {
        visited := visited + {target};
        if page > total {
          assert before == Trace([], [], visited);
          AppendNothing(fetched, attempts);
          active := false;
        } else {
          var fetchedPage := web(target);
          if fetchedPage.outcome != Ok {
            assert before == Trace([target], [], visited);
            AppendNothing(fetched + [target], attempts);
            fetched := fetched + [target];
            active := false;
          } else {
            var found := CollectAttempts(lib.join, target, fetchedPage.images);
            var next := NextPage(lib, target, fetchedPage);
            if next.Follow? {
              ghost var rest := Crawl(lib, web, total, next.url, page + 1, visited);
              assert before == Extend([target], found, rest);
              ExtendTwice(fetched, attempts, [target], found, rest);
              fetched, attempts := fetched + [target], attempts + found;
              url, page := next.url, page + 1;
            } else {
              assert before == Trace([target], found, visited);
              fetched, attempts := fetched + [target], attempts + found;
              active := false;
            }
          }
        }
      }
    }
    t := Trace(fetched, attempts, visited);
    CrawlFetchesOnce(lib, web, total, start, firstPage, visited0);
    CrawlWithinPageLimit(lib, web, total, start, firstPage, visited0);
    CrawlAttemptsEveryImage(lib, web, total, start, firstPage, visited0);
  }
}
