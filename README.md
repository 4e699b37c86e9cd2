# imgscrape decision logic in Dafny

This project models the decision logic of `imgscrape.py`, a command-line image scraper. The scraper walks a paginated web site, collects the `<img>` tags of each page's `div.article-fulltext` and downloads every image it can resolve. There are four parts:

- **`ImageUrl`** (`image_url.dfy`) models `extract_image_url`. It picks the first non-empty one of `data-src`, `data-original` and `src`. Failing those, it takes the first candidate of `srcset`: text before the first `,`, stripped, then text before the first space. The chosen reference is resolved against the page URL with `urljoin`, which is a parameter here.
- **`Download`** (`download.dfy`) models the decisions of `download_image`:
  - the file name is the last `/`-segment of the URL with the query removed;
  - failing that, it is `image_<micros><ext>`, with the extension guessed from `Content-Type`;
  - the name is joined to the session folder as POSIX `os.path.join` does;
  - an image is saved only on a 200 answer whose file could be opened and written.
- **`PageQuery`** (`page_query.dfy`) holds the query dictionary that `parse_qs` produces. It has two operations: `page=1` normalisation and the automatic page increment. These use Python's `int()` and `str()`, which are modelled in **`Numbers`** (`numbers.dfy`). The string helpers `strip`, `split(c)[0]` and `basename` are modelled in **`Text`** (`text.dfy`). Stripping takes the set of characters it removes as a parameter: `str.strip()` removes every character `str.isspace()` accepts (`Text.IsSpace`), while `int()` skips only `Numbers.IsIntSpace`, the same set without the ASCII separators U+001C..U+001F.
- **`Crawler`** (`crawler.dfy`) models the pagination walker of `scrape_images`:
  - `Crawl` is the source's recursion, written as a function;
  - `Scrape` is a `while` loop over the session state (current URL, page counter, visited set), proved equal to `Crawl`;
  - it covers the visited check, the page limit, the fetch outcome, the image loop, and the next-page choice (`rel="next"`, then the "下一页" link, then the page increment).

Each fetched page is an abstract record: the request's outcome, the attribute maps of its image tags, and the `href`s of the two kinds of link. The `web` parameter maps a URL to that record. `urljoin`, `urlparse` + `parse_qs` and `urlencode` + `urlunparse` are the three function fields of `Crawler.UrlLib`. They are left uninterpreted, except for lemmas that assume `Crawler.Coherent`. That predicate states two things: every parsed query is well formed (unique keys, non-empty value lists, no blank values); and every `Parsed(rest, query)` with a well-formed query, written out, parses back to the very same record, its `rest` (scheme, authority, path, parameters and fragment) included.

The code's behaviour is followed in these places:

- **The increment.** `query['page'] = str(n + 1)` assigns a string, and `urlencode(..., doseq=True)` encodes a string whole. So the increment replaces the whole value list of `page` with the single new value, not only its first entry.
- **Visiting.** The walker records a URL as visited before it checks the page limit.
- **An empty `srcset` token.** A `srcset` whose first token is empty resolves to `urljoin(base, "")`, which is the page URL itself. The model resolves it that way too.

## Model

| member | source | states |
|---|---|---|
| Text.TrimLeft | imgscrape.py:85 | the result is a suffix of the input; everything dropped is whitespace; the result does not begin with whitespace |
| Text.TrimRight | imgscrape.py:85 | the result is a prefix of the input; everything dropped is whitespace; the result does not end with whitespace |
| Text.Strip | imgscrape.py:85 | `strip()`: the result is no longer than the input and neither begins nor ends with whitespace |
| Text.StripKeepsText | imgscrape.py:85 | every character of the input that is not whitespace survives stripping |
| Text.StripClean | imgscrape.py:85 | a non-empty word without whitespace at either end is left unchanged |
| Text.StripPadded | imgscrape.py:85 | whitespace around such a word is exactly what stripping removes |
| Text.TrimLeftSkipsSpace | imgscrape.py:85 | leading whitespace before a non-space is removed exactly |
| Text.TrimRightStopsAt | imgscrape.py:85 | right-stripping `a + b`, where `a` ends in a non-space, strips only `b` |
| Text.TakeBefore | imgscrape.py:85-86 | `split(c)[0]`: a prefix of the input without `c`, followed in the input by `c` whenever it is shorter than the input |
| Text.AfterLast | imgscrape.py:46 | `basename`: a suffix of the input without `c`, preceded in the input by `c` whenever it is shorter than the input |
| Text.TakeBeforeAt | imgscrape.py:85-86 | the first piece of `a + b`, when `b` starts with the separator and `a` lacks it, is `a` |
| Text.AfterLastAt | imgscrape.py:46 | the basename of `a + "/" + b`, for a `/`-free `b`, is `b` |
| Numbers.NatToDigits | imgscrape.py:158 | `str(n)` for `n >= 0`: non-empty, all digits, denotes `n`, no leading zero |
| Numbers.IntToString | imgscrape.py:158 | `str(n)`: a leading `-` exactly when `n` is negative, then digits only |
| Numbers.DropUnderscores | imgscrape.py:157 | the result has no underscore, is no longer than the input, and is the input itself when that has none |
| Numbers.DropUnderscoresConcat | imgscrape.py:157 | removing underscores works piece by piece: `a + b` loses those of `a` and those of `b` |
| Numbers.DropUnderscoresAt | imgscrape.py:157 | an underscore between two parts is removed and the parts are kept in order |
| Numbers.DropUnderscoresDigits | imgscrape.py:157 | a string of digits and underscores becomes all digits |
| Numbers.GroupJoin | imgscrape.py:157 | two runs of digits joined by one underscore form a digit group whose value is that of the digits read together (`int("1_000") == 1000`) |
| Numbers.ParseIntUnsigned | imgscrape.py:157 | `int()` of a digit group between any `int()` whitespace is the group's value |
| Numbers.ParseIntSigned | imgscrape.py:157 | `int()` of `+` or `-` and a digit group between any `int()` whitespace is the value, negated for `-` |
| Numbers.ParseIntShape | imgscrape.py:157 | the converse: `int(s)` succeeds exactly when `s`, minus leading and trailing `int()` whitespace, is a digit group with at most one leading sign; so `"1__0"`, `"_1"`, `"+"`, `"--1"` and blank strings raise |
| Numbers.ParseIntAlphabet | imgscrape.py:157 | a string holding any character other than `int()` whitespace, a digit, `_`, `+` or `-` raises |
| Numbers.SeparatorIsNotIntSpace | imgscrape.py:157 | `int("\x1c5")` raises: U+001C is not skipped by `int()` |
| Numbers.IntToStringRoundTrip | imgscrape.py:157-158 | `int(str(n)) == n` for every integer `n`, negative ones included |
| PageQuery.Lookup | imgscrape.py:100 | `query.get(k)` is absent exactly when `k` is not a key, else the values of an entry with that key |
| PageQuery.PageNumber | imgscrape.py:157 | a page number is found only when `page` is a key with at least one value |
| PageQuery.LookupAppend | imgscrape.py:101 | appending an entry changes only the lookup of a key that was absent |
| PageQuery.Normalise | imgscrape.py:100-101 | a query with `page` is returned unchanged; otherwise `page` is appended after the existing keys |
| PageQuery.NormaliseLookup | imgscrape.py:100-101 | after normalisation `page` is the single value `1` if it was absent and keeps its values otherwise; every other key's lookup is unchanged |
| PageQuery.NormaliseWellFormed | imgscrape.py:99-102 | normalisation keeps the query `parse_qs`-shaped (unique keys, non-empty value lists, no blank values) |
| PageQuery.NormaliseIdempotent | imgscrape.py:100-101 | normalising twice equals normalising once, and the result always has `page` |
| PageQuery.SetValues | imgscrape.py:158 | dictionary assignment to an existing key: same keys, each entry of that key replaced in place, the others kept |
| PageQuery.SetValuesLookup | imgscrape.py:158 | after the assignment only the lookup of the assigned key changes, to exactly the new values |
| PageQuery.SetValuesWellFormed | imgscrape.py:158 | assigning a non-empty list without blanks keeps the query well formed |
| PageQuery.IncrementPage | imgscrape.py:156-158 | no `page` key is reported exactly when the key is absent; a bad page value exactly when `int(query['page'][0])` raises; the increment keeps the keys |
| PageQuery.IncrementPageLookup | imgscrape.py:157-158 | the incremented query's `page` is the single value `str(n + 1)`; every other key's lookup is unchanged |
| PageQuery.IncrementKeepsOthers | imgscrape.py:158 | the increment leaves the values of every key but `page` unchanged |
| PageQuery.IncrementPageWellFormed | imgscrape.py:155-159 | the increment keeps the query well formed |
| PageQuery.IncrementAdvances | imgscrape.py:157-158 | whenever the page number parses as `n`, the increment succeeds and the new query's page number parses as `n + 1` |
| ImageUrl.FirstValue | imgscrape.py:76-80 | nothing is found exactly when no listed attribute has a non-empty value; else the value of the first one that does, all earlier ones being empty or missing |
| ImageUrl.SrcsetFirstUrl | imgscrape.py:85-86 | the first `srcset` token contains neither `,` nor a space |
| ImageUrl.ExtractImageUrl | imgscrape.py:74-89 | no URL exactly when none of `data-src`, `data-original`, `src` and `srcset` has a non-empty value |
| ImageUrl.ExtractImageUrlPriority | imgscrape.py:74-89 | the five cases in order: non-empty `data-src`, else `data-original`, else `src`, else the first `srcset` token of a non-empty `srcset`, else no URL |
| ImageUrl.LaterAttributesIgnored | imgscrape.py:76-80 | two tags agreeing on the attributes up to the first non-empty one resolve alike, whatever their later attributes and `srcset` |
| ImageUrl.SrcsetFirstCandidate | imgscrape.py:83-86 | a `srcset` of optional whitespace, a URL, an optional descriptor and further candidates yields exactly that URL |
| ImageUrl.StripCandidate | imgscrape.py:85 | stripping a candidate removes its leading whitespace and its descriptor's trailing whitespace |
| ImageUrl.SrcsetExampleFirst | imgscrape.py:85-86 | `"a.jpg 1x, b.jpg 2x"` yields `a.jpg` |
| ImageUrl.SrcsetExample | imgscrape.py:83-87 | a tag with only that `srcset` resolves to `urljoin(base, "a.jpg")` |
| Download.UrlFileName | imgscrape.py:46 | the derived name has no `?` and no `/`, and is the suffix after the last `/` of the URL's part before the first `?` |
| Download.UrlFileNameOf | imgscrape.py:46 | the URL `dir + "/" + name + query` yields exactly `name` |
| Download.ExtensionFor | imgscrape.py:49-57 | the extension is `.jpg`, `.png` or `.webp`; `.png` exactly for `image/png`, `.webp` exactly for `image/webp`, `.jpg` for every other or missing type |
| Download.FileName | imgscrape.py:46-58 | the name is never empty; a non-empty derived name is used unchanged, otherwise `image_` + micros + extension |
| Download.FileNameHasNoSlash | imgscrape.py:46-58 | the chosen name contains no `/` when the clock field has none |
| Download.JoinPath | imgscrape.py:60 | POSIX `os.path.join`: an absolute name replaces the folder; the path always ends with the name, and for a relative name starts with the folder |
| Download.JoinPathInFolder | imgscrape.py:60 | joining a `/`-free name to the folder yields the folder followed by exactly `"/" + name` (just `name` when the folder is empty or ends in `/`), so its basename is the name |
| Download.DownloadImage | imgscrape.py:43-72 | an image is saved when and only when the answer is 200 and opening and writing the file succeed, under the folder joined with the chosen file name; on other statuses, a failed open or body, and network errors it returns `False` |
| Download.SavedInFolder | imgscrape.py:60 | a saved image's path is the session folder followed by exactly `"/" + name` (just `name` after an empty folder or one ending in `/`), with `name` the chosen `/`-free file name: it lies directly inside that folder |
| Crawler.NormaliseUrlKeepsPaged | imgscrape.py:98-102 | a URL whose query already has `page` is used verbatim, not written out again |
| Crawler.NormaliseUrlIdempotent | imgscrape.py:97-102 | the normalised URL has a `page` key, and normalising it again returns it unchanged |
| Crawler.NormaliseUrlAddsFirstPage | imgscrape.py:98-102 | a URL without `page` gains exactly `page=1` after its old keys; its other components and other keys' values are kept |
| Crawler.NextPage | imgscrape.py:145-160 | the walk ends for want of a next page exactly when the page has no link and the URL's query no `page` key; a bad page number can stop it only when there is no link |
| Crawler.NextPagePriority | imgscrape.py:145-160 | a `rel="next"` link wins; otherwise the "下一页" link; otherwise the query decides, ending the walk exactly when `page` is missing, or exactly when it is present but not a number |
| Crawler.IncrementedUrlParses | imgscrape.py:153-159 | without links and with a numeric page, the generated next URL parses back to the current URL's parts with the incremented query |
| Crawler.NextPageIncrements | imgscrape.py:153-160 | without links, the next URL has the same components and keys, other keys' values kept, and page number `n + 1` |
| Crawler.ResolvedImages | imgscrape.py:131-134 | no more attempts than tags, and never one for an empty URL |
| Crawler.ResolvedImagesOne | imgscrape.py:131-134 | a single tag contributes exactly its own URL when it resolves to a non-empty one, and nothing otherwise |
| Crawler.ResolvedImagesConcat | imgscrape.py:131-139 | the attempts of two runs of tags are those of the first followed by those of the second, so each tag contributes its own attempt in tag order, repeated URLs attempted again |
| Crawler.ResolvedImagesMembers | imgscrape.py:131-134 | a URL is attempted exactly when some tag on the page resolves to it and it is non-empty |
| Crawler.ResolvedImagesSkipsBareTag | imgscrape.py:133-134 | a tag with none of `data-src`, `data-original`, `src`, `srcset` yields nothing, so no attempt |
| Crawler.Crawl | imgscrape.py:92-168 | the walk never forgets a visited URL and always records the normalised start URL as visited |
| Crawler.CrawlUnfold | imgscrape.py:104-160 | one step, guard by guard: a visited URL changes nothing; otherwise it is recorded even when the limit stops; a failed request is fetched once with no attempt; a fetched page contributes its images and is followed by its next page |
| Crawler.CrawlFetchesOnce | imgscrape.py:104-106 | no URL is fetched twice in a session, none visited before it began is fetched, every fetched URL ends in the visited set, and the set only grows |
| Crawler.CrawlWithinPageLimit | imgscrape.py:107-109 | at most `total - page + 1` pages are fetched (none when `page > total`), so from page 1 at most `max(0, total)` |
| Crawler.CrawlAttemptsEveryImage | imgscrape.py:131-142 | the attempts are exactly the resolvable images of every successfully fetched page, in fetch order |
| Crawler.CrawlVisitedSet | imgscrape.py:104-109 | the normalised start URL always ends up visited; the final visited set holds the old set and every fetched URL, plus at most one more (the URL the limit stopped) |
| Crawler.CrawlFetchesNormalised | imgscrape.py:97-106 | every fetched URL is in normal form: normalising it again changes nothing |
| Crawler.CollectAttempts | imgscrape.py:131-142 | the loop over the image tags hands over exactly the resolved, non-empty URLs in tag order |
| Crawler.Scrape | imgscrape.py:92-168 | the loop performs the walk `Crawl` defines; no URL is fetched twice or fetched if visited before, no more pages than the budget, and every resolvable image of every fetched page is attempted |

## Left out

- HTTP requests, headers, timeouts and `raise_for_status`: a fetch is given by the `web` parameter, which yields the page's outcome (ok, 404, other failure).
- HTML parsing with BeautifulSoup: a page is given as its image tags' attribute maps and the `href`s of its two kinds of next link (the second is the first anchor whose `.string`, not its whole text, contains "下一页"). An anchor without `href` is given as `""`, which `urljoin` maps to the page URL just as it does `None`.
- The image-size probe `get_image_dimensions`: its result only feeds a log line, and width filtering is disabled in the source. `min_width` is therefore unused.
- Creating the folders and writing the file in 1024-byte chunks: filesystem I/O. The folder is a parameter of `Download.DownloadImage`.
- Download.DownloadImage: whether `open(path, "wb")` and streaming the body with `iter_content` succeed is the parameter `stored`; the reasons they fail (a name such as `..` that denotes a directory, a missing folder, a broken connection mid-body) are not modelled, and neither is the file system: a body that breaks mid-stream leaves the truncated, partly written file on disk although the result is `False`.
- Download.JoinPath and Text.AfterLast: the POSIX reading of `os.path.join` and `os.path.basename`. On Windows, `ntpath` also splits at `\` and treats drive letters, which the model does not capture.
- `datetime.now()`: the `%f` field of the clock is the parameter `micros`, and the session folder's timestamp is part of the given folder.
- The internals of `urljoin`, `urlparse`, `parse_qs`, `urlencode` and `urlunparse`: they are uninterpreted fields of `Crawler.UrlLib`, and percent-encoding is not modelled.
- Crawler.Coherent: an idealisation of the URL library. Python's `urlunparse` does not round-trip every `rest`; for example, the empty authority of `http:////x` is lost, and the URL comes back as `http://x?page=1`, whose authority is `x`. The lemmas assuming `Coherent` (`NormaliseUrlIdempotent`, `NormaliseUrlAddsFirstPage`, `RoundTrip`, `IncrementedUrlParses`, `NextPageIncrements`, `CrawlFetchesNormalised`) do not cover such URLs.
- Numbers.ParseInt: does not accept non-ASCII Unicode decimal digits, which Python's `int()` also accepts.
- Numbers.ParseInt and Numbers.IntToString: Python's limit on integer string conversion (a `ValueError` for more than 4300 digits) is not modelled; integers are unbounded.
- Crawler.Crawl: does not model an exception raised in the middle of a page's image loop (for example a `ValueError` from `urljoin` on a malformed reference). Such an exception would end the walk after only part of the page's images; the model treats the failures of a page as its `outcome`.
- Crawler.NextPage and Crawler.Crawl: `join` and `parse` always succeed. In the source, a `ValueError` from `urljoin` on a malformed next link (such as `http://[x`, imgscrape.py line 150) or from `urlparse` at line 154 ends the walk after the page's images were attempted, while the model follows the joined URL. The `urlparse` at line 98 lies outside the `try`: for the start URL its error is not caught and the program stops with a traceback before any fetch; for a later page it propagates to the previous page's handler at line 167, which ends the walk.
- Crawler.Crawl and Crawler.Scrape: Python's recursion limit (about 1000 frames) is not modelled. In the source, a `RecursionError` caught at imgscrape.py line 167 stops a walk over very many pages early; the model has no such bound.
- Crawler.Scrape: the outcome of each download does not feed back into the walk, so the trace records the attempts that are handed to the downloader, not the files written; `Download.DownloadImage` states what one attempt saves.
- Crawler.Scrape: the session state is kept in the method's local variables (URL, page counter, visited set, traces) rather than in a mutable shared `set` object; nothing else in the program aliases that set.
- The command-line interface (`argparse`) and all `print` logging.
