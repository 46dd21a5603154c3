# Web scraper crawl core, modelled in Dafny

The model covers the core of a small breadth-first web scraper (`main.py`):

- the five content extractors, which turn a parsed HTML page into a record of headings, paragraphs, list items, links and images;
- the naming and merge rules of `save_data`, which store each page's record under a page key inside a per-site JSON file;
- `scrape_page`, which fetches, extracts, saves and returns the page's links;
- `scrape_website`, a FIFO crawl from the first `num_urls` seeds with a visited set.

Modules, one per file, in dependency order:

- `Wrappers` (`wrappers.dfy`): `Option`.
- `Text` (`text.dfy`): Python's `str.strip()` and `str.strip('/')`, characterised by `IsTrimOf`, which says the longest removable prefix and suffix are both gone. Also a single-character `str.replace`.
- `Dom` (`dom.dfy`): the parsed tree.
  - `find_all(name)` is a filter over BeautifulSoup's `descendants` walk, which is pre-order and excludes the node itself.
  - Every string node carries the class the parser gave it (BeautifulSoup 4.10 and later):
    - ordinary text;
    - CDATA;
    - non-text markup such as comments;
    - text inside `script`, `style`, `template`, `rt` or `rp`.
  - `.text` joins, in document order, the strings below a node whose class the node's tag collects: its own class for those five tags, and ordinary text and CDATA for every other tag.
- `Extract` (`extract.dfy`): the extractors and the `Content` record. `extract_links` and `extract_images` are one loop, `AttrValues`, applied to (`a`, `href`) and to (`img`, `src`).
- `Keys` (`keys.dfy`): the page key and the site file name.
- `Store` (`store.dfy`): the JSON files as a map from file name to (page key to record), and the upsert done by `save_data`.
- `Crawl` (`crawl.dfy`): `scrape_page` and `scrape_website`.
  - The fetch-and-parse, `urlparse` and `urljoin` are given as functions in a `Web` value.
  - The crawl method also returns the order in which it scraped URLs.
  - Termination is argued with a ghost `universe`: any finite set of URLs the caller chooses. It must contain the seeds and the resolved links of each of its pages. It need not be the set actually reached.

## Model

| member | source | states |
|---|---|---|
| Text.Trim | main.py:70 | `str.strip(chars)`: the longest leading and the longest trailing run of dropped characters are removed, and nothing else |
| Text.ReplaceChar | main.py:73 | `str.replace` of one character by another: same length, each occurrence of the first becomes the second, every other character stays |
| Text.Strip | main.py:24 | the result is the text with the longest leading and trailing run of Python whitespace removed |
| Text.TrimUnique | main.py:70 | such a strip is unique, so `IsTrimOf` pins the result down completely |
| Dom.FindAll | main.py:23 | `find_all(t)` yields only elements tagged `t`, and exactly those among the descendants |
| Dom.FindAllCons | main.py:23 | `find_all` visits the first root, then everything below it, then the later siblings (pre-order document order) |
| Dom.FindAllAppend | main.py:35-36 | `find_all` over two forests in sequence is the concatenation of the two results |
| Dom.DescendantsAreWithin | main.py:23 | the descendants walk reaches exactly the nodes occurring somewhere in the tree |
| Dom.TextOf | main.py:24 | an element's `.text` equals the child-by-child reference reading. Strings of the classes its tag collects are kept and elements are read through. Script, style, template, ruby and comment strings are left out of ordinary tags. |
| Dom.JoinTextIsTextBelow | main.py:24 | joining the strings met by the descendants walk equals the child-by-child reading, for every forest and set of classes |
| Dom.TextSkipsScriptAndComments | main.py:24 | for `<h1>A<script>x</script><!--c--></h1>` as parsed, `.text` is `A`, while the script's own `.text` is `x` |
| Extract.ExtractHeadings | main.py:19-25 | one stripped text per heading element: as many entries as there are `h1`..`h6` elements in the page |
| Extract.HeadingsSortedByLevel | main.py:21-23 | headings come grouped by level: every `h1` before every `h2`, and so on up to `h6` |
| Extract.HeadingsKeepOrderWithinLevel | main.py:22-23 | within one level the headings keep document order, i.e. picking the `hN` out of the result gives `find_all('hN')` |
| Extract.HeadingsArePermutation | main.py:19-25 | the headings visited are a rearrangement of the page's heading elements in document order: none lost, none repeated |
| Extract.ExtractParagraphs | main.py:27-31 | one stripped text per `p` element, in document order |
| Extract.ExtractLists | main.py:33-38 | one stripped text per (`ul`, `li` below it) pair; a page without `ul` gives no items |
| Extract.ListItemsPerEnclosingList | main.py:35-36 | up to order, each `li` appears once per enclosing `ul`: nested lists repeat their items and items under `ol` only never appear |
| Extract.OrderedListItemsSkipped | main.py:35 | an `li` inside an `ol` only is not collected |
| Extract.TruthyAttrsMembers | main.py:43-45 | a value is kept iff it is non-empty and some node carries it |
| Extract.TruthyAttrsIndexed | main.py:42-45 | the `i`-th kept value is the value of the `i`-th node whose value is truthy, so node order and repeats are kept |
| Extract.TruthyAttrsKeepsAll | main.py:42-45 | when every node has a non-empty value, the values come out one per node, in node order |
| Extract.AttrValues | main.py:40-54 | for `extract_links` (`a`, `href`) and `extract_images` (`img`, `src`): the `i`-th value is the raw attribute of the `i`-th such element, in document order, whose attribute is non-empty; a value is present iff some such element carries it non-empty |
| Extract.AttrValuesInDocumentOrder | main.py:40-54 | the values follow document order: the first root's own value (if it is such an element with a non-empty value), then the values below it, then those of the later siblings |
| Extract.LinksSkipAbsentAndEmpty | main.py:43-45 | an `a` with no `href` or an empty `href` adds nothing; the kept value is not resolved |
| Keys.PageKey | main.py:69-70 | the key has no `/`; it is `home` when the path stripped of outer slashes is empty, else that stripped path with `/` turned into `_` |
| Keys.PageKeyIgnoresOuterSlashes | main.py:70 | `/p`, `p/` and `p` have the same key |
| Keys.PageKeyExamples | main.py:70 | `/a/b/` gives `a_b`; the empty path and `/` give `home` |
| Keys.PageKeySlashUnderscoreCollision | main.py:70 | `/a/b` and `/a_b` collide on key `a_b` |
| Keys.PageKeyHomeCollision | main.py:70 | `/home` collides with the site root on key `home` |
| Keys.SiteFileName | main.py:73-74 | the netloc with each `.` turned into `_` (a port is kept), then `.json`; the only `.` is the one before `json` |
| Store.Upsert | main.py:82-92 | the file gains the page entry; a new file holds only that entry, an existing one keeps its other entries; other files are untouched |
| Store.Save | main.py:67-92 | `save_data` stores the record under the URL's page key in the site's file and changes nothing else |
| Store.SaveLastWins | main.py:86 | saving twice to the same file and key keeps only the second record (overwrite, not append) |
| Store.SaveIdempotent | main.py:86 | saving the same record again changes nothing |
| Store.SaveDistinctCommute | main.py:82-92 | saves to different keys or files commute, and both records are present afterwards |
| Crawl.ScrapePage | main.py:96-104 | a failed fetch writes nothing and returns `None`; otherwise the record is saved and the returned links are that record's `Links` |
| Crawl.NewUrls | main.py:115-119 | the appended URLs are the resolved links not in the visited set, each for some link of the page |
| Crawl.NewUrlsIndexed | main.py:116-119 | the appended URLs are exactly the resolved links, taken link by link in order, with the visited ones filtered out; repeats are kept |
| Crawl.NewUrlsAppend | main.py:116-119 | links are handled one after the other: two runs of links append the first run's URLs and then the second's |
| Crawl.NewUrlsSingle | main.py:117-119 | one link appends its resolved URL exactly when that URL is not visited |
| Crawl.NewUrlsKeepsRepeats | main.py:118-119 | a link found twice on a page is appended twice, because only `visited` is checked |
| Crawl.Dedup | main.py:110-112 | the dequeued URLs, each at its first occurrence, have no repeats and the same members |
| Crawl.DedupPrefix | main.py:108-112 | what has been scraped stays a prefix of the scrape order as more URLs are queued |
| Crawl.AppendedAreResolvedLinks | main.py:115-119 | everything the crawl appends is the resolution of a link of some scraped page |
| Crawl.ScrapeAllStoresFetched | main.py:103 | after scraping a trail of URLs, every URL in it whose fetch succeeded has its entry in the files |
| Crawl.SeedCount | main.py:108 | `urls[:num_urls]` keeps `min(num_urls, len(urls))` seeds |
| Crawl.CrawlFrontier | main.py:109-121 | the loop ends and dequeues first in first out. The scraped order is the first occurrences in the queue: the seeds, then each scraped page's appended URLs in scrape order. Each URL was enqueued before it was scraped. Each URL is scraped at most once and every seed is scraped. The visited set is the scraped URLs, lies in `universe` and is closed under resolved links. The files are those of scraping in that order. |
| Crawl.ScrapedAreReached | main.py:108-119 | each scraped URL is a seed or the resolution of a link of a page scraped before it |
| Crawl.ScrapeWebsite | main.py:106-121 | the crawl from `urls[:num_urls]` has the loop's guarantees. Every scraped URL is a seed or a resolved link of an earlier scraped page. Every visited page that fetched has its entry in the files. |

## Left out

- The tkinter window and `start_scraping` (`main.py:125-178`) are not modelled. Its check that `num_to_scrape` does not exceed the URL count is not needed: the slice clamps.
- Network access in `fetch_webpage` (`main.py:10-17`) and the HTML parse are not modelled. They form one given function from URL to an optional parsed tree, with `None` for any request error or HTTP error status. The error message printed is not modelled.
- BeautifulSoup's parser (tag-name lowercasing, error recovery, entity decoding) is not modelled. The model starts from the parsed tree. The predicate `Dom.KindsAsParsed` states how the parser gives strings their class, but the fetch function is not required to satisfy it.
- `urlparse` and `urljoin` are given total functions. Only the `netloc` and `path` of a parsed URL are kept. The `ValueError` they raise on a malformed host, such as `//[x` with an unbalanced bracket, is not modelled.
- JSON serialisation, `indent=4`, `os.path.exists` and the file reads and writes are not modelled. The directory of files is a map from file name to object. A corrupt existing file makes `json.load` raise, and that case is not modelled.
- The files are written to the working directory under `<netloc>.json`, and no destination directory is created. The model follows this.
- `extract_content` (`main.py:56-63`) is modelled by `Extract.ExtractContent`, which only puts the five results into one record. The extractors' own contracts carry its meaning, so it has no row.
- `time.sleep(1)` and the progress prints are not modelled.
- Crawl.CrawlFrontier: an exception aborts the source's crawl and leaves the rest of the queue unscraped. It can come from `urljoin` (`main.py:117`) on a link such as `//[x`, or from the file access in `save_data` (`main.py:82-92`). The total `join` and `Save` cannot fail, so the model's loop always runs to an empty queue. Its guarantees describe only runs in which no such exception is raised.
- Crawl.ScrapeWebsite: the same holds. An exception raised while scraping one seed's page means the source never reaches the later seeds, whereas the model promises every seed is scraped.
- Crawl.ScrapeWebsite: termination is proved only when some finite `universe` contains the seeds and is closed under resolved links. With an unbounded link graph the source does not terminate either.
- Crawl.ScrapeWebsite: `num_urls` is a `nat`. A negative `num_urls` would make Python drop seeds from the end, and the interface never passes one.
- Keys.SiteFileName: no concrete literal example lemma is included. The character-level contract states the mapping in full.
- Extract.ExtractHeadings: the contract describes the entries by count and by strip; no concrete whole-page example is included.
