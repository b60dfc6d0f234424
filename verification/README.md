# Bulk Bing image downloader: a Dafny model of `bbid.py`

This project models the core of `bbid.py`, a script that downloads the images
Bing returns for a keyword. Four parts are modelled:

- **Filename derivation and reservation** (`Paths`, `Names`). The URL path is
  taken from `urllib.parse.urlsplit`. Its basename is cut at `?` and split
  with `os.path.splitext`. The stem is truncated to 36 characters. The
  smallest suffix index whose name is neither on disk nor in the shared list
  is reserved.
- **One `download` call** (`Worker`). It is an atomic step on the module-level
  state: the shared list, `IMAGE_MD5s`, the directory entries, and a permit
  counter for the pool semaphore. Line 30 binds `IN_PROGRESS` and
  `TRIED_URLs` to the same list. So the model keeps one sequence that holds
  both reserved filenames and successful URLs. The network, `imghdr.what` and
  `hashlib.md5` are inputs: an `Attempt` says how the fetch and the file write
  turn out, and an `Env` holds the two library functions.
- **Series of calls and the first-success loop** (`Drivers`). Calls run one
  after another in a given order. `fetch_random_image_from_keyword` stops at
  the first call that returns error 0.
- **The paging driver** (`Paging`). `fetch_images_from_keyword` is a pure
  function over the sequence of search responses. It yields the offset of
  each request, the links launched from each response, and why it stopped.

Two facts about the code shape the model:

- The `try` of `download` starts at bbid.py:60, after the reservation. The
  semaphore permit is taken at bbid.py:47 and `urlsplit` runs at bbid.py:48,
  so a `ValueError` from `urlsplit` leaves `download` before the `finally`
  at bbid.py:82-84 can release the permit. The model returns that exception
  with one more permit held and nothing else changed.
- Nothing in bbid.py locks the shared list or `IMAGE_MD5s`: the check and
  append of bbid.py:45-58 and the check and store of bbid.py:67-72 are not
  guarded. The model runs each call as one atomic step in launch order and
  does not model the interleavings threads allow.

## Model

| member | source | states |
|---|---|---|
| Paths.Before | bbid.py:49 | `str.split('?')[0]`: the result is a prefix of the input, contains no `?`, and is followed by `?` whenever it is shorter than the input |
| Paths.NetlocEnd | bbid.py:48 | the network location of `urlsplit` runs from after `//` up to the first `/`, `?` or `#`; without `//` after the scheme it is empty |
| Paths.Netloc | bbid.py:48 | the `netloc` field holds no `/`, `?` or `#`; with `//` after the scheme the URL continues there with `//`, the netloc, then the end or one of `/?#`; without `//` it is empty |
| Paths.UrlPath | bbid.py:48 | `urlsplit` raises `ValueError` exactly when the network location holds an unmatched bracket or NFKC normalization adds one of `/?#@:` to a non-ASCII one; otherwise the path starts where the network location ends and runs up to the first `?` or `#`; an ASCII URL without brackets never raises |
| Paths.PathAtUnique | bbid.py:48 | only one string free of `?` and `#` can sit at a given place in the URL followed by the end, a query or a fragment, so the path `UrlPath` returns is determined |
| Paths.BaseName | bbid.py:49 | `posixpath.basename`: the result has no `/`, is a suffix of the path, and is preceded by `/` whenever it is shorter than the path |
| Paths.Join | bbid.py:74 | `os.path.join(dir, name)` is the name when the name is absolute; otherwise it is the directory, a `/` unless the directory is empty or already ends in one, then the name |
| Paths.SplitExt | bbid.py:50 | `os.path.splitext`: stem and extension concatenate to the name; a non-empty extension starts with the only `.` it contains and has no `/` |
| Paths.SplitExtCharacterized | bbid.py:50 | the extension is non-empty exactly when some `.` follows a non-dot character of the last component, and then it is the text from the last `.` |
| Names.FileName | bbid.py:49 | the file name is the path's basename up to its first `?`: a prefix of the basename holding neither `/` nor `?`, followed by `?` whenever it is shorter than the basename |
| Names.Truncate | bbid.py:51 | `name[:36]` is a prefix of the name of length at most 36, the whole name when it is shorter |
| Names.SplitTruncated | bbid.py:50-52 | splitting a file name and cutting its stem keeps the extension from the last dot and a prefix of the stem of exactly `min(36, stem length)` characters |
| Names.DesiredName | bbid.py:48-52 | the desired stem is the first `min(36, n)` characters of the file name's stem; the extension is empty exactly when the file name has none and is otherwise the text from its last dot; a name whose stem fits is kept whole |
| Names.Decimal | bbid.py:57 | the `%d` text of an index is a non-empty string of decimal digits with no leading zero unless it is `0` itself |
| Names.DecimalRoundTrip | bbid.py:57 | the `%d` rendering of an index parses back to the index |
| Names.CandidateInjective | bbid.py:54-57 | distinct suffix indices give distinct candidate names, so the search always ends |
| Names.OnDisk | bbid.py:55 | `os.path.exists(os.path.join(output_dir, filename))` in an existing directory: the name is one of its entries, `.` or `..`, or empty (which joins to the directory itself) when the directory name is not empty |
| Names.FirstFree | bbid.py:54-57 | the `while` loop ends at the first index from which the candidate is neither on disk nor in the shared list; every earlier candidate is taken |
| Names.Reserve | bbid.py:54-58 | the reserved name is the candidate with the smallest free index, and is neither on disk nor in the shared list before the append |
| Names.ReserveIsSmallestFree | bbid.py:54-58 | any index whose candidate is free while all earlier ones are taken is the index reserved |
| Names.ReserveAliasExample | bbid.py:30 | the collision test reads the one list both names bind: while a call in flight holds `a.jpg` reserved, the next `a.jpg` becomes `a-1.jpg` |
| Worker.RemoveFirst | bbid.py:83 | `list.remove` drops exactly the first occurrence of the element and keeps the rest in order |
| Worker.RemoveAppended | bbid.py:58-83 | removing a name that was appended to a list that did not hold it gives back the list plus whatever was appended after it |
| Worker.NameFor | bbid.py:48-57 | the name reserved for a URL path is neither on disk nor in the shared list |
| Worker.Finish | bbid.py:82-84 | after the `finally` the list is the initial list plus what the call appended after the reserved name, and the permit count is back where it started |
| Worker.Attend | bbid.py:59-85 | after reservation every path returns a pair, releases the permit, and changes the list, hash map and directory only as the frame allows |
| Worker.Download | bbid.py:44-85 | the call returns `None` exactly when the URL is in the shared list; a raised exception is `ValueError` and leaves one more permit held with nothing else changed; otherwise the permit count is unchanged and the frame holds |
| Worker.AlreadyTriedIsNoOp | bbid.py:45-46 | a URL in the shared list leaves the whole state unchanged and returns `None`, and only such a URL does |
| Worker.UrlErrorKeepsPermit | bbid.py:47-48 | the call raises exactly when the URL is new and `urlsplit` rejects it, for an unmatched bracket or an NFKC rejection; a raising call returns `ValueError` with one more permit held and nothing else changed |
| Worker.ReservedNameIsFresh | bbid.py:54-58 | a call that gets past reservation reports the name reserved for its URL, which was neither on disk nor in the shared list |
| Worker.ReturnCodes | bbid.py:65-85 | `(-1, 0)` exactly for an invalid image; `(-1, '')` exactly for a duplicate; `(0, path)` on success; `(0, '')` after a fetch exception; `(0, path)` after a write exception |
| Worker.HashClaims | bbid.py:63-72 | invalid and duplicate images leave `IMAGE_MD5s` unchanged, and a duplicate reports the owner; the map changes exactly when a new image hash is claimed, even if the write then fails |
| Worker.WritesOnlyAfterClaim | bbid.py:72-79 | a file appears only after its hash was claimed for it; the image counts as saved exactly when it was new, valid and fully written |
| Worker.DownloadKeepsContract | bbid.py:44-85 | every call keeps the contract later calls rely on: list, claimed hashes, permits, exceptions, and what the pair carries |
| Drivers.DownloadsKeep | bbid.py:44-85 | `download` as a step function keeps that contract on every state |
| Drivers.RunInOrder | bbid.py:101-106 | a series of calls yields one result and one report per call |
| Drivers.RunKeepsOnlySavedUrls | bbid.py:58-84 | after any series of calls the shared list is the initial list followed by the saved URLs, in order: no reserved name is left behind |
| Drivers.SavedHashWasUnclaimed | bbid.py:67-72 | a call in a series that saves its image found the hash unclaimed at the start of the series |
| Drivers.NoTwoSavesShareHash | bbid.py:67-72 | two saves in one series never share an image hash |
| Drivers.PickIsFirstStop | bbid.py:129-133 | the loop answers with the result of the first stopping call, or `None` when no call stops it, and ends in the state after exactly the calls up to that one |
| Drivers.PickFacts | bbid.py:129-133 | a returned path is a string; one more permit is held exactly when the loop ends in `ValueError`; when tried links are skipped it never ends in `TypeError` |
| Drivers.FirstSuccess | bbid.py:129-133 | as written, a returned path is a string, and one more permit is held exactly when the loop ends in `ValueError` |
| Drivers.FirstSuccessIntended | bbid.py:129-133 | the corrected loop never raises `TypeError`, and has the same path and permit facts |
| Drivers.FirstSuccessRaisesOnTriedLink | bbid.py:129-133 | one link that is already in the shared list makes the written loop raise `TypeError`; the corrected loop returns `None` |
| Paging.LaunchLoop | bbid.py:101-106 | the loop over one page launches a prefix of its links, and stops early only because of a given limit |
| Paging.LaunchLoopCountsTwice | bbid.py:101-106 | as written, the link at position `i` is launched only if `start + 2*i < limit`, and the loop stops at the first position where that fails |
| Paging.LaunchLoopIntended | bbid.py:101-106 | the corrected loop launches `min(links, limit - start)` links |
| Paging.IntendedBatch | bbid.py:101-106 | from the start of a page the corrected loop launches as many links as the page has, or as the limit leaves room for if that is fewer |
| Paging.UnlimitedLaunchesAll | bbid.py:102 | without a limit every link of the page is launched |
| Paging.PageEnd | bbid.py:95-106 | a response either lets the driver go on with no request recorded, or ends the crawl with exactly one request at the current offset |
| Paging.PageGoesOn | bbid.py:99-107 | the driver goes on past a response exactly when it has links, its last link differs from the previous response's, and the launch loop runs to the end |
| Paging.PageStop | bbid.py:95-110 | a response that ends the crawl ends it for a raised request exactly when the request raised, with no results exactly when it was empty, silently exactly when it repeats the last link, and at the limit exactly when it was fresh; only the limit launches anything, and then a proper prefix of the links |
| Paging.CrawlFrom | bbid.py:88-111 | there is at most one request per given response; running out of responses means every one was requested; any other stop follows at least one request |
| Paging.BatchWithinRoom | bbid.py:101-106 | one page never launches more links than the limit leaves room for |
| Paging.OffsetsFromCounts | bbid.py:92-106 | requests made one after another, each after the launches of the one before, have `first=` offsets that count every launch before them |
| Paging.CrawlOffsetsFrom | bbid.py:92-107 | each request is made at the offset the previous request reached after its launches |
| Paging.CrawlOffsets | bbid.py:89-106 | each request's `first=` offset equals the starting count plus the number of links launched before it |
| Paging.CrawlLaunchesWholePages | bbid.py:99-107 | every response before the last request, and the last one too when the responses ran out, was non-empty, had a last link other than the previous response's, and had all its links launched |
| Paging.CrawlStopReason | bbid.py:95-110 | a crawl that did not run out of responses stopped on its last request as `StopsOn` says: the reason holds exactly when that response raised, was empty, repeated the previous last link, or was fresh and cut by the limit; a proper prefix of the links was launched whenever the limit stopped it, and a repeated page launches none of its links |
| Paging.UnlimitedLaunchesAllLinks | bbid.py:99-107 | without a limit a crawl launches exactly every link of the responses up to the first one that raised, was empty or repeated the previous last link |
| Paging.LimitedLaunchesPrefix | bbid.py:101-106 | with a limit, the written or corrected crawl launches a prefix of those links and no more than the limit leaves room for |
| Paging.IntendedTakesAllLinks | bbid.py:101-106 | with a limit, the corrected crawl launches exactly the first of those links that fit in the room the limit leaves |
| Paging.CrawlWithinLimit | bbid.py:102-103 | the launched links are a prefix of what the same crawl without a limit launches, and no more than the limit leaves room for |
| Paging.IntendedTakesFromUnlimited | bbid.py:101-106 | from any position, the corrected crawl launches exactly the first links the unlimited crawl launches, as many as the limit leaves room for |
| Paging.UnlimitedIgnoresLimitTest | bbid.py:102 | without a limit the written and the corrected crawl agree |
| Paging.IntendedLaunchesUpToLimit | bbid.py:88-111 | the corrected crawl launches exactly the first `limit` links of the unlimited crawl, or all of them if there are fewer |
| Paging.LimitDoubleCountExample | bbid.py:102-106 | with limit 4 and one page of five links, the written crawl launches two and the corrected crawl launches four |

## Left out

- The network (`urlopen`, the socket timeout, the User-Agent header) is an input. Each `Attempt` says whether the fetch raises or which bytes it returns. Each search response is given as a `Page`.
- `imghdr.what` and `hashlib.md5` are uninterpreted functions on byte sequences, held in `Env`.
- `unicodedata.normalize('NFKC', ...)`, which `urlsplit` applies to non-ASCII network locations, is an uninterpreted function in `Env`: the Unicode tables are not modelled.
- Threads and semaphore blocking are left out. Each `download` is one atomic step, and launched downloads run in launch order. The code has no locking, so the interleavings it allows are not modelled. The semaphore is a counter of held permits.
- HTML regex scraping of `murl` links is left out: responses are given as lists of links. A UTF-8 decode error in the response body counts as a failed request.
- Search URL formatting (`quote_plus`, `count=35`, `adlt`, `qft`) is left out. Only the `first=` offset is modelled.
- A search request that raises at bbid.py:95-96 ends `fetch_images_from_keyword` with that exception; the model records it as the stop `RequestFailed` and does not model the exception reaching the caller.
- The driver asks for pages until a response stops it. The model is given a finite sequence of responses, and `OutOfPages` is the stop it reports when they run out.
- `time.sleep(0.1)` between pages is left out, since it has no effect on state.
- `download` is modelled with an output directory that exists: `Names.OnDisk` reads the directory as a set of entries plus `.` and `..`. A missing output directory is not modelled.
- `fetch_random_image_from_keyword`'s single search request, `random.shuffle` and `os.makedirs` are left out. The model starts from the shuffled links and an existing directory.
- The paging model records which downloads are launched, not their outcomes. `Drivers` covers running launched downloads.
- `backup_history`, the pickled history and the signal handler are serialization and process I/O.
- The commented-out command-line block is not live code.
- The printed lines are `Report` values, not strings.
- Paths.UrlPath follows `urlsplit` for the scheme, `//netloc`, `?`, `#`, the unmatched-bracket `ValueError` and the NFKC check on the network location. It leaves out leading whitespace stripping, removal of tab and newline characters, and the checks on bracketed hosts.
- Drivers.RunInOrder states only the lengths of the results. Its meaning is fixed by the lemmas about it.

## Findings

| source | as written | input that shows it | evidently intended | confidence | as-written member | corrected member |
|---|---|---|---|---|---|---|
| bbid.py:102-106 | the limit test is `current + index >= limit` while `current` also grows by one per launch, so the loop counts each launch twice | limit 4, one response with links a, b, c, d, e: only a and b are launched | launch until `limit` links have been launched in total | high (not executed) | Paging.LimitDoubleCountExample | Paging.IntendedLaunchesUpToLimit |
| bbid.py:129-130 | `download` returns bare `None` for a URL already in the shared list, and `error, path = download(...)` then raises `TypeError` | a link saved by an earlier call in the same process, given again | pass over links that were already tried | medium (not executed) | Drivers.FirstSuccessRaisesOnTriedLink | Drivers.FirstSuccessIntended |
