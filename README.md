# Deduplicating image-search crawler: a Dafny model

This project models the core of two Python scripts. Each one searches
Google Images for a query, scrolls the result page until it stops growing,
and downloads the thumbnail images. It keeps an image only if its 64-bit
average-hash fingerprint has not been seen before.

- `main.py` is the incremental crawler. At startup it seeds one fingerprint
  set from the images already on disk. It shares that set across every query
  typed at the prompt, until the operator types `done`. It pre-filters
  favicon and short URLs, and counts a failed fetch as skipped.
- `google_image_crawler.py` runs one query. It starts a fresh set for each
  call, has no URL pre-filter, and lets a failed fetch fall through uncounted.

The browser, the network, the image decoder and the disk are inputs to the
model. A query comes with the page heights the browser reports, the `img`
tags of the expanded page, and the outcome of every fetch and file write it
would attempt. The decoder is a function `hash: Bytes -> Option<Fingerprint>`.
Because it is a function, it is deterministic: identical bytes always give
identical fingerprints.

Files:

- `fingerprints.dfy` (module `Fingerprints`): the fingerprint type (a value
  below 2^64), its 16-digit lower-case hexadecimal text form, and the output
  file names `image_<hash>.jpg` and `title_<hash>.txt`. It proves that these
  names are injective.
- `scroll.dfy` (module `ScrollExpander`): the scroll-termination loop. It is
  the same in both scripts.
- `candidates.dfy` (module `Candidates`): thumbnail extraction and the
  per-candidate rule. The `Policy` datatype holds the two ways the scripts
  differ. `Session` is the candidate loop written as a left fold, and the
  lemmas about it are proved there.
- `main.dfy` (module `MainCrawler`) models `main.py`. The caller-owned set is
  a `HashStore` object that the search updates in place. Seeding is a loop.
  The run loop ends on the `done` sentinel.
- `google_image_crawler.dfy` (module `GoogleImageCrawler`) models
  `google_image_crawler.py`: its search, whose set is a local variable.
- `options.dfy` (module `Options`): an `Option` datatype.

Behaviour of the scripts that is easy to misread:

- A candidate whose bytes do not decode is counted neither as downloaded nor
  as skipped. The outer `except` only moves on to the next candidate.
- A fingerprint is added to the set before its files are written. If a write
  then fails, the fingerprint stays in the set, that image is not counted,
  and it is never retried during the process.
- `google_image_crawler.py` dedupes only within one call. It does not count a
  failed fetch.
- Scrolling has no round limit.
- In `main.py`, the first query that produces no candidates crashes the
  script if the `images` directory does not exist yet. The search returns
  before it creates the directory, and the report's `os.listdir` then raises.
  `Run` models this as the ending `ListingFailed`.

## Model

| member | source | states |
|---|---|---|
| `ScrollExpander.ScrollToBottom` | main.py:52-78 | Each round sends exactly 50 key presses, so `total_scroll_attempts` is 50 × the rounds done. An unchanged round increments the failure counter and a changed round resets it to 0, so the counter stays in 0..2 and equals the fold of that rule over the rounds done. The loop stops exactly after the first pair of consecutive unchanged rounds, never earlier. If no such pair exists it never stops, because nothing else bounds the rounds. The code at google_image_crawler.py:39-65 is the same loop. |
| `ScrollExpander.FailuresConvergeIffTwoUnchanged` | main.py:66-78 | After n rounds the counter has reached 2 exactly when rounds n-1 and n both left the height unchanged. |
| `ScrollExpander.StableHeightConverges` | main.py:58-78 | A page whose height stops changing from round k on is converged by round k + 2. |
| `ScrollExpander.AlternatingGrowthNeverStops` | main.py:58-78 | If the height changes in at least one of every two consecutive rounds, scrolling never stops. |
| `Candidates.ExtractCandidatesExact` | main.py:84-87 | Extraction keeps exactly the `img` tags whose `src` contains `encrypted-tbn0.gstatic.com`. Each candidate pairs that `src` with the same tag's `alt`. A page without such tags yields no candidates. |
| `Candidates.ExtractCandidatesInOrder` | main.py:84-87 | Extraction keeps page order. The candidates of two concatenated pages are the first page's followed by the second's. |
| `Candidates.ExtractCandidatesOfTag` | main.py:84-87 | A single tag yields its own candidate if it is a thumbnail, and nothing otherwise. With `ExtractCandidatesInOrder`, this gives one candidate per thumbnail tag, in page order. |
| `Candidates.SessionMonotone` | main.py:102-149 | During the candidate loop the fingerprint set only grows. Both counters only grow, and together they grow by at most the number of candidates. Written files are only ever appended. |
| `Candidates.SessionHashes` | main.py:124-134 | After the loop, the set is the initial set plus the fingerprint of every candidate that was fetched and decoded, whatever happened to its file writes. A fingerprint is inserted before its files are written. |
| `Candidates.SessionCounts` | main.py:102-149 | The skips are counted independently of candidate order. They are the pre-filter rejections plus the counted fetch failures, plus every decoded candidate whose fingerprint was already known (decoded candidates minus new fingerprints). A pre-filter rejection is an early skip, and a decode or write failure adds no skip. Downloads are at most the number of new fingerprints. The exact download count, equal to the caption files written, so that a failed write adds no download, is the `downloaded` clause of `StepKeepsAccounts`. |
| `Candidates.StepKeepsAccounts` | main.py:127-142 | One candidate keeps the bookkeeping valid. Every file carries a fingerprint that was neither seeded nor written before. No path is written twice. `downloaded` equals the number of caption files written. |
| `Candidates.SessionKeepsAccounts` | main.py:127-142 | The same bookkeeping holds after any sequence of candidates. |
| `Candidates.AtMostOneDownloadPerFingerprint` | main.py:127-142 | Under that bookkeeping, no two completed downloads share a fingerprint, and none has a seeded fingerprint. |
| `Candidates.RejectedNeverFetched` | main.py:111-114 | A candidate whose URL contains `favicon` or is shorter than 50 characters is never fetched: its fetch and write outcomes make no difference to the session. That it counts as one skip and adds no fingerprint follows from `SessionCounts` (it is an early skip) and `SessionHashes` (it never decodes). |
| `Candidates.IdenticalImagesSavedOnce` | main.py:118-142 | Two candidates that download identical bytes, decoding to a new fingerprint, give one download and one skip when both files of the first candidate are written. This holds for both scripts. |
| `Candidates.SessionShift` | main.py:102-103 | Counters and files restart for each call, and only the set carries over. A session on top of earlier totals equals a fresh session whose results are added to those totals. |
| `Fingerprints.HashText` | main.py:133-134 | The text form of a fingerprint in file names has exactly 16 hexadecimal digits and reads back as the same fingerprint. |
| `Fingerprints.ParseHexOfHex` | main.py:133-134 | A number below 16^w written with w hexadecimal digits reads back as the same number. |
| `Fingerprints.FileNamesInjective` | main.py:133-134 | `image_<hash>.jpg` and `title_<hash>.txt` depend only on the fingerprint. Distinct fingerprints never share a name. |
| `Fingerprints.SamePathSameFingerprint` | main.py:133-140 | Two writes to the same path are the same kind of file and carry the same fingerprint. |
| `MainCrawler.LoadExistingImageHashes` | main.py:33-44 | A missing directory gives the empty set. Otherwise the result is exactly the fingerprints of the files that read and decode. A failing file is skipped without ending the scan. |
| `MainCrawler.GoogleImageSearch` | main.py:46-149 | The search returns only if scrolling converges. With no candidates it returns (0, 0) before creating directories or touching the shared set. Otherwise it creates the directories, and the new set, `downloaded_images`, `skipped_images` and the files written equal the candidate loop under the incremental crawler's policy, started from the caller's set. |
| `MainCrawler.DoneSpellings` | main.py:156-158 | A query ends the loop exactly when it is `done` in any mixture of upper and lower case. |
| `MainCrawler.QueryKeepsAccounts` | main.py:153-161 | One finished query with the shared set keeps the whole run's bookkeeping valid. |
| `MainCrawler.SearchedKeepsAccounts` | main.py:152-161 | Across any sequence of finished queries sharing one set, the set only grows from the seed. No file is written twice. Every saved image has a fingerprint that was neither on disk nor saved earlier in the run. The reported downloads add up to the caption files written. |
| `MainCrawler.StopAtExact` | main.py:152-163 | When query n did not finish, the run ends for exactly one reason, each under its own condition: the input ran out; the query is `done`; its page never stops growing; or its page stopped growing, the `images` directory is missing, and no query so far had a candidate. |
| `MainCrawler.Run` | main.py:151-168 | Seeds the set from disk, then searches query after query with the same set. The reports, the files written and the final set are exactly those of the per-query candidate loops, each started from the set the earlier queries left. Every reported query was not `done`, its page stopped growing, and the `images` directory existed for its report. The run stops at the first query that is not like that. It stops with `InputExhausted`, `SentinelEntered`, `ScrollNeverEnds` or `ListingFailed` exactly when that ending's condition holds. Over the whole run the accounting of `SearchedKeepsAccounts` holds from the disk's fingerprints. |
| `GoogleImageCrawler.GoogleImageSearch` | google_image_crawler.py:33-125 | The call returns only if scrolling converges. With no candidates it returns before creating directories or counters. Otherwise the reported counts and files equal the candidate loop under this script's policy, starting from an empty set. |
| `GoogleImageCrawler.NoEarlySkips` | google_image_crawler.py:93-98 | Without a pre-filter, and with fetch failures uncounted, no candidate is skipped before its fingerprint is known. |
| `GoogleImageCrawler.CrawlerSessionFacts` | google_image_crawler.py:89-116 | In one call the set is exactly the decoded fingerprints, and the skips are exactly the duplicates. Downloads are at most the distinct fingerprints, and no fingerprint is saved twice within the call. Nothing carries over between calls. |

## Left out

- Browser automation (`driver.get`, `find_element`, `send_keys`, `execute_script`, `driver.quit`): heights are an input sequence, and key presses are a count. One control-flow fact is noted instead: in `google_image_crawler.py`, `driver.quit()` runs only when the page had candidates.
- `time.sleep(2)` after each key press: timing only.
- `scroll_session_attempts`: its value is only printed.
- HTML parsing: the page is given as its list of `img` tags with their `src` and `alt` attributes.
- `urllib.request.urlopen`, `open`/`read`/`write`: these are per-candidate and per-file success or failure outcomes. A write that fails after `open` may leave a partial file; the model records a file only when its write succeeds.
- `os.makedirs`: directory creation is assumed to succeed. `dirsCreated` says only whether the search reached it. The call sits outside any `try`, so a failure (for example an `images` path that is a regular file) would end the script, and the model does not represent that.
- `os.listdir` order and `os.path.exists` on a non-directory: the directory is an optional sequence of file reads. Only the failure of the listing used in the report is modelled; the count it prints is not.
- `imagehash.average_hash` and PIL decoding: the decoder is a parameter. The model assumes the library prints a 64-bit hash as 16 lower-case hexadecimal digits.
- `print`, `tqdm` and the console messages.
- `input()`: queries are a given sequence. End of input (Python raises `EOFError`) is the ending `InputExhausted`.
- `str.lower` is modelled on ASCII letters only. No other character lower-cases to a letter of `done`, so the sentinel test is exact.
- The single-query `__main__` block of `google_image_crawler.py` (one `input()`, one call) is not modelled beyond the search it calls.
- Non-termination: a finite height sequence can only show that the loop has not stopped yet. `converged == false` stands for a scroll that would go on forever.
