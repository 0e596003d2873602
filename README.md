# Naukri auto-apply bot: the routing, scraping and de-duplication core in Dafny

This project models the four scripts that hold the bot's logic. It proves what
each one guarantees about the CSV files it reads and writes.

- **apply_jobs.py**: the apply script. Every URL of `Delete_me/jobs.csv` gets exactly one of five
  outcomes:
  - skipped because the URL is already known;
  - already applied on the site;
  - redirected to a company site;
  - applied now;
  - to be applied manually.

  Four of these outcomes put the URL on a queue. A writer thread drains each
  queue into its CSV file until it meets a `None` sentinel. Model:
  `apply_jobs.dfy`, module `ApplyJobs`.
- **First_Run.py**: the scraper with an adaptive page limit. It walks a
  paginated search result. It keeps the links that neither already_applied.csv
  nor jobs.csv knows, raises its budget of 50 pages by one for each page with
  at least 20 known links, and appends what it found to jobs.csv and
  jobs_filter.csv. A noisy page raises `max_pages` together with
  `page_count`, so a site whose pages are all noisy is read to its end: only
  the site's last page or a page without job tuples stops the scrape. Model:
  `first_run.dfy`, module `FirstRun`.
- **scrap.py**: the older scraper. It uses the same filter over one page and
  overwrites jobs.csv. Model: `scrap.dfy`, module `Scrap`.
- **Already_applied_folder/cleaner.py**: the de-duplicator of
  already_applied.csv. For every first-field key it keeps the first row, in
  input order, and reports the later ones as duplicates. Model: `cleaner.dfy`,
  module `Cleaner`.

Two modules are shared:

- `tables.dfy` (`Tables`) describes a CSV file as Python's `csv` module
  delivers it:
  - a sequence of rows of fields;
  - `None` when the file does not exist;
  - `Some([])` when the file is empty.

  It also holds the `{row[0] for row in reader}` comprehension, which raises
  IndexError at a blank row.
- `listing.dfy` (`Listing`) holds a search-result element, and the
  known-link filter that both scrapers apply.

The browser is replaced by oracles:

- apply_jobs.py: `probe(i)` is what the job page of row `i` shows.
- The scrapers: the site is a finite sequence of pages. Page `i` has a "Next"
  link exactly when `i + 1` is a page. Each page is a `PageState`:
  `NoTuples` when it has no `srp-jobtuple-wrapper`, which makes `wait.until`
  time out and ends the scraping loop; otherwise `Tuples(elements)`, the
  `a.title` elements inside the wrappers. That list may be empty, and such a
  page is still counted, and the scraper moves on to "Next".

Each writer thread of apply_jobs.py is the only writer of its file, and the
routing loop never reads those files back. The model therefore runs each
writer after the routing loop, on the whole sequence of messages put on its
queue. The lemma `SentinelFlushes` states the shutdown guarantee: once the
sentinel follows the URLs, the writer has appended exactly those URLs, in
order.

A crash is modelled as the point where the script stops. The crashes are:

- `row[0]` on a blank row, in apply_jobs.py and scrap.py;
- a missing jobs.csv in apply_jobs.py;
- a page without a job-tuple wrapper, which leaves the scrapers' loops
  through their `finally` blocks.

Whatever the script has written by that point stays written.

What the code does not do:

- **No de-duplication in the writers.** A URL put twice on a queue is written
  twice.
- **Only the skip sets are checked before a probe.** apply_jobs.py checks the
  URL against the two skip sets (`already_applied_urls` and
  `company_sites_urls`) and nothing else. There is no blocking by company
  name.
- **No "expired" outcome.**
- **No priority among sources.** The known-link set is a plain union of
  `row[0]` values.
- **No retry after a failed write.**
- **A blank row is not skipped in apply_jobs.py and scrap.py.** There a blank
  row makes `row[0]` raise IndexError, which ends the script: in
  `load_urls_from_csv` and the main loop of apply_jobs.py
  (apply_jobs.py:132-138, 147) and in the `existing_links` comprehension of
  scrap.py:53. First_Run.py (76, 84) and cleaner.py (19) test `if row:` and
  skip blank rows.
- **Successes and timeouts are not remembered.** They are not added to a
  skip set, so a URL repeated in jobs.csv is opened again.

## Model

| member | source | states |
|---|---|---|
| Tables.LoadFirstColumn | scrap.py:53 | `{row[0] for row in reader}` yields keys exactly when no row is blank, and then exactly the first fields of the rows; otherwise it fails at the first blank row |
| Tables.KeySetMember | First_Run.py:72-85 | a key is in the set collected with `if row:` exactly when some non-blank row has it as first field |
| ApplyJobs.LoadUrls | apply_jobs.py:132-138 | a missing file gives the empty set; otherwise the first fields of all rows after the header, or an IndexError at a blank row after the header (never the header itself) |
| ApplyJobs.WriteToCsv | apply_jobs.py:103-118 | the file ends as its old rows, or `[headers]` if it was absent or empty, followed by one `[url]` row per dequeued URL up to the first sentinel, in FIFO order and with repeats; the writer stops exactly when a sentinel arrives |
| ApplyJobs.SentinelFlushes | apply_jobs.py:196-204 | after the sentinel, the writer has delivered exactly the URLs put before it, in order, and nothing put after it |
| ApplyJobs.DrainQueue | apply_jobs.py:196-204 | putting the sentinel after a queue's URLs and joining its thread leaves the file as its header step followed by one row per URL; the writer stops exactly when the sentinel was sent |
| ApplyJobs.HeaderRaceIsHarmless | apply_jobs.py:120-141 | loading the skip set gives the same result whether or not the writer thread has already written its header |
| ApplyJobs.Route | apply_jobs.py:146-193 | one row raises the sum of the five counters by exactly one |
| ApplyJobs.CountersSumToRows | apply_jobs.py:146-193 | after routing n rows, the counters add up to n |
| ApplyJobs.RoutedCounter | apply_jobs.py:146-193 | each counter equals the number of rows whose outcome is that counter's outcome |
| ApplyJobs.RoutedQueue | apply_jobs.py:159-193 | each queue receives exactly the URLs of the rows with its outcome, in row order, repeats included; skipped rows reach no queue |
| ApplyJobs.RoutedSkipSets | apply_jobs.py:159-177 | the skip sets grow by the URLs found already applied or redirected to a company site, and by no others |
| ApplyJobs.SkippedIff | apply_jobs.py:150-177 | a row is skipped iff its URL was in a loaded skip set, or an earlier row with the same URL was found already applied or a company site; earlier successes and timeouts do not count |
| ApplyJobs.KnownUrlIsNotProbed | apply_jobs.py:150-153 | a known URL only increments `skip_job_applied`: whatever the page would show, no queue or set changes |
| ApplyJobs.RouteJobs | apply_jobs.py:144-193 | the loop leaves the globals as routing the first column of the rows before the first blank row, and it completes iff jobs.csv has no blank row |
| ApplyJobs.ApplyJobsScript | apply_jobs.py:120-204 | each of the four files ends as its header step followed by its queue; routing happens exactly when both skip sets load and jobs.csv exists, and the run finishes exactly when no row is blank |
| Listing.FreshMember | First_Run.py:102-133 | an element is kept iff it is on the page, its company and location lookups succeed, and its link is not known |
| Listing.KeptAreNew | First_Run.py:102-133 | every element kept from a page passed extraction and has a link outside the known set |
| Listing.AllKeptAreNew | First_Run.py:95-133 | every element kept over a run of pages passed extraction and has an unknown link |
| Listing.FreshOrSkipped | First_Run.py:102-133 | every extractable element is either kept or counted as skipped, never both |
| Listing.FreshAppend | scrap.py:66-82 | the filter works element by element against a fixed set, so filtering a concatenation is concatenating the filtered parts |
| FirstRun.ExistingLinks | First_Run.py:69-85 | `existing_links` holds exactly the first fields of the non-blank rows of already_applied.csv and jobs.csv, headers included; a missing file contributes nothing |
| FirstRun.FilterRow | First_Run.py:108-127 | the filter row has four fields and ends with the link; company and location fall back to "Not Available" when their text is empty; the experience falls back to "Not Available" only when its element is missing |
| FirstRun.PagesScraped | First_Run.py:95-156 | the number of pages counted never exceeds the number of pages |
| FirstRun.BudgetStep | First_Run.py:135-137 | `max_pages` rises by exactly one after a page with at least 20 skips, and stays put otherwise |
| FirstRun.ScrapedWithinBudget | First_Run.py:135-156 | `page_count` never passes `50 + (noisy pages scraped)`; every page counted had job-tuple wrappers, even one with no `a.title` element; the loop stops on the budget, a page without wrappers, or a missing "Next" link |
| FirstRun.PageWithTuplesIsCounted | First_Run.py:95-156 | a page without job-tuple wrappers ends the scrape uncounted; a page with wrappers is counted even when they hold no `a.title` element, and the scrape moves on to the next page unless the budget is spent or there is no "Next" link |
| FirstRun.NoisyPagesNeverSpendBudget | First_Run.py:135-156 | while every page is noisy, `max_pages` rises with `page_count`, so the budget never stops the scrape: it reads every page of the site and ends with `max_pages` equal to 50 plus that number |
| FirstRun.QuietScrapeVisitsAtMostFifty | First_Run.py:88-143 | when none of the pages it counts has at least 20 known links, the scraper counts at most 50 pages |
| FirstRun.ScrapeFiltersAgainstStartSet | First_Run.py:69-133 | `existing_links` is not updated during the scrape: the result is the filter of all scraped elements against the start set, so a new link seen twice is kept twice |
| FirstRun.ScanPage | First_Run.py:100-133 | the inner loop keeps the unknown links of a page as link rows and filter rows in page order, and counts the known ones in `page_skip_count` |
| FirstRun.Scrape | First_Run.py:87-156 | `page_count` and `max_pages` are as the budget rule dictates; `data` and `filter_data` are the kept elements of the scraped pages; `TotalSkipped` is the sum of the page skips; `ScrapCounter` is the number of rows in each |
| FirstRun.ScrapedRowsAgree | First_Run.py:100-133 | row `i` of the scraped `data` is the link that ends row `i` of `filter_data`, and no scraped link was known |
| FirstRun.FirstRunScript | First_Run.py:49-181 | an empty URL touches no file; with no new link, neither file is touched; otherwise jobs.csv gets the new link rows appended with no header, and jobs_filter.csv gets its header only when it did not exist, then the filter rows |
| Scrap.KnownLinks | scrap.py:48-53 | the known links are every first field of already_applied.csv, header included, or none for a missing file; a blank row raises IndexError |
| Scrap.PagesVisited | scrap.py:84-100 | the number of pages visited never exceeds the number of pages |
| Scrap.OnePageOnly | scrap.py:55-87 | with `max_pages = 1` the scraper reads page 0 when it has job tuples, and no other page |
| Scrap.ScanLinks | scrap.py:66-82 | the inner loop keeps the unknown links of a page as `[job_link]` rows in page order |
| Scrap.ScrapePages | scrap.py:56-100 | the loop counts the pages the budget rule allows; `data` is the link rows of the kept elements of those pages; `ScrapCounter` is their number; no row holds a known link |
| Scrap.ScrapScript | scrap.py:30-106 | an empty URL, or a blank row in already_applied.csv, leaves jobs.csv as it was; otherwise jobs.csv is overwritten with exactly the new links of page 0, without a header and without its previous rows |
| Cleaner.Kept | Already_applied_folder/cleaner.py:18-23 | every written row is a non-blank input row |
| Cleaner.KeptKeys | Already_applied_folder/cleaner.py:18-25 | the cleaned file holds exactly the keys of the input |
| Cleaner.KeptDistinct | Already_applied_folder/cleaner.py:18-23 | the cleaned file has no blank row and no key twice |
| Cleaner.UniqueCountIsKeptCount | Already_applied_folder/cleaner.py:20-23 | `len(unique_links)` is the number of rows written |
| Cleaner.CountsAddUp | Already_applied_folder/cleaner.py:18-33 | rows written plus duplicates reported equals the number of non-blank rows; blank rows count as neither |
| Cleaner.DuplicatesPerKey | Already_applied_folder/cleaner.py:18-25 | a key that occurs n > 0 times is reported n - 1 times as a duplicate and kept once; a key that does not occur is neither |
| Cleaner.KeptAreFirstOccurrences | Already_applied_folder/cleaner.py:18-23 | row m of the output is the whole input row at an increasing index, and those indices are exactly the first occurrences of the keys |
| Cleaner.DuplicatesAreLaterOccurrences | Already_applied_folder/cleaner.py:18-25 | the reported duplicates are the keys of the later occurrences in input order: duplicate m is the key of the input row at an increasing index, and those indices are exactly the non-blank rows whose key appeared earlier |
| Cleaner.DistinctIsFixed | Already_applied_folder/cleaner.py:18-25 | a file with distinct keys and no blank row is left as it is, with no duplicates |
| Cleaner.Idempotent | Already_applied_folder/cleaner.py:9-28 | cleaning a cleaned file writes the same rows and reports no duplicate |
| Cleaner.CleanRows | Already_applied_folder/cleaner.py:9-28 | the loop writes the kept rows, collects the duplicates in input order, and ends with `unique_links` equal to the keys of the input, of the same size as the output |
| Cleaner.CleanFile | Already_applied_folder/cleaner.py:12-40 | a missing file is not written and gives no report; otherwise the file is replaced by its cleaned rows and the report gives the unique count and the removed links |

## Left out

- The browser calls are not modelled: `driver.get`, `find_element(s)`,
  `WebDriverWait`, `time.sleep` and `driver.quit`. The probe and page oracles
  stand in for them.
- A `None` href and an empty job title are not modelled: links are strings.
- A missing wrapper in First_Run.py is not distinguished from a missing
  company name. Both make the element fail extraction.
- Threads, locks and `queue.Queue` are not modelled. Each file has a single
  writer, and its writes follow the FIFO order of the queue. The model runs
  each writer sequentially after routing, and the lemma `HeaderRaceIsHarmless`
  covers the one interleaving that could matter.
- After an early crash in apply_jobs.py no sentinel is sent, and the Python
  process never exits. The model records only what the writers have drained.
- Exceptions other than those the scripts catch are not modelled. The model
  covers TimeoutException in the apply step, the per-element `except` of the
  scrapers, and the timeout that ends a scrape. I/O errors on the files are
  not modelled.
- The following are not modelled:
  - Login.py, Logout.py and the Firefox profile and binary lookups, which do
    environment set-up only;
  - Already_applied_folder/duplicate_remover.py, a pandas variant of
    cleaner.py;
  - the scripts under `Don't_Touch/`.
- Logging, the printed summaries and the numbered list of removed links are
  not modelled. `Cleaner.CleanFile` returns their data as a report.
- `MAX_APPLICATIONS` is never read by apply_jobs.py, so it is not modelled.
- CSV quoting, escaping and file encodings are not modelled: files are
  already-parsed rows.
- The temporary file of cleaner.py is not modelled. The model treats the
  `os.replace` as atomic.
- Scrap.ScrapePages takes the page budget as a parameter. The script passes
  `max_pages = 1`, and `Scrap.OnePageOnly` states what that value gives.
