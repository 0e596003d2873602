/** The scraper with an adaptive page limit (First_Run.py): it collects the
    links of a paginated search result that are not yet known, raising its
    page budget by one for every page that was mostly known links, and
    appends what it found to jobs.csv and jobs_filter.csv.

    The site is the finite sequence `pages`: page 0 is the one the start URL
    opens, and the "Next" link of page `i` exists exactly when `i + 1 < |pages|`. */
module FirstRun {
  import opened Tables
  import opened Listing

  /** The page budget before any page is scraped. */
  const InitialMaxPages: nat := 50

  /** A page with at least this many known links raises the budget by one. */
  const SkipThreshold: nat := 20

  /** The header jobs_filter.csv gets when the scraper creates it. */
  const FilterHeader: Row := ["Company Name", "Experience Required", "Location", "Link"]

  /** `existing_links`: `row[0]` of every non-blank row of already_applied.csv
      and of jobs.csv, header rows included; a missing file adds nothing. */
  function ExistingLinks(alreadyApplied: File, jobs: File): (links: set<string>)
    ensures forall k :: k in links <==>
      || (exists i :: 0 <= i < |Contents(alreadyApplied)| && Contents(alreadyApplied)[i] != [] &&
                      Contents(alreadyApplied)[i][0] == k)
      || (exists i :: 0 <= i < |Contents(jobs)| && Contents(jobs)[i] != [] && Contents(jobs)[i][0] == k)
  {
    KeySetIsFirstFields(Contents(alreadyApplied));
    KeySetIsFirstFields(Contents(jobs));
    KeySet(Contents(alreadyApplied)) + KeySet(Contents(jobs))
  }

  /** `.text or "Not Available"`. */
  function OrNotAvailable(s: string): string {
    if s == "" then NotAvailable else s
  }

  /** The text of a field, empty when the lookup failed. */
  function TextOf(f: Field): string {
    match f
    case Missing => ""
    case Text(text) => text
  }

  /** The jobs_filter.csv row of a kept element: company and location fall
      back to "Not Available" when their text is empty, the experience only
      when its element is missing. (Only extractable elements are kept, so
      the company and location lookups have succeeded.) */
  function FilterRow(e: Element): (row: Row)
    ensures |row| == 4 && row[3] == e.link
    ensures Extractable(e) ==> row[0] == OrNotAvailable(e.company.text) && row[2] == OrNotAvailable(e.location.text)
    ensures row[1] == (if e.experience.Text? then e.experience.text else NotAvailable)
  {
    [OrNotAvailable(TextOf(e.company)),
     if e.experience.Text? then e.experience.text else NotAvailable,
     OrNotAvailable(TextOf(e.location)),
     e.link]
  }

  function FilterRows(es: seq<Element>): (t: Table)
    ensures |t| == |es|
  {
    seq(|es|, i requires 0 <= i < |es| => FilterRow(es[i]))
  }

  lemma FilterRowsAppend(es: seq<Element>, e: Element)
    ensures FilterRows(es + [e]) == FilterRows(es) + [FilterRow(e)]
  {
    assert forall i :: 0 <= i < |es| ==> (es + [e])[i] == es[i];
  }

  lemma FilterRowsConcat(a: seq<Element>, b: seq<Element>)
    ensures FilterRows(a + b) == FilterRows(a) + FilterRows(b)
  {
    assert forall i :: 0 <= i < |a| ==> (a + b)[i] == a[i];
    assert forall i :: 0 <= i < |b| ==> (a + b)[|a| + i] == b[i];
  }

  /** A page on which the known links reach the threshold. */
  predicate Noisy(known: set<string>, page: Page) {
    SkipCount(known, page) >= SkipThreshold
  }

  /** The number of noisy pages among the first `n`. */
  function NoisyCount(known: set<string>, pages: seq<PageState>, n: nat): (count: nat)
    requires n <= |pages|
    ensures count <= n
    decreases n
  {
    if n == 0 then 0
    else NoisyCount(known, pages, n - 1) + (if Noisy(known, TitlesOf(pages[n - 1])) then 1 else 0)
  }

  /** `max_pages` once the first `k` pages have been scraped. */
  function MaxPagesAfter(known: set<string>, pages: seq<PageState>, k: nat): nat
    requires k <= |pages|
  {
    InitialMaxPages + NoisyCount(known, pages, k)
  }

  /** `TotalSkipped` over the first `n` pages. */
  function SkipTotal(known: set<string>, pages: seq<PageState>, n: nat): nat
    requires n <= |pages|
    decreases n
  {
    if n == 0 then 0 else SkipTotal(known, pages, n - 1) + SkipCount(known, TitlesOf(pages[n - 1]))
  }

  /** The elements of the first `n` pages, one page after the other. */
  function Flatten(pages: seq<PageState>, n: nat): Page
    requires n <= |pages|
    decreases n
  {
    if n == 0 then [] else Flatten(pages, n - 1) + TitlesOf(pages[n - 1])
  }

  /** `page_count` when the loop ends, starting from page `i`: a page with
      no job tuple ends the loop before it is counted; otherwise the page
      is counted, and the loop ends when the count reaches `max_pages` or
      the page has no "Next" link. */
  function PagesScraped(known: set<string>, pages: seq<PageState>, i: nat): (n: nat)
    requires i <= |pages|
    ensures i <= n <= |pages|
    decreases |pages| - i
  {
    if !Present(pages, i) then i
    else if i + 1 >= MaxPagesAfter(known, pages, i + 1) || i + 1 >= |pages| then i + 1
    else PagesScraped(known, pages, i + 1)
  }

  /** The budget rises by exactly one after a noisy page and stays put
      after any other page. */
  lemma BudgetStep(known: set<string>, pages: seq<PageState>, k: nat)
    requires k < |pages|
    ensures MaxPagesAfter(known, pages, k + 1) ==
            MaxPagesAfter(known, pages, k) + (if Noisy(known, TitlesOf(pages[k])) then 1 else 0)
  {
  }

  lemma {:induction false} PagesScrapedFrom(known: set<string>, pages: seq<PageState>, i: nat)
    requires i <= |pages|
    requires i < MaxPagesAfter(known, pages, i)
    ensures var n := PagesScraped(known, pages, i);
            && n <= MaxPagesAfter(known, pages, n)
            && (forall j :: i <= j < n ==> Present(pages, j))
            && (n == |pages| || !Present(pages, n) || n == MaxPagesAfter(known, pages, n))
    decreases |pages| - i
  {
    if Present(pages, i) {
      BudgetStep(known, pages, i);
      if !(i + 1 >= MaxPagesAfter(known, pages, i + 1) || i + 1 >= |pages|) {
        PagesScrapedFrom(known, pages, i + 1);
      }
    }
  }

  /** The scrape ends within its budget: every page it counts had job
      tuples, `page_count` never passes `max_pages`, and it stops because
      the budget is spent, a page has no tuple, or there is no next page. */
  lemma ScrapedWithinBudget(known: set<string>, pages: seq<PageState>)
    ensures var n := PagesScraped(known, pages, 0);
            && n <= |pages|
            && n <= InitialMaxPages + NoisyCount(known, pages, n)
            && (forall j :: 0 <= j < n ==> Present(pages, j))
            && (n == |pages| || !Present(pages, n) || n == MaxPagesAfter(known, pages, n))
  {
    PagesScrapedFrom(known, pages, 0);
  }

  /** What page `i` does to the scrape. A page without job-tuple wrappers
      ends it before it is counted. A page with wrappers is counted, even
      when they hold no `a.title` element, and the scrape goes on to the
      next page unless the budget is spent or there is no "Next" link. */
  lemma PageWithTuplesIsCounted(known: set<string>, pages: seq<PageState>, i: nat)
    requires i < |pages|
    ensures pages[i] == NoTuples ==> PagesScraped(known, pages, i) == i
    ensures pages[i].Tuples? ==> PagesScraped(known, pages, i) >= i + 1
    ensures pages[i].Tuples? && i + 1 < MaxPagesAfter(known, pages, i + 1) && i + 1 < |pages| ==>
              PagesScraped(known, pages, i) == PagesScraped(known, pages, i + 1)
  {
  }

  /** Every noisy page adds one to the budget. */
  lemma {:induction false} AllNoisyCount(known: set<string>, pages: seq<PageState>, n: nat)
    requires n <= |pages|
    requires forall j :: 0 <= j < n ==> Noisy(known, TitlesOf(pages[j]))
    ensures NoisyCount(known, pages, n) == n
    decreases n
  {
    if n > 0 {
      AllNoisyCount(known, pages, n - 1);
    }
  }

  lemma {:induction false} NoisyPagesScrapedFrom(known: set<string>, pages: seq<PageState>, i: nat)
    requires i <= |pages|
    requires forall j :: 0 <= j < |pages| ==> Present(pages, j) && Noisy(known, TitlesOf(pages[j]))
    ensures PagesScraped(known, pages, i) == |pages|
    decreases |pages| - i
  {
    if i < |pages| {
      AllNoisyCount(known, pages, i + 1);
      if i + 1 < |pages| {
        NoisyPagesScrapedFrom(known, pages, i + 1);
      }
    }
  }

  /** A noisy page raises `max_pages` as it raises `page_count`, so the
      budget never runs out while every page is noisy: the scrape then
      reads every page the site has, however many. */
  lemma NoisyPagesNeverSpendBudget(known: set<string>, pages: seq<PageState>)
    requires forall j :: 0 <= j < |pages| ==> Present(pages, j) && Noisy(known, TitlesOf(pages[j]))
    ensures PagesScraped(known, pages, 0) == |pages|
    ensures MaxPagesAfter(known, pages, |pages|) == InitialMaxPages + |pages|
  {
    NoisyPagesScrapedFrom(known, pages, 0);
    AllNoisyCount(known, pages, |pages|);
  }

  lemma {:induction false} NoNoisyPage(known: set<string>, pages: seq<PageState>, n: nat)
    requires n <= |pages|
    requires forall j :: 0 <= j < n ==> !Noisy(known, TitlesOf(pages[j]))
    ensures NoisyCount(known, pages, n) == 0
    decreases n
  {
    if n > 0 {
      NoNoisyPage(known, pages, n - 1);
    }
  }

  /** Without a noisy page the scraper visits at most 50 pages. */
  lemma QuietScrapeVisitsAtMostFifty(known: set<string>, pages: seq<PageState>)
    requires forall j :: 0 <= j < PagesScraped(known, pages, 0) ==> !Noisy(known, TitlesOf(pages[j]))
    ensures PagesScraped(known, pages, 0) <= InitialMaxPages
  {
    var n := PagesScraped(known, pages, 0);
    ScrapedWithinBudget(known, pages);
    NoNoisyPage(known, pages, n);
  }

  /** `existing_links` is not updated while scraping: filtering page by page
      is filtering all the scraped elements against the set loaded at the
      start, so a new link seen on two pages is kept twice. */
  lemma {:induction false} ScrapeFiltersAgainstStartSet(known: set<string>, pages: seq<PageState>, n: nat)
    requires n <= |pages|
    ensures FreshAll(known, pages, n) == Fresh(known, Flatten(pages, n))
    decreases n
  {
    if n > 0 {
      ScrapeFiltersAgainstStartSet(known, pages, n - 1);
      FreshAppend(known, Flatten(pages, n - 1), TitlesOf(pages[n - 1]));
    }
  }

  /** The inner loop over the `a.title` elements of one page: count the
      known links in `page_skip_count`, keep the others as `[job_link]` and
      filter rows, in page order. */
  method ScanPage(existingLinks: set<string>, jobElements: Page)
    returns (pageData: Table, pageFilterData: Table, pageSkipCount: nat)
    ensures pageData == LinkRows(Fresh(existingLinks, jobElements))
    ensures pageFilterData == FilterRows(Fresh(existingLinks, jobElements))
    ensures pageSkipCount == SkipCount(existingLinks, jobElements)
  {
    pageData, pageFilterData, pageSkipCount := [], [], 0;
    ghost var kept: seq<Element> := [];
    var k := 0;
    while k < |jobElements|
      invariant k <= |jobElements|
      invariant kept == Fresh(existingLinks, jobElements[..k])
      invariant pageData == LinkRows(kept) && pageFilterData == FilterRows(kept)
      invariant pageSkipCount == SkipCount(existingLinks, jobElements[..k])
    {
      var jobElement := jobElements[k];
      assert jobElements[..k + 1] == jobElements[..k] + [jobElement];
      if Extractable(jobElement) {
        if jobElement.link in existingLinks {
          pageSkipCount := pageSkipCount + 1;
        } else {
          LinkRowsAppend(kept, jobElement);
          FilterRowsAppend(kept, jobElement);
          pageData := pageData + [[jobElement.link]];
          pageFilterData := pageFilterData + [FilterRow(jobElement)];
          kept := kept + [jobElement];
        }
      }
      k := k + 1;
    }
    assert jobElements[..k] == jobElements;
  }

  /** How the final page count follows from scraping page `k`. */
  lemma PagesScrapedStep(known: set<string>, pages: seq<PageState>, k: nat)
    requires k < |pages| && Present(pages, k)
    ensures k + 1 >= MaxPagesAfter(known, pages, k + 1) || k + 1 >= |pages| ==>
              PagesScraped(known, pages, k) == k + 1
    ensures k + 1 < MaxPagesAfter(known, pages, k + 1) && k + 1 < |pages| ==>
              PagesScraped(known, pages, k) == PagesScraped(known, pages, k + 1)
  {
  }

  /** Row `i` of `data` is the link that ends row `i` of `filter_data`, and
      it is not a known link. */
  lemma RowsAgree(known: set<string>, es: seq<Element>)
    requires forall e :: e in es ==> e.link !in known
    ensures forall i :: 0 <= i < |es| ==>
              LinkRows(es)[i] == [FilterRows(es)[i][3]] && LinkRows(es)[i][0] !in known
  {
    forall i | 0 <= i < |es|
      ensures LinkRows(es)[i] == [FilterRows(es)[i][3]] && LinkRows(es)[i][0] !in known
    {
      assert es[i] in es;
    }
  }

  /** Row `i` of the scraped `data` is the link that ends row `i` of the
      scraped `filter_data`, and no scraped link was known. */
  lemma ScrapedRowsAgree(known: set<string>, pages: seq<PageState>, n: nat)
    requires n <= |pages|
    ensures var kept := FreshAll(known, pages, n);
            forall i :: 0 <= i < |kept| ==>
              LinkRows(kept)[i] == [FilterRows(kept)[i][3]] && LinkRows(kept)[i][0] !in known
  {
    AllKeptAreNew(known, pages, n);
    RowsAgree(known, FreshAll(known, pages, n));
  }

  /** The scraping loop: per page, skip known links (counting them), keep the
      others in `data` and `filter_data`, raise `max_pages` after a noisy
      page, count the page, and stop on the budget, a missing "Next" link or
      a page without job tuples. */
  method Scrape(existingLinks: set<string>, pages: seq<PageState>)
    returns (data: Table, filterData: Table, scrapCounter: nat, totalSkipped: nat,
             pageCount: nat, maxPages: nat)
    ensures pageCount == PagesScraped(existingLinks, pages, 0)
    ensures maxPages == MaxPagesAfter(existingLinks, pages, pageCount)
    ensures pageCount <= maxPages
    ensures data == LinkRows(FreshAll(existingLinks, pages, pageCount))
    ensures filterData == FilterRows(FreshAll(existingLinks, pages, pageCount))
    ensures totalSkipped == SkipTotal(existingLinks, pages, pageCount)
    ensures scrapCounter == |data| == |filterData|
  {
    maxPages := InitialMaxPages;
    pageCount := 0;
    data, filterData := [], [];
    scrapCounter, totalSkipped := 0, 0;
    ghost var scraped := PagesScraped(existingLinks, pages, 0);
    ghost var kept: seq<Element> := [];
    while Present(pages, pageCount)
      invariant pageCount <= |pages|
      invariant PagesScraped(existingLinks, pages, pageCount) == scraped
      invariant maxPages == MaxPagesAfter(existingLinks, pages, pageCount)
      invariant pageCount < maxPages
      invariant kept == FreshAll(existingLinks, pages, pageCount)
      invariant data == LinkRows(kept) && filterData == FilterRows(kept)
      invariant scrapCounter == |data|
      invariant totalSkipped == SkipTotal(existingLinks, pages, pageCount)
      decreases |pages| - pageCount
    {
      var pageData, pageFilterData, pageSkipCount := ScanPage(existingLinks, pages[pageCount].elements);
      ghost var pageKept := Fresh(existingLinks, pages[pageCount].elements);
      LinkRowsConcat(kept, pageKept);
      FilterRowsConcat(kept, pageKept);
      PagesScrapedStep(existingLinks, pages, pageCount);
      data := data + pageData;
      filterData := filterData + pageFilterData;
      kept := kept + pageKept;
      scrapCounter := scrapCounter + |pageData|;
      totalSkipped := totalSkipped + pageSkipCount;
      if pageSkipCount >= SkipThreshold {
        maxPages := maxPages + 1;
      }
      pageCount := pageCount + 1;
      assert kept == FreshAll(existingLinks, pages, pageCount);
      if pageCount >= maxPages {
        break;
      }
      if pageCount >= |pages| {
        break;  // no "Next" link
      }
    }
  }

  /** The whole script. An empty start URL exits before any file is touched.
      Otherwise the known links are loaded, the pages scraped, and in the
      `finally` block the new rows are appended: to jobs.csv with no header,
      to jobs_filter.csv with a header only when that file did not exist;
      a file gets nothing, and is not created, when there is no new row. */
  method FirstRunScript(url: string, alreadyAppliedFile: File, jobsFile: File, filterFile: File,
                        pages: seq<PageState>)
    returns (jobsOut: File, filterOut: File)
    ensures url == "" ==> jobsOut == jobsFile && filterOut == filterFile
    ensures url != "" ==>
      var known := ExistingLinks(alreadyAppliedFile, jobsFile);
      var kept := FreshAll(known, pages, PagesScraped(known, pages, 0));
      && (kept == [] ==> jobsOut == jobsFile && filterOut == filterFile)
      && (kept != [] ==>
            && jobsOut == Some(Contents(jobsFile) + LinkRows(kept))
            && filterOut == Some((if filterFile.None? then [FilterHeader] else filterFile.value)
                                 + FilterRows(kept)))
  {
    if url == "" {
      return jobsFile, filterFile;
    }
    var existingLinks := ExistingLinks(alreadyAppliedFile, jobsFile);
    var data, filterData, scrapCounter, totalSkipped, pageCount, maxPages := Scrape(existingLinks, pages);
    jobsOut, filterOut := jobsFile, filterFile;
    if data != [] {
      jobsOut := Some(Contents(jobsFile) + data);
    }
    assert |data| == |filterData| == |FreshAll(existingLinks, pages, pageCount)|;
    if filterData != [] {
      var fileExists := filterFile.Some?;
      var prior := if fileExists then filterFile.value else [];
      if !fileExists {
        prior := prior + [FilterHeader];
      }
      assert prior == if filterFile.None? then [FilterHeader] else filterFile.value;
      filterOut := Some(prior + filterData);
    }
  }
}
