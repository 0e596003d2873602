/** The older single-page scraper (scrap.py): the same link filter as the
    adaptive scraper, a fixed budget of one page, no skip counting, and a
    jobs.csv that is overwritten rather than appended to. */
module Scrap {
  import opened Tables
  import opened Listing

  /** `max_pages`. */
  const MaxPages: nat := 1

  /** `existing_links`: `row[0]` of every row of already_applied.csv, header
      included, or the empty set when the file is missing; a blank row makes
      `row[0]` raise IndexError. */
  function KnownLinks(alreadyApplied: File): (r: Loaded)
    ensures alreadyApplied.None? ==> r == Keys({})
    ensures r.Keys? <==> forall i :: 0 <= i < |Contents(alreadyApplied)| ==> Contents(alreadyApplied)[i] != []
    ensures r.Keys? ==> forall k :: k in r.keys <==>
              exists i :: 0 <= i < |Contents(alreadyApplied)| && Contents(alreadyApplied)[i][0] == k
  {
    if alreadyApplied.None? then Keys({})
    else
      var t := alreadyApplied.value;
      assert Contents(alreadyApplied) == t;
      LoadFirstColumn(t)
  }

  /** `page_count` when the loop ends, starting from page `i`, for a budget
      of `maxPages`: a page with no job tuple ends the loop before it is
      counted; otherwise the page is counted, and the loop ends when the
      count reaches the budget or the page has no "Next" link. */
  function PagesVisited(pages: seq<PageState>, maxPages: nat, i: nat): (n: nat)
    requires i <= |pages|
    ensures i <= n <= |pages|
    decreases |pages| - i
  {
    if !Present(pages, i) then i
    else if i + 1 >= maxPages || i + 1 >= |pages| then i + 1
    else PagesVisited(pages, maxPages, i + 1)
  }

  /** With the budget of one page, the scraper reads the first page when it
      has job tuples, and no other. */
  lemma OnePageOnly(existingLinks: set<string>, pages: seq<PageState>)
    ensures PagesVisited(pages, MaxPages, 0) == if Present(pages, 0) then 1 else 0
    ensures FreshAll(existingLinks, pages, PagesVisited(pages, MaxPages, 0)) ==
            if Present(pages, 0) then Fresh(existingLinks, pages[0].elements) else []
  {
  }

  /** The inner loop over the `a.title` elements of one page: keep the
      links that are not known, as `[job_link]` rows, in page order. */
  method ScanLinks(existingLinks: set<string>, jobElements: Page) returns (pageData: Table)
    ensures pageData == LinkRows(Fresh(existingLinks, jobElements))
  {
    pageData := [];
    ghost var kept: seq<Element> := [];
    var k := 0;
    while k < |jobElements|
      invariant k <= |jobElements|
      invariant kept == Fresh(existingLinks, jobElements[..k])
      invariant pageData == LinkRows(kept)
    {
      var jobElement := jobElements[k];
      assert jobElements[..k + 1] == jobElements[..k] + [jobElement];
      if Extractable(jobElement) && jobElement.link !in existingLinks {
        LinkRowsAppend(kept, jobElement);
        pageData := pageData + [[jobElement.link]];
        kept := kept + [jobElement];
      }
      k := k + 1;
    }
    assert jobElements[..k] == jobElements;
  }

  /** The scraping loop, for the budget `maxPages` (1 in this script): the
      new links of the pages read, in page order, with their repeats. */
  method ScrapePages(existingLinks: set<string>, pages: seq<PageState>, maxPages: nat)
    returns (data: Table, scrapCounter: nat, pageCount: nat)
    ensures pageCount == PagesVisited(pages, maxPages, 0)
    ensures data == LinkRows(FreshAll(existingLinks, pages, pageCount))
    ensures scrapCounter == |data|
    ensures forall i :: 0 <= i < |data| ==> data[i][0] !in existingLinks
  {
    pageCount := 0;
    data := [];
    scrapCounter := 0;
    ghost var visited := PagesVisited(pages, maxPages, 0);
    ghost var kept: seq<Element> := [];
    while Present(pages, pageCount)
      invariant pageCount <= |pages|
      invariant PagesVisited(pages, maxPages, pageCount) == visited
      invariant kept == FreshAll(existingLinks, pages, pageCount)
      invariant data == LinkRows(kept)
      invariant scrapCounter == |data|
      decreases |pages| - pageCount
    {
      var pageData := ScanLinks(existingLinks, pages[pageCount].elements);
      ghost var pageKept := Fresh(existingLinks, pages[pageCount].elements);
      LinkRowsConcat(kept, pageKept);
      data := data + pageData;
      scrapCounter := scrapCounter + |pageData|;
      kept := kept + pageKept;
      pageCount := pageCount + 1;
      if pageCount >= maxPages {
        break;
      }
      if pageCount >= |pages| {
        break;  // no "Next" link
      }
    }
    AllKeptAreNew(existingLinks, pages, pageCount);
  }

  /** The whole script. An empty start URL exits, and a blank row in
      already_applied.csv raises, before the `try` block: jobs.csv is left as
      it was. Otherwise the `finally` block overwrites jobs.csv with exactly
      the scraped rows: no header and none of its earlier rows. */
  method ScrapScript(url: string, alreadyAppliedFile: File, jobsFile: File, pages: seq<PageState>)
    returns (jobsOut: File)
    ensures url == "" || KnownLinks(alreadyAppliedFile).BlankRow? ==> jobsOut == jobsFile
    ensures url != "" && KnownLinks(alreadyAppliedFile).Keys? ==>
      jobsOut == Some(if Present(pages, 0)
                      then LinkRows(Fresh(KnownLinks(alreadyAppliedFile).keys, pages[0].elements))
                      else [])
  {
    if url == "" {
      return jobsFile;
    }
    var existingLinks := KnownLinks(alreadyAppliedFile);
    if existingLinks.BlankRow? {
      return jobsFile;
    }
    var data, scrapCounter, pageCount := ScrapePages(existingLinks.keys, pages, MaxPages);
    OnePageOnly(existingLinks.keys, pages);
    jobsOut := Some(data);
  }
}
