/** A job tuple on a search-result page as both scrapers (First_Run.py and
    scrap.py) read it, and the filter both apply: drop the tuples whose
    extraction raises, skip the links already known, keep the rest in page
    order. The browser is replaced by the page contents themselves. */
module Listing {
  import opened Tables

  /** The text of an element looked up inside the tuple's wrapper, or
      `Missing` when `find_element` raises NoSuchElementException. */
  datatype Field = Missing | Text(text: string)

  /** One `a.title` element: its href and the company, location and
      experience elements of its wrapper. A missing wrapper makes every
      lookup fail, and is modelled as a missing company. */
  datatype Element = Element(link: string, company: Field, location: Field, experience: Field)

  /** The `a.title` elements of one result page, in document order. */
  type Page = seq<Element>

  /** What the scrapers write for a field whose text is empty. */
  const NotAvailable: string := "Not Available"

  /** The company and location lookups come before the known-link test; when
      either raises, the per-element `except` logs and moves on, so the
      element is neither skipped nor kept. */
  predicate Extractable(e: Element) {
    e.company.Text? && e.location.Text?
  }

  /** A result page as the scrapers see it: either it has no
      `srp-jobtuple-wrapper`, so `wait.until` raises TimeoutException, or it
      has wrappers, and `elements` are the `a.title` elements inside them,
      possibly none. */
  datatype PageState = NoTuples | Tuples(elements: Page)

  /** The `a.title` elements of a page; none when it has no job tuple. */
  function TitlesOf(p: PageState): Page {
    if p.Tuples? then p.elements else []
  }

  /** `wait.until` finds job tuples on page `i`; otherwise it raises
      TimeoutException, which leaves the scraping loop. */
  predicate Present(pages: seq<PageState>, i: nat) {
    i < |pages| && pages[i].Tuples?
  }

  /** The elements kept from a page: extractable, with a link outside
      `known`, in page order, repeats included. */
  function Fresh(known: set<string>, page: Page): (kept: seq<Element>)
    ensures |kept| <= |page|
    decreases |page|
  {
    if |page| == 0 then []
    else
      var n := |page| - 1;
      var e := page[n];
      Fresh(known, page[..n]) + (if Extractable(e) && e.link !in known then [e] else [])
  }

  /** An element is kept exactly when it is on the page, extractable, and
      its link is not known. */
  lemma {:induction false} FreshMember(known: set<string>, page: Page, e: Element)
    ensures e in Fresh(known, page) <==> e in page && Extractable(e) && e.link !in known
    decreases |page|
  {
    if page != [] {
      var n := |page| - 1;
      FreshMember(known, page[..n], e);
      assert page == page[..n] + [page[n]];
    }
  }

  /** How many extractable elements of a page carry a known link. */
  function SkipCount(known: set<string>, page: Page): nat
    decreases |page|
  {
    if |page| == 0 then 0
    else
      var n := |page| - 1;
      SkipCount(known, page[..n]) + (if Extractable(page[n]) && page[n].link in known then 1 else 0)
  }

  /** The links kept from the first `n` pages, page after page. */
  function FreshAll(known: set<string>, pages: seq<PageState>, n: nat): (kept: seq<Element>)
    requires n <= |pages|
    decreases n
  {
    if n == 0 then [] else FreshAll(known, pages, n - 1) + Fresh(known, TitlesOf(pages[n - 1]))
  }

  /** How many elements of a page survive extraction. */
  function ExtractableCount(page: Page): nat
    decreases |page|
  {
    if |page| == 0 then 0
    else ExtractableCount(page[..|page| - 1]) + (if Extractable(page[|page| - 1]) then 1 else 0)
  }

  /** Every extractable element is either skipped or kept, never both. */
  lemma {:induction false} FreshOrSkipped(known: set<string>, page: Page)
    ensures |Fresh(known, page)| + SkipCount(known, page) == ExtractableCount(page)
    decreases |page|
  {
    if page != [] {
      FreshOrSkipped(known, page[..|page| - 1]);
    }
  }

  /** Every element kept from a page is extractable and has an unknown link. */
  lemma KeptAreNew(known: set<string>, page: Page)
    ensures forall e :: e in Fresh(known, page) ==> Extractable(e) && e.link !in known
  {
    forall e | e in Fresh(known, page) ensures Extractable(e) && e.link !in known {
      FreshMember(known, page, e);
    }
  }

  /** Every element kept from a run of pages is extractable and has an
      unknown link. */
  lemma {:induction false} AllKeptAreNew(known: set<string>, pages: seq<PageState>, n: nat)
    requires n <= |pages|
    ensures forall e :: e in FreshAll(known, pages, n) ==> Extractable(e) && e.link !in known
    decreases n
  {
    if n > 0 {
      AllKeptAreNew(known, pages, n - 1);
      KeptAreNew(known, TitlesOf(pages[n - 1]));
    }
  }

  /** Filtering one more element appends it when it is kept. */
  lemma FreshSnoc(known: set<string>, p: Page, e: Element)
    ensures Fresh(known, p + [e]) ==
            Fresh(known, p) + (if Extractable(e) && e.link !in known then [e] else [])
  {
    assert (p + [e])[..|p|] == p;
  }

  /** The filter looks at each element alone, against a fixed set of known
      links: filtering two runs of elements is filtering each in turn, so a
      new link that occurs twice is kept twice. */
  lemma {:induction false} FreshAppend(known: set<string>, a: Page, b: Page)
    ensures Fresh(known, a + b) == Fresh(known, a) + Fresh(known, b)
    decreases |b|
  {
    if b == [] {
      assert a + b == a;
    } else {
      var n := |b| - 1;
      var x := b[n];
      var tail := if Extractable(x) && x.link !in known then [x] else [];
      calc {
        Fresh(known, a + b);
        { assert a + b == (a + b[..n]) + [x]; }
        Fresh(known, (a + b[..n]) + [x]);
        { FreshSnoc(known, a + b[..n], x); }
        Fresh(known, a + b[..n]) + tail;
        { FreshAppend(known, a, b[..n]); }
        Fresh(known, a) + Fresh(known, b[..n]) + tail;
        { FreshSnoc(known, b[..n], x); assert b[..n] + [x] == b; }
        Fresh(known, a) + Fresh(known, b);
      }
    }
  }

  /** The links of a run of elements, in order. */
  function LinksOf(es: seq<Element>): (links: seq<string>)
    ensures |links| == |es|
  {
    seq(|es|, i requires 0 <= i < |es| => es[i].link)
  }

  /** The `[job_link]` rows the scrapers collect in `data`. */
  function LinkRows(es: seq<Element>): (t: Table)
    ensures |t| == |es|
  {
    SingleFieldRows(LinksOf(es))
  }

  lemma LinkRowsAppend(es: seq<Element>, e: Element)
    ensures LinkRows(es + [e]) == LinkRows(es) + [[e.link]]
  {
    assert LinksOf(es + [e]) == LinksOf(es) + [e.link];
    SingleFieldRowsAppend(LinksOf(es), e.link);
  }

  lemma LinkRowsConcat(a: seq<Element>, b: seq<Element>)
    ensures LinkRows(a + b) == LinkRows(a) + LinkRows(b)
  {
    assert LinksOf(a + b) == LinksOf(a) + LinksOf(b);
    SingleFieldRowsConcat(LinksOf(a), LinksOf(b));
  }
}
