/** Paging through the whole dataset (`fetch_all_records`). */
module Pagination {
  import opened Api
  import opened Retry

  /** The offset of the `i`-th page requested (0-based). */
  function PageOffset(i: nat): nat
  {
    i * PAGE_SIZE
  }

  /** The offsets of the first `n` requests, in request order: 0,
      `PAGE_SIZE`, `2 * PAGE_SIZE`, ... */
  function RequestedOffsets(n: nat): seq<nat>
  {
    if n == 0 then [] else RequestedOffsets(n - 1) + [PageOffset(n - 1)]
  }

  /** The `i`-th request is for offset `i * PAGE_SIZE`, and each requested
      offset is larger than the one before, so no offset is requested twice. */
  lemma {:induction false} RequestedOffsetsIncrease(n: nat)
    ensures |RequestedOffsets(n)| == n
    ensures forall i :: 0 <= i < n ==> RequestedOffsets(n)[i] == i * PAGE_SIZE
    ensures forall i, j :: 0 <= i < j < n ==> RequestedOffsets(n)[i] < RequestedOffsets(n)[j]
  {
    if n > 0 {
      RequestedOffsetsIncrease(n - 1);
    }
  }

  /** The records of `pages`, page after page, in request order. */
  function Flatten(pages: seq<Page>): seq<Record>
  {
    if pages == [] then [] else Flatten(pages[..|pages| - 1]) + pages[|pages| - 1].records
  }

  /** After page `i` the loop goes on: the page was full and the records
      gathered so far are still fewer than the total the FIRST page reported. */
  ghost predicate Continues(pages: seq<Page>, i: nat)
    requires i < |pages|
  {
    |pages[i].records| >= PAGE_SIZE && |Flatten(pages[..i + 1])| < pages[0].total
  }

  /** Page `i` was requested at offset `i * PAGE_SIZE` and came back as `pages[i]`. */
  ghost predicate FetchedInOrder(net: Network, pages: seq<Page>)
  {
    forall i :: 0 <= i < |pages| ==> FetchPage(net, PageOffset(i), 0) == Ok(pages[i])
  }

  /** The pages fetched so far, none of which ended the loop. */
  ghost predicate PartialRun(net: Network, pages: seq<Page>)
  {
    FetchedInOrder(net, pages) && forall i :: 0 <= i < |pages| ==> Continues(pages, i)
  }

  /** A run that ended normally: every page but the last let the loop go on,
      and the last one stopped it. */
  ghost predicate CompleteRun(net: Network, pages: seq<Page>)
  {
    |pages| > 0 && FetchedInOrder(net, pages) &&
    (forall i :: 0 <= i < |pages| - 1 ==> Continues(pages, i)) &&
    !Continues(pages, |pages| - 1)
  }

  /** A run that ended with the exception of the page after `pages`. */
  ghost predicate FailedRun(net: Network, pages: seq<Page>, e: FetchError)
  {
    PartialRun(net, pages) && FetchPage(net, PageOffset(|pages|), 0) == Err(e)
  }

  /** The most pages a run may take for a reported total: at least one, and
      otherwise the total divided by the page size, rounded up. */
  function MaxPages(total: int): nat
  {
    if total <= PAGE_SIZE then 1 else (total + PAGE_SIZE - 1) / PAGE_SIZE
  }

  /** `fetch_all_records`: requests offsets 0, `PAGE_SIZE`, `2 * PAGE_SIZE`, ...
      one page at a time, takes the total from the first page, appends every
      page's records, and stops after a short page or once the count reaches
      the total. An exception from `fetch_page` ends the loop and is returned.
      `pages` holds the pages that came back and `offsets` every offset requested. */
  method FetchAllRecords(net: Network) returns (r: Result<seq<Record>>, ghost pages: seq<Page>, ghost offsets: seq<nat>)
    ensures r.Ok? ==> CompleteRun(net, pages) && r.value == Flatten(pages)
    ensures r.Ok? ==> |pages| <= MaxPages(pages[0].total)
    ensures r.Ok? ==> FetchPage(net, 0, 0).Ok? && FetchPage(net, 0, 0).value.records <= r.value
    ensures r.Err? ==> FailedRun(net, pages, r.error)
    ensures offsets == RequestedOffsets(|pages| + if r.Err? then 1 else 0)
  {
    var allRecords: seq<Record> := [];
    var offset: nat := 0;
    var total: Option<int> := None;
    pages, offsets := [], [];
    while true
      invariant PartialRun(net, pages)
      invariant allRecords == Flatten(pages)
      invariant offset == PageOffset(|pages|)
      invariant total == if pages == [] then None else Some(pages[0].total)
      invariant offsets == RequestedOffsets(|pages|)
      decreases if total.None? then 1 else 0, if total.Some? then total.value - |allRecords| else 0
    {
      var result := FetchPage(net, offset, 0);
      offsets := offsets + [offset];
      assert offsets == RequestedOffsets(|pages| + 1);
      if result.Err? {
        r := Err(result.error);
        return;
      }
      var records := result.value.records;
      if total.None? {
        total := Some(result.value.total);
      }
      PartialRunExtend(net, pages, result.value);
      allRecords := allRecords + records;
      pages := pages + [result.value];
      if |records| < PAGE_SIZE || |allRecords| >= total.value {
        r := Ok(allRecords);
        PagesBound(net, pages);
        EmptyIffFirstPageEmpty(net, pages);
        FlattenHasFirstPage(pages);
        return;
      }
      offset := offset + PAGE_SIZE;
    }
  }

  /** Appending the next fetched page: the earlier pages keep their facts,
      the total stays the first page's, and the new page either lets the
      loop go on or completes the run. */
  lemma PartialRunExtend(net: Network, pages: seq<Page>, page: Page)
    requires PartialRun(net, pages)
    requires FetchPage(net, PageOffset(|pages|), 0) == Ok(page)
    ensures Flatten(pages + [page]) == Flatten(pages) + page.records
    ensures (pages + [page])[0].total == if pages == [] then page.total else pages[0].total
    ensures |page.records| < PAGE_SIZE || |Flatten(pages) + page.records| >= (pages + [page])[0].total
      ==> CompleteRun(net, pages + [page])
    ensures !(|page.records| < PAGE_SIZE || |Flatten(pages) + page.records| >= (pages + [page])[0].total)
      ==> PartialRun(net, pages + [page])
  {
    var next := pages + [page];
    assert next[..|pages|] == pages;
    forall i | 0 <= i < |next|
      ensures FetchPage(net, PageOffset(i), 0) == Ok(next[i])
    {
      if i < |pages| {
        assert next[i] == pages[i];
      }
    }
    forall i | 0 <= i < |pages|
      ensures Continues(next, i)
    {
      ContinuesOfPrefix(pages, next, i);
    }
    assert next[..|pages| + 1] == next;
  }

  /** Whether the loop went on after page `i` does not change when pages
      are appended after it. */
  lemma ContinuesOfPrefix(pages: seq<Page>, next: seq<Page>, i: nat)
    requires i < |pages| <= |next| && pages == next[..|pages|]
    ensures Continues(next, i) == Continues(pages, i)
  {
    assert next[..i + 1] == pages[..i + 1];
    assert next[i] == pages[i] && next[0] == pages[0];
  }

  /** Every page but the last was full, so the records before page `k`
      number at least `k * PAGE_SIZE`. */
  lemma {:induction false} FullPagesCount(pages: seq<Page>, k: nat)
    requires k <= |pages|
    requires forall i :: 0 <= i < k ==> |pages[i].records| >= PAGE_SIZE
    ensures |Flatten(pages[..k])| >= k * PAGE_SIZE
  {
    if k > 0 {
      FullPagesCount(pages, k - 1);
      assert pages[..k][..k - 1] == pages[..k - 1];
    }
  }

  /** A run takes at most `MaxPages(total)` pages: each page before the last
      was full and left the count below the total. */
  lemma PagesBound(net: Network, pages: seq<Page>)
    requires CompleteRun(net, pages)
    ensures |pages| <= MaxPages(pages[0].total)
  {
    var n := |pages|;
    if n >= 2 {
      assert Continues(pages, n - 2);
      forall i | 0 <= i < n - 1
        ensures |pages[i].records| >= PAGE_SIZE
      {
        assert Continues(pages, i);
      }
      FullPagesCount(pages, n - 1);
      var total := pages[0].total;
      assert (n - 1) * PAGE_SIZE < total;
      var q := (total + PAGE_SIZE - 1) / PAGE_SIZE;
      assert q * PAGE_SIZE >= total;
    }
  }

  /** Pages fetched in order from one network agree on their common prefix. */
  lemma FetchedPrefix(net: Network, pages: seq<Page>, longer: seq<Page>)
    requires FetchedInOrder(net, pages) && FetchedInOrder(net, longer) && |pages| <= |longer|
    ensures pages == longer[..|pages|]
  {
    forall i | 0 <= i < |pages|
      ensures pages[i] == longer[i]
    {
      assert Ok(pages[i]) == FetchPage(net, PageOffset(i), 0) == Ok(longer[i]);
    }
  }

  /** The run is determined by the network: two complete runs agree. */
  lemma CompleteRunUnique(net: Network, pages: seq<Page>, pages': seq<Page>)
    requires CompleteRun(net, pages) && CompleteRun(net, pages')
    ensures pages == pages'
  {
    var n, n' := |pages|, |pages'|;
    if n < n' {
      FetchedPrefix(net, pages, pages');
      ContinuesOfPrefix(pages, pages', n - 1);
      assert false;
    } else if n' < n {
      FetchedPrefix(net, pages', pages);
      ContinuesOfPrefix(pages', pages, n' - 1);
      assert false;
    } else {
      FetchedPrefix(net, pages, pages');
      assert pages'[..n'] == pages';
    }
  }

  /** A failed run is determined by the network too: two failed runs have
      the same pages and end with the same error. */
  lemma FailedRunUnique(net: Network, pages: seq<Page>, pages': seq<Page>, e: FetchError, e': FetchError)
    requires FailedRun(net, pages, e) && FailedRun(net, pages', e')
    ensures pages == pages' && e == e'
  {
    var n, n' := |pages|, |pages'|;
    if n < n' {
      assert false;
    } else if n' < n {
      assert false;
    } else {
      FetchedPrefix(net, pages, pages');
      assert pages'[..n'] == pages';
    }
  }

  /** A run that failed after receiving pages made at most `MaxPages` requests
      for the first page's total, the failing one included. */
  lemma FailedRunRequestsBound(net: Network, pages: seq<Page>, e: FetchError)
    requires FailedRun(net, pages, e) && pages != []
    ensures |pages| + 1 <= MaxPages(pages[0].total)
  {
    var n := |pages|;
    forall i | 0 <= i < n
      ensures |pages[i].records| >= PAGE_SIZE
    {
      assert Continues(pages, i);
    }
    FullPagesCount(pages, n);
    assert pages[..n] == pages;
    assert Continues(pages, n - 1);
    var total := pages[0].total;
    assert n * PAGE_SIZE < total;
    assert (n + 1) * PAGE_SIZE <= total + PAGE_SIZE - 1;
  }

  /** Flattening looks only at each page's records. */
  lemma {:induction false} FlattenRecordsOnly(pages: seq<Page>, pages': seq<Page>)
    requires |pages| == |pages'|
    requires forall i :: 0 <= i < |pages| ==> pages[i].records == pages'[i].records
    ensures Flatten(pages) == Flatten(pages')
  {
    if pages != [] {
      FlattenRecordsOnly(pages[..|pages| - 1], pages'[..|pages'| - 1]);
    }
  }

  /** Only the first page's total matters: pages with the same records and
      the same first page decide the loop alike, whatever totals the later
      pages report. */
  lemma {:induction false} LaterTotalsIgnored(pages: seq<Page>, pages': seq<Page>)
    requires |pages| == |pages'| && |pages| > 0 && pages[0] == pages'[0]
    requires forall i :: 0 <= i < |pages| ==> pages[i].records == pages'[i].records
    ensures Flatten(pages) == Flatten(pages')
    ensures forall i :: 0 <= i < |pages| ==> Continues(pages, i) == Continues(pages', i)
  {
    FlattenRecordsOnly(pages, pages');
    forall i | 0 <= i < |pages|
      ensures Continues(pages, i) == Continues(pages', i)
    {
      FlattenRecordsOnly(pages[..i + 1], pages'[..i + 1]);
    }
  }

  /** A run either ends normally or with an exception, never both. */
  lemma CompleteRunExcludesFailure(net: Network, pages: seq<Page>, pages': seq<Page>, e: FetchError)
    requires CompleteRun(net, pages)
    ensures !FailedRun(net, pages', e)
  {
    if FailedRun(net, pages', e) {
      if |pages| <= |pages'| {
        FetchedPrefix(net, pages, pages');
        ContinuesOfPrefix(pages, pages', |pages| - 1);
        assert false;
      } else {
        assert false;
      }
    }
  }

  /** The result is empty exactly when the first page, the one at offset 0,
      came back empty. */
  lemma EmptyIffFirstPageEmpty(net: Network, pages: seq<Page>)
    requires CompleteRun(net, pages)
    ensures FetchPage(net, 0, 0) == Ok(pages[0])
    ensures Flatten(pages) == [] <==> pages[0].records == []
  {
    assert PageOffset(0) == 0;
    if pages[0].records == [] {
      assert pages[..1] == [pages[0]];
      assert !Continues(pages, 0);
      assert |pages| == 1;
    } else {
      FlattenHasFirstPage(pages);
    }
  }

  /** A run that failed after some pages had a full first page. */
  lemma FailedRunFirstPageFull(net: Network, pages: seq<Page>, e: FetchError)
    requires FailedRun(net, pages, e)
    ensures FetchPage(net, 0, 0).Err? || |FetchPage(net, 0, 0).value.records| >= PAGE_SIZE
  {
    assert PageOffset(0) == 0;
    if pages != [] {
      assert Continues(pages, 0);
    }
  }

  /** The first page's records come first in the flattened result. */
  lemma {:induction false} FlattenHasFirstPage(pages: seq<Page>)
    requires |pages| > 0
    ensures |Flatten(pages)| >= |pages[0].records|
    ensures Flatten(pages)[..|pages[0].records|] == pages[0].records
  {
    if |pages| > 1 {
      FlattenHasFirstPage(pages[..|pages| - 1]);
    } else {
      assert pages[..0] == [];
    }
  }
}
