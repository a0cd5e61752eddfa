/**
 * The pagination arithmetic of the dataset list (src/components/DatasetList.jsx):
 * ten datasets per page, the slice a page shows, the number of pages, the
 * "Showing a-b of n" range, the window of at most five page buttons and the
 * Previous / Next buttons. The current page is React state, passed in.
 */
module DatasetPaging {
  import opened Sequences

  const PerPage: nat := 10
  const MaxButtons: nat := 5

  /** `datasets.slice(indexOfFirstDataset, indexOfLastDataset)` for page `page`. */
  function PageSlice<T>(ds: seq<T>, page: int): (r: seq<T>)
    ensures |r| <= PerPage
  {
    var last := page * PerPage;
    var first := last - PerPage;
    var r := JsSlice(ds, first, last);
    assert |r| <= PerPage by {
      var a, b := SliceIndex(|ds|, first), SliceIndex(|ds|, last);
      assert a < b ==> b - a <= PerPage;
    }
    r
  }

  /** `Math.ceil(datasets.length / datasetsPerPage)`. */
  function TotalPages(n: nat): nat
  {
    CeilDiv(n, PerPage)
  }

  /**
   * The pages in range are the consecutive groups of ten: each is non-empty, they
   * concatenate back to the list, and a page past the last shows nothing.
   */
  lemma PagesCover<T>(ds: seq<T>, page: int)
    ensures 1 <= page <= TotalPages(|ds|) ==>
      page - 1 < |Batches(ds, PerPage)| && PageSlice(ds, page) == Batches(ds, PerPage)[page - 1] && PageSlice(ds, page) != []
    ensures page > TotalPages(|ds|) ==> PageSlice(ds, page) == []
    ensures |Batches(ds, PerPage)| == TotalPages(|ds|) && Flatten(Batches(ds, PerPage)) == ds
  {
    BatchesShape(ds, PerPage);
    CeilDivBounds(|ds|, PerPage);
    if 1 <= page <= TotalPages(|ds|) {
      BatchAt(ds, PerPage, page - 1);
      assert (page - 1) * PerPage == page * PerPage - PerPage;
    }
    if page > TotalPages(|ds|) {
      var t := TotalPages(|ds|);
      assert t * PerPage >= |ds|;
      assert (page - 1) * PerPage >= t * PerPage;
    }
  }

  /** The summary line "Showing first+1 - min(last, n) of n". */
  function Summary(n: nat, page: int): (range: (int, int))
  {
    var last := page * PerPage;
    var first := last - PerPage;
    (first + 1, if last < n then last else n)
  }

  /** For a page in range, the summary names a non-empty range of the list, as long as the slice shown. */
  lemma SummaryMatchesSlice<T>(ds: seq<T>, page: int)
    requires 1 <= page <= TotalPages(|ds|)
    ensures var (from, to) := Summary(|ds|, page);
      1 <= from <= to <= |ds| && to - from + 1 == |PageSlice(ds, page)|
  {
    var t := TotalPages(|ds|);
    CeilDivBounds(|ds|, PerPage);
    assert (t - 1) * PerPage < |ds|;
    assert (page - 1) * PerPage <= (t - 1) * PerPage;
  }

  /** The number shown on button `index` (0-based) of the window. */
  function PageNumber(totalPages: int, currentPage: int, index: int): int
  {
    if totalPages <= MaxButtons then index + 1
    else if currentPage <= 3 then index + 1
    else if currentPage >= totalPages - 2 then totalPages - 4 + index
    else currentPage - 2 + index
  }

  /** `[...Array(Math.min(totalPages, 5))].map(...)`: the numbers of the page buttons. */
  function PageButtons(totalPages: nat, currentPage: int): (bs: seq<int>)
    ensures |bs| == if totalPages < MaxButtons then totalPages else MaxButtons
  {
    var count := if totalPages < MaxButtons then totalPages else MaxButtons;
    seq(count, i requires 0 <= i < count => PageNumber(totalPages, currentPage, i))
  }

  /** Pagination is shown only when there is more than one page. */
  predicate ShowPagination(totalPages: nat) { totalPages > 1 }

  predicate PrevDisabled(currentPage: int) { currentPage == 1 }

  predicate NextDisabled(currentPage: int, totalPages: nat) { currentPage == totalPages }

  /**
   * With at most five pages the buttons are 1..totalPages; for a current page in
   * range they are consecutive ascending page numbers in range, and the current
   * page is among them.
   */
  lemma ButtonsWindow(totalPages: nat, currentPage: int)
    ensures var bs := PageButtons(totalPages, currentPage);
      && (totalPages <= MaxButtons ==> forall i :: 0 <= i < |bs| ==> bs[i] == i + 1)
      && (1 <= currentPage <= totalPages ==>
            && (forall i :: 0 <= i < |bs| ==> 1 <= bs[i] <= totalPages)
            && (forall i :: 0 <= i < |bs| - 1 ==> bs[i + 1] == bs[i] + 1)
            && currentPage in bs)
  {
    var bs := PageButtons(totalPages, currentPage);
    if 1 <= currentPage <= totalPages {
      var i := if totalPages <= MaxButtons || currentPage <= 3 then currentPage - 1
               else if currentPage >= totalPages - 2 then currentPage - totalPages + 4
               else 2;
      assert 0 <= i < |bs| && bs[i] == currentPage;
    }
  }

  /**
   * From a page in range, the enabled Previous and Next buttons and every page
   * button lead to a page in range.
   */
  lemma NavigationStaysInRange(totalPages: nat, currentPage: int)
    requires 1 <= currentPage <= totalPages
    ensures !PrevDisabled(currentPage) ==> 1 <= currentPage - 1 <= totalPages
    ensures !NextDisabled(currentPage, totalPages) ==> 1 <= currentPage + 1 <= totalPages
    ensures forall b :: b in PageButtons(totalPages, currentPage) ==> 1 <= b <= totalPages
  {
    ButtonsWindow(totalPages, currentPage);
  }
}
