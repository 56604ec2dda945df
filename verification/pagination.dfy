/** The page numbers the pagination bar computes before handing them to the
    table's navigation: the readout, the "go to page" box, the first/last
    buttons, and the offered page sizes. The navigation itself (clamping,
    slicing) belongs to the table library and is not modelled. */
module Pagination {

  /** What the numeric "go to page" box holds: nothing, or a whole number. */
  datatype Entry = Blank | Typed(n: int)

  /** The 1-based page number shown for a 0-based page index, in the
      "Page X of Y" readout and as the box's initial value. */
  function PageLabel(pageIndex: int): int
  {
    pageIndex + 1
  }

  /** The index the box passes to `gotoPage`: a blank entry goes to index 0,
      an entry `n` to `n - 1`, with no bounds check. */
  function GotoPageIndex(entry: Entry): (r: int)
    ensures entry.Typed? ==> PageLabel(r) == entry.n
    ensures r == 0 <==> (entry == Blank || entry == Typed(1))
  {
    match entry
    case Blank => 0
    case Typed(n) => n - 1
  }

  /** The "<<" button's target. */
  function FirstPageIndex(): int
  {
    0
  }

  /** The ">>" button's target. */
  function LastPageIndex(pageCount: int): (r: int)
    ensures PageLabel(r) == pageCount
  {
    pageCount - 1
  }

  /** The page sizes the selector offers, in order. */
  function PageSizeOptions(): (r: seq<int>)
    ensures |r| == 5
    ensures forall i :: 0 <= i < |r| ==> r[i] == 10 * (i + 1)
  {
    [10, 20, 30, 40, 50]
  }

  /** Typing the number the readout shows goes back to the same page, and every
      index, in range or not, is reachable from some entry. */
  lemma GotoLabelRoundTrip(pageIndex: int)
    ensures GotoPageIndex(Typed(PageLabel(pageIndex))) == pageIndex
  {
  }

  /** The first page button, a blank box and the entry "1" all go to the page
      labelled 1; the last page button goes to the page labelled `pageCount`. */
  lemma FirstAndLast(pageCount: int)
    ensures FirstPageIndex() == GotoPageIndex(Blank) == GotoPageIndex(Typed(1))
    ensures PageLabel(FirstPageIndex()) == 1
    ensures LastPageIndex(pageCount) == GotoPageIndex(Typed(pageCount))
  {
  }

  /** Each offered size is also its option's React key, so the keys of the
      selector's options are pairwise distinct. */
  lemma PageSizeKeysDistinct()
    ensures forall i, j :: 0 <= i < |PageSizeOptions()| && 0 <= j < |PageSizeOptions()| && i != j
              ==> PageSizeOptions()[i] != PageSizeOptions()[j]
  {
  }
}
