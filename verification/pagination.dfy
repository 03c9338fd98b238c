/** The pagination arithmetic shared, word for word, by the sample overview,
    the population-frequency table and the filtered-sample table: the page
    count, the slice shown for the current page, and the Previous, Next and
    typed-page controls that compute the next page number. */
module Pagination {
  import opened Wrappers
  import opened NumberParsing
  import Text

  function Min(a: int, b: int): int { if a <= b then a else b }

  function Max(a: int, b: int): int { if a >= b then a else b }

  /** `Math.ceil(a / b)` for a non-negative numerator. */
  function CeilDiv(a: nat, b: nat): (q: nat)
    requires b > 0
    ensures a <= q * b
    ensures q > 0 ==> (q - 1) * b < a
  {
    var q := (a + b - 1) / b;
    assert q * b + (a + b - 1) % b == a + b - 1;
    q
  }

  /** `Math.max(1, Math.ceil(length / pageSize))`. */
  function TotalPages(length: nat, pageSize: nat): nat
    requires pageSize > 0
  {
    Max(1, CeilDiv(length, pageSize))
  }

  /** The page count is the least number of pages of `pageSize` rows that
      hold `length` rows, and never less than one. */
  lemma TotalPagesBounds(length: nat, pageSize: nat)
    requires pageSize > 0
    ensures TotalPages(length, pageSize) >= 1
    ensures length == 0 ==> TotalPages(length, pageSize) == 1
    ensures length <= TotalPages(length, pageSize) * pageSize
    ensures length > 0 ==> (TotalPages(length, pageSize) - 1) * pageSize < length
  {
  }

  /** The index normalisation of `Array.prototype.slice`: a negative index
      counts from the end, and the result is clamped to the sequence. */
  function SliceIndex(i: int, length: nat): (r: nat)
    ensures r <= length
    ensures 0 <= i <= length ==> r == i
    ensures i > length ==> r == length
  {
    if i < 0 then (if length + i < 0 then 0 else length + i)
    else if i > length then length
    else i
  }

  /** `items.slice(start, end)`. */
  function JsSlice<T>(items: seq<T>, start: int, end: int): seq<T>
  {
    var a, b := SliceIndex(start, |items|), SliceIndex(end, |items|);
    if a < b then items[a..b] else []
  }

  /** `(page - 1) * pageSize`, the absolute index of a page's first row. */
  function PageStart(page: int, pageSize: nat): (start: int)
    ensures page >= 1 ==> start >= 0
  {
    (page - 1) * pageSize
  }

  /** `items.slice(start, start + pageSize)`, the rows shown on `page`. For
      every page from 1 on, they are the rows from the page's start up to
      `pageSize` further, clipped to the sequence, and row `i` of the page is
      row `start + i` of `items`. */
  function PageData<T>(items: seq<T>, page: int, pageSize: nat): (r: seq<T>)
    requires pageSize > 0
    ensures page >= 1 ==> |r| <= pageSize
    ensures page >= 1 ==>
      r == items[Min(PageStart(page, pageSize), |items|)..Min(PageStart(page, pageSize) + pageSize, |items|)]
    ensures page >= 1 ==>
      forall i :: 0 <= i < |r| ==> PageStart(page, pageSize) + i < |items| && r[i] == items[PageStart(page, pageSize) + i]
  {
    var start := PageStart(page, pageSize);
    JsSlice(items, start, start + pageSize)
  }

  lemma MulMonotone(a: int, b: int, c: nat)
    requires a <= b
    ensures a * c <= b * c
  {
  }

  /** A page past the last one shows nothing. */
  lemma PageBeyondLastIsEmpty<T>(items: seq<T>, page: int, pageSize: nat)
    requires pageSize > 0
    requires page > TotalPages(|items|, pageSize)
    ensures PageData(items, page, pageSize) == []
  {
    TotalPagesBounds(|items|, pageSize);
    MulMonotone(TotalPages(|items|, pageSize), page - 1, pageSize);
  }

  /** A page in range shows `min(pageSize, length - start)` rows, and is empty
      only when there are no rows at all. */
  lemma PageInRangeLength<T>(items: seq<T>, page: int, pageSize: nat)
    requires pageSize > 0
    requires 1 <= page <= TotalPages(|items|, pageSize)
    ensures |PageData(items, page, pageSize)| == Min(pageSize, |items| - PageStart(page, pageSize))
    ensures PageData(items, page, pageSize) == [] <==> |items| == 0
  {
    TotalPagesBounds(|items|, pageSize);
    MulMonotone(page - 1, TotalPages(|items|, pageSize) - 1, pageSize);
  }

  /** Pages 1 to `k`, concatenated in order. */
  function PagesUpTo<T>(items: seq<T>, pageSize: nat, k: nat): seq<T>
    requires pageSize > 0
  {
    if k == 0 then [] else PagesUpTo(items, pageSize, k - 1) + PageData(items, k, pageSize)
  }

  /** The first `k` pages together are the first `k * pageSize` rows. */
  lemma {:induction false} PagesUpToIsPrefix<T>(items: seq<T>, pageSize: nat, k: nat)
    requires pageSize > 0
    ensures PagesUpTo(items, pageSize, k) == items[..Min(k * pageSize, |items|)]
  {
    if k > 0 {
      var start := (k - 1) * pageSize;
      PagesUpToIsPrefix(items, pageSize, k - 1);
      assert start + pageSize == k * pageSize;
      assert PageStart(k, pageSize) == start;
      var a, b := Min(start, |items|), Min(start + pageSize, |items|);
      assert PageData(items, k, pageSize) == items[a..b];
      assert items[..a] + items[a..b] == items[..b];
    }
  }

  /** The pages partition the rows: pages 1 to the page count, concatenated
      in order, give back exactly the whole sequence. */
  lemma PagesPartition<T>(items: seq<T>, pageSize: nat)
    requires pageSize > 0
    ensures PagesUpTo(items, pageSize, TotalPages(|items|, pageSize)) == items
  {
    PagesUpToIsPrefix(items, pageSize, TotalPages(|items|, pageSize));
    TotalPagesBounds(|items|, pageSize);
  }

  /** The Previous button: `Math.max(1, page - 1)`. */
  function PreviousPage(page: int): int {
    Max(1, page - 1)
  }

  /** The Next button: `Math.min(totalPages, page + 1)`. */
  function NextPage(page: int, totalPages: int): int {
    Min(totalPages, page + 1)
  }

  predicate PreviousDisabled(page: int) {
    page == 1
  }

  predicate NextDisabled(page: int, totalPages: int) {
    page == totalPages
  }

  /** From a page in range, Previous and Next stay in range; each button
      leaves the page where it is exactly when it is disabled, and otherwise
      the other button undoes it. */
  lemma NavigationStaysInRange(page: int, totalPages: int)
    requires 1 <= page <= totalPages
    ensures 1 <= PreviousPage(page) <= totalPages
    ensures 1 <= NextPage(page, totalPages) <= totalPages
    ensures PreviousPage(page) == page <==> PreviousDisabled(page)
    ensures NextPage(page, totalPages) == page <==> NextDisabled(page, totalPages)
    ensures !PreviousDisabled(page) ==> NextPage(PreviousPage(page), totalPages) == page
    ensures !NextDisabled(page, totalPages) ==> PreviousPage(NextPage(page, totalPages)) == page
  {
  }

  /** The page-number input: `parseInt(text, 10) || 1`, then clamped into
      `[1, totalPages]`. */
  function TypedPage(text: string, totalPages: int): int {
    Min(Max(1, ParseIntOr(text, 1)), totalPages)
  }

  /** Whatever is typed, the page lands in `[1, totalPages]`: an unreadable
      number or 0 goes to page 1, a number below 1 to the first page, a number
      past the end to the last page, and a number in range is kept. */
  lemma TypedPageClamps(text: string, totalPages: int)
    requires totalPages >= 1
    ensures 1 <= TypedPage(text, totalPages) <= totalPages
    ensures ParseInt(text) == None || ParseInt(text) == Some(0) ==> TypedPage(text, totalPages) == 1
    ensures forall v :: ParseInt(text) == Some(v) && v < 1 ==> TypedPage(text, totalPages) == 1
    ensures forall v :: ParseInt(text) == Some(v) && v > totalPages ==> TypedPage(text, totalPages) == totalPages
    ensures forall v :: ParseInt(text) == Some(v) && 1 <= v <= totalPages ==> TypedPage(text, totalPages) == v
  {
  }

  /** Typing the decimal numeral of a page in range selects that page. */
  lemma TypedPageOfNumeral(page: int, totalPages: int)
    requires 1 <= page <= totalPages
    ensures TypedPage(Text.IntToString(page), totalPages) == page
  {
    ParseIntRoundTrip(page);
  }
}
