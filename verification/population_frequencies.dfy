/** The population-frequency table: one page of frequency rows, each
    decorated by a border rule that marks the end of every group of five rows
    (one sample's five cell populations) by the row's absolute index. */
module PopulationFrequencies {
  import opened Domain
  import opened Pagination

  datatype RowBorder = GroupBorder | ThinBorder | NoBorder

  /** `(absoluteIndex + 1) % 5 === 0`. JavaScript's `%` truncates where
      Dafny's is Euclidean, but the two agree on whether the remainder is 0. */
  predicate EndsGroup(absoluteIndex: int) {
    (absoluteIndex + 1) % 5 == 0
  }

  /** The border of the row at position `index` of a page of `pageLength`
      rows whose first row has absolute index `start`. */
  function BorderOf(start: int, index: nat, pageLength: nat): RowBorder {
    if EndsGroup(start + index) then GroupBorder
    else if index < pageLength - 1 then ThinBorder
    else NoBorder
  }

  /** A row has the group border exactly when its absolute index ends a
      group of five; otherwise it has the thin border exactly when it is not
      the last row of its page. */
  lemma BorderRule(start: int, index: nat, pageLength: nat)
    requires index < pageLength
    ensures BorderOf(start, index, pageLength) == GroupBorder <==> EndsGroup(start + index)
    ensures BorderOf(start, index, pageLength) == ThinBorder <==> !EndsGroup(start + index) && index < pageLength - 1
    ensures BorderOf(start, index, pageLength) == NoBorder <==> !EndsGroup(start + index) && index == pageLength - 1
  {
  }

  /** The rows of `page` with their borders: row `i` shows the frequency at
      absolute index `start + i` and carries the border of that position. */
  function FrequencyRows(freqs: seq<Frequency>, page: int, pageSize: nat): (rows: seq<(Frequency, RowBorder)>)
    requires pageSize > 0
    ensures |rows| == |PageData(freqs, page, pageSize)|
    ensures page >= 1 ==> forall i :: 0 <= i < |rows| ==>
      PageStart(page, pageSize) + i < |freqs| && rows[i].0 == freqs[PageStart(page, pageSize) + i]
    ensures forall i :: 0 <= i < |rows| ==> rows[i].1 == BorderOf(PageStart(page, pageSize), i, |rows|)
  {
    var pageData := PageData(freqs, page, pageSize);
    var start := PageStart(page, pageSize);
    seq(|pageData|, i requires 0 <= i < |pageData| => (pageData[i], BorderOf(start, i, |pageData|)))
  }

  /** On any page from 1 on, the row at position `r` within the page shows
      the frequency at absolute index `start + r` whenever that index exists. */
  lemma RowOnPage(freqs: seq<Frequency>, pageSize: nat, page: int, r: nat)
    requires pageSize > 0 && page >= 1 && r < pageSize
    requires PageStart(page, pageSize) + r < |freqs|
    ensures var rows := FrequencyRows(freqs, page, pageSize);
      r < |rows|
      && rows[r].0 == freqs[PageStart(page, pageSize) + r]
      && (rows[r].1 == GroupBorder <==> EndsGroup(PageStart(page, pageSize) + r))
  {
    var start := PageStart(page, pageSize);
    var pageData := PageData(freqs, page, pageSize);
    assert pageData == freqs[start..Min(start + pageSize, |freqs|)];
    var rows := FrequencyRows(freqs, page, pageSize);
    assert r < |rows|;
    BorderRule(start, r, |rows|);
  }

  /** Every frequency is shown on page `k / pageSize + 1` at position
      `k % pageSize`, and it carries the group border there exactly when its
      absolute index `k` ends a group of five: the decision depends on the
      position in the whole table, never on the page. */
  lemma RowOfAbsoluteIndex(freqs: seq<Frequency>, pageSize: nat, k: nat)
    requires pageSize > 0
    requires k < |freqs|
    ensures var page := k / pageSize + 1;
      var rows := FrequencyRows(freqs, page, pageSize);
      page <= TotalPages(|freqs|, pageSize)
      && k % pageSize < |rows|
      && rows[k % pageSize].0 == freqs[k]
      && (rows[k % pageSize].1 == GroupBorder <==> EndsGroup(k))
  {
    var q, r := k / pageSize, k % pageSize;
    var page := q + 1;
    assert PageStart(page, pageSize) + r == k by {
      assert PageStart(page, pageSize) == q * pageSize;
    }
    var total := TotalPages(|freqs|, pageSize);
    TotalPagesBounds(|freqs|, pageSize);
    if total < page {
      MulMonotone(total, q, pageSize);
    }
    RowOnPage(freqs, pageSize, page, r);
  }
}
