/** The dictionaries of the baseline and filter summaries. Each is built by a
    comprehension over a grouped count query, `{key: cnt for r in cursor}`:
    a later row with the same key overwrites an earlier one. The response
    and sex summaries key a row by `r[...] or "unknown"`, so a missing or
    empty value is counted under "unknown"; the project summary keys a row
    by its project as it is. */
module SummaryKeys {
  import opened Wrappers
  import opened Domain

  /** One row of a grouped count query: the grouped column and its count. */
  datatype CountRow = CountRow(key: Option<string>, count: int)

  const Unknown: string := "unknown"

  /** `value or "unknown"`: `None` and "" are both falsy. */
  function SummaryKey(value: Option<string>): string {
    if value.None? || value.value == "" then Unknown else value.value
  }

  /** The values counted under "unknown": missing, empty, or "unknown"
      itself. */
  predicate CountedAsUnknown(value: Option<string>) {
    value.None? || value.value == "" || value.value == Unknown
  }

  /** Two different values share a summary key exactly when both are
      counted as unknown; any other value is its own key. */
  lemma SummaryKeyCollisions(a: Option<string>, b: Option<string>)
    ensures a != b && SummaryKey(a) == SummaryKey(b) <==> a != b && CountedAsUnknown(a) && CountedAsUnknown(b)
    ensures SummaryKey(a) == Unknown <==> CountedAsUnknown(a)
    ensures !CountedAsUnknown(a) ==> SummaryKey(a) == a.value
  {
  }

  /** A dictionary comprehension over keyed counts: the count of a key is
      that of the last pair with that key. */
  function Comprehension(pairs: seq<(string, int)>): map<string, int> {
    if pairs == [] then map[]
    else
      var last := pairs[|pairs| - 1];
      Comprehension(pairs[..|pairs| - 1])[last.0 := last.1]
  }

  /** The pairs of a summary query: each row under its summary key. */
  function Keyed(rows: seq<CountRow>): (pairs: seq<(string, int)>)
    ensures |pairs| == |rows|
    ensures forall i :: 0 <= i < |rows| ==> pairs[i] == (SummaryKey(rows[i].key), rows[i].count)
  {
    if rows == [] then [] else Keyed(rows[..|rows| - 1]) + [(SummaryKey(rows[|rows| - 1].key), rows[|rows| - 1].count)]
  }

  /** The keys of a comprehension are exactly the keys of its pairs. */
  lemma {:induction false} ComprehensionKeys(pairs: seq<(string, int)>)
    ensures forall k :: k in Comprehension(pairs) <==> exists i :: 0 <= i < |pairs| && pairs[i].0 == k
  {
    if pairs != [] {
      var init := pairs[..|pairs| - 1];
      ComprehensionKeys(init);
      forall k | k in Comprehension(pairs) ensures exists i :: 0 <= i < |pairs| && pairs[i].0 == k {
        if k != pairs[|pairs| - 1].0 {
          assert k in Comprehension(init);
          var i :| 0 <= i < |init| && init[i].0 == k;
          assert pairs[i] == init[i];
        }
      }
      forall k | exists i :: 0 <= i < |pairs| && pairs[i].0 == k ensures k in Comprehension(pairs) {
        var i :| 0 <= i < |pairs| && pairs[i].0 == k;
        if i < |init| {
          assert init[i] == pairs[i];
        }
      }
    }
  }

  /** The count under a key is the one of the last pair with that key. */
  lemma {:induction false} LastPairWins(pairs: seq<(string, int)>, i: nat)
    requires i < |pairs|
    requires forall j :: i < j < |pairs| ==> pairs[j].0 != pairs[i].0
    ensures pairs[i].0 in Comprehension(pairs) && Comprehension(pairs)[pairs[i].0] == pairs[i].1
  {
    if i < |pairs| - 1 {
      var init := pairs[..|pairs| - 1];
      assert init[i] == pairs[i];
      assert forall j :: i < j < |init| ==> init[j] == pairs[j];
      LastPairWins(init, i);
    }
  }

  /** A response or sex summary: every row is counted under its summary
      key, and where several rows share a key (a missing and an empty
      value, say) the last of them wins. */
  lemma SummaryCounts(rows: seq<CountRow>, i: nat)
    requires i < |rows|
    requires forall j :: i < j < |rows| ==> SummaryKey(rows[j].key) != SummaryKey(rows[i].key)
    ensures SummaryKey(rows[i].key) in Comprehension(Keyed(rows))
    ensures Comprehension(Keyed(rows))[SummaryKey(rows[i].key)] == rows[i].count
  {
    LastPairWins(Keyed(rows), i);
  }

  /** A summary holds "unknown" exactly when some row's value is missing,
      empty or "unknown". */
  lemma SummaryUnknownKey(rows: seq<CountRow>)
    ensures Unknown in Comprehension(Keyed(rows)) <==>
      exists i :: 0 <= i < |rows| && CountedAsUnknown(rows[i].key)
  {
    var pairs := Keyed(rows);
    ComprehensionKeys(pairs);
    if Unknown in Comprehension(pairs) {
      var i :| 0 <= i < |pairs| && pairs[i].0 == Unknown;
      SummaryKeyCollisions(rows[i].key, rows[i].key);
    } else {
      forall i | 0 <= i < |rows| ensures !CountedAsUnknown(rows[i].key) {
        assert pairs[i].0 != Unknown;
      }
    }
  }

  /** Any other key of a summary is a value some row holds as it is. */
  lemma SummaryOtherKeys(rows: seq<CountRow>, k: string)
    requires k != Unknown
    ensures k in Comprehension(Keyed(rows)) <==> exists i :: 0 <= i < |rows| && rows[i].key == Some(k) && k != ""
  {
    var pairs := Keyed(rows);
    ComprehensionKeys(pairs);
    if k in Comprehension(pairs) {
      var i :| 0 <= i < |pairs| && pairs[i].0 == k;
      assert rows[i].key == Some(k);
    }
    if exists i :: 0 <= i < |rows| && rows[i].key == Some(k) && k != "" {
      var i :| 0 <= i < |rows| && rows[i].key == Some(k) && k != "";
      assert pairs[i].0 == k;
    }
  }

  /** `FilterSummary(...)` from the three count queries: projects as they
      are, responses and sexes under their summary keys. */
  function Summary(projectRows: seq<(string, int)>, responseRows: seq<CountRow>, sexRows: seq<CountRow>): FilterSummary {
    FilterSummary(Comprehension(projectRows), Comprehension(Keyed(responseRows)), Comprehension(Keyed(sexRows)))
  }

  /** The filter summary: its projects are exactly those of the project
      rows, and its response and sex dictionaries hold "unknown" exactly when
      some row's value is missing, empty or "unknown". */
  lemma FilterSummaryKeys(projectRows: seq<(string, int)>, responseRows: seq<CountRow>, sexRows: seq<CountRow>)
    ensures var summary := Summary(projectRows, responseRows, sexRows);
      (forall k :: k in summary.samplesByProject <==> exists i :: 0 <= i < |projectRows| && projectRows[i].0 == k)
      && (Unknown in summary.subjectsByResponse <==> exists i :: 0 <= i < |responseRows| && CountedAsUnknown(responseRows[i].key))
      && (Unknown in summary.subjectsBySex <==> exists i :: 0 <= i < |sexRows| && CountedAsUnknown(sexRows[i].key))
  {
    ComprehensionKeys(projectRows);
    SummaryUnknownKey(responseRows);
    SummaryUnknownKey(sexRows);
  }
}
