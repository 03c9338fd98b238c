/** The parameterised WHERE clause of the server's response-analysis,
    filter-summary and filter-samples queries: one `column = ?` clause per
    parameter that is set, in the order condition, treatment, sample type,
    time, with the parameter's value as the matching query argument, joined
    with " AND ", or "1=1" when no parameter is set. */
module WhereClause {
  import opened Wrappers
  import opened Domain
  import opened Text

  datatype Endpoint = ResponseAnalysisEndpoint | FilterSummaryEndpoint | FilterSamplesEndpoint

  datatype Column = ConditionColumn | TreatmentColumn | SampleTypeColumn | TimeColumn

  /** A query argument: the text parameters and the integer time. */
  datatype SqlArg = TextArg(text: string) | IntArg(value: int)

  /** The queries that join samples to other tables qualify the columns with
      the samples alias; the filter summary queries one table and does not. */
  function Qualifier(e: Endpoint): string {
    if e == FilterSummaryEndpoint then "" else "s."
  }

  function ColumnName(c: Column): string {
    match c
    case ConditionColumn => "condition"
    case TreatmentColumn => "treatment"
    case SampleTypeColumn => "sample_type"
    case TimeColumn => "time_from_treatment_start"
  }

  function Clause(e: Endpoint, c: Column): string {
    Qualifier(e) + ColumnName(c) + " = ?"
  }

  /** The columns an endpoint may constrain, in the order it tests them: the
      response analysis does not test the time. */
  function Columns(e: Endpoint): seq<Column> {
    if e == ResponseAnalysisEndpoint then [ConditionColumn, TreatmentColumn, SampleTypeColumn]
    else [ConditionColumn, TreatmentColumn, SampleTypeColumn, TimeColumn]
  }

  /** The argument a parameter contributes, when it is not `None`. */
  function ArgValue(p: FilterParams, c: Column): Option<SqlArg> {
    match c
    case ConditionColumn => if p.condition.Some? then Some(TextArg(p.condition.value)) else None
    case TreatmentColumn => if p.treatment.Some? then Some(TextArg(p.treatment.value)) else None
    case SampleTypeColumn => if p.sampleType.Some? then Some(TextArg(p.sampleType.value)) else None
    case TimeColumn =>
      if p.timeFromTreatmentStart.Some? then Some(IntArg(p.timeFromTreatmentStart.value)) else None
  }

  /** The columns of `cols` whose parameter is set, in the order of `cols`. */
  function SetAmong(p: FilterParams, cols: seq<Column>): seq<Column> {
    if cols == [] then []
    else
      var last := cols[|cols| - 1];
      SetAmong(p, cols[..|cols| - 1]) + (if ArgValue(p, last).Some? then [last] else [])
  }

  /** The columns the endpoint's query constrains. */
  function Constrained(e: Endpoint, p: FilterParams): seq<Column> {
    SetAmong(p, Columns(e))
  }

  function Rank(c: Column): nat {
    match c
    case ConditionColumn => 0
    case TreatmentColumn => 1
    case SampleTypeColumn => 2
    case TimeColumn => 3
  }

  predicate InColumnOrder(cols: seq<Column>) {
    forall i, j :: 0 <= i < j < |cols| ==> Rank(cols[i]) < Rank(cols[j])
  }

  lemma {:induction false} SetAmongFacts(p: FilterParams, cols: seq<Column>)
    requires InColumnOrder(cols)
    ensures forall c :: c in SetAmong(p, cols) <==> c in cols && ArgValue(p, c).Some?
    ensures InColumnOrder(SetAmong(p, cols))
  {
    if cols != [] {
      var init, last := cols[..|cols| - 1], cols[|cols| - 1];
      var before := SetAmong(p, init);
      assert InColumnOrder(init);
      SetAmongFacts(p, init);
      assert SetAmong(p, cols) == before + Step(p, last);
      forall c ensures c in before + Step(p, last) <==> c in cols && ArgValue(p, c).Some? {
        assert c in cols <==> c in init || c == last;
      }
      forall c | c in before ensures Rank(c) < Rank(last) {
        var i :| 0 <= i < |init| && init[i] == c;
        assert cols[i] == c;
      }
    }
  }

  /** The constrained columns are exactly the endpoint's columns whose
      parameter is set, each once and in the fixed order; the response
      analysis never constrains the time. */
  lemma ConstrainedExact(e: Endpoint, p: FilterParams)
    ensures forall c :: c in Constrained(e, p) <==> c in Columns(e) && ArgValue(p, c).Some?
    ensures InColumnOrder(Constrained(e, p))
    ensures e == ResponseAnalysisEndpoint ==> TimeColumn !in Constrained(e, p)
  {
    SetAmongFacts(p, Columns(e));
  }

  function Step(p: FilterParams, c: Column): seq<Column> {
    if ArgValue(p, c).Some? then [c] else []
  }

  lemma SetAmongPush(p: FilterParams, cols: seq<Column>, c: Column)
    ensures SetAmong(p, cols + [c]) == SetAmong(p, cols) + Step(p, c)
  {
    assert (cols + [c])[..|cols|] == cols;
  }

  /** The constrained columns, one test after the other. */
  lemma ConstrainedInOrder(e: Endpoint, p: FilterParams)
    ensures Constrained(e, p) ==
      [] + Step(p, ConditionColumn) + Step(p, TreatmentColumn) + Step(p, SampleTypeColumn)
      + (if e == ResponseAnalysisEndpoint then [] else Step(p, TimeColumn))
  {
    var c1: seq<Column> := [] + [ConditionColumn];
    var c2 := c1 + [TreatmentColumn];
    var c3 := c2 + [SampleTypeColumn];
    SetAmongPush(p, [], ConditionColumn);
    SetAmongPush(p, c1, TreatmentColumn);
    SetAmongPush(p, c2, SampleTypeColumn);
    if e != ResponseAnalysisEndpoint {
      SetAmongPush(p, c3, TimeColumn);
      assert Columns(e) == c3 + [TimeColumn];
    } else {
      assert Columns(e) == c3;
    }
  }

  /** The time parameter has no effect on the response analysis's clauses. */
  lemma ResponseAnalysisIgnoresTime(p: FilterParams, t: Option<int>)
    ensures Constrained(ResponseAnalysisEndpoint, p) == Constrained(ResponseAnalysisEndpoint, p.(timeFromTreatmentStart := t))
  {
    ConstrainedInOrder(ResponseAnalysisEndpoint, p);
    ConstrainedInOrder(ResponseAnalysisEndpoint, p.(timeFromTreatmentStart := t));
  }

  /** Clauses and arguments agree, position by position, with `cols`. */
  predicate Aligned(e: Endpoint, p: FilterParams, cols: seq<Column>, clauses: seq<string>, args: seq<SqlArg>) {
    |clauses| == |cols| && |args| == |cols|
    && forall k :: 0 <= k < |cols| ==> clauses[k] == Clause(e, cols[k]) && ArgValue(p, cols[k]) == Some(args[k])
  }

  /** One `if params.x is not None` step of a builder. */
  method Push(e: Endpoint, p: FilterParams, c: Column, clauses: seq<string>, args: seq<SqlArg>, ghost cols: seq<Column>)
    returns (clauses': seq<string>, args': seq<SqlArg>)
    requires Aligned(e, p, cols, clauses, args)
    ensures Aligned(e, p, cols + Step(p, c), clauses', args')
  {
    clauses', args' := clauses, args;
    var v := ArgValue(p, c);
    if v.Some? {
      clauses' := clauses' + [Clause(e, c)];
      args' := args' + [v.value];
    }
    assert cols + [] == cols;
  }

  /** The builder at the head of each of the three endpoints. */
  method BuildClauses(e: Endpoint, p: FilterParams) returns (clauses: seq<string>, args: seq<SqlArg>)
    ensures |clauses| == |args| == |Constrained(e, p)|
    ensures forall k :: 0 <= k < |clauses| ==>
      clauses[k] == Clause(e, Constrained(e, p)[k]) && ArgValue(p, Constrained(e, p)[k]) == Some(args[k])
  {
    clauses, args := [], [];
    ghost var cols: seq<Column> := [];
    clauses, args := Push(e, p, ConditionColumn, clauses, args, cols);
    cols := cols + Step(p, ConditionColumn);
    clauses, args := Push(e, p, TreatmentColumn, clauses, args, cols);
    cols := cols + Step(p, TreatmentColumn);
    clauses, args := Push(e, p, SampleTypeColumn, clauses, args, cols);
    cols := cols + Step(p, SampleTypeColumn);
    if e != ResponseAnalysisEndpoint {
      clauses, args := Push(e, p, TimeColumn, clauses, args, cols);
      cols := cols + Step(p, TimeColumn);
    } else {
      assert cols + [] == cols;
    }
    ConstrainedInOrder(e, p);
  }

  /** The clause texts of the columns, in order. */
  function ClauseTexts(e: Endpoint, cols: seq<Column>): (texts: seq<string>)
    ensures |texts| == |cols|
    ensures forall k :: 0 <= k < |cols| ==> texts[k] == Clause(e, cols[k])
  {
    if cols == [] then [] else ClauseTexts(e, cols[..|cols| - 1]) + [Clause(e, cols[|cols| - 1])]
  }

  /** `" AND ".join(clauses) or "1=1"`. */
  function WhereText(clauses: seq<string>): string {
    var joined := Join(clauses, " AND ");
    if joined != "" then joined else "1=1"
  }

  lemma NoPlaceholderInName(c: Column)
    ensures Count(ColumnName(c), '?') == 0
  {
    assert '?' !in ColumnName(c);
    CountAbsent(ColumnName(c), '?');
  }

  /** Each clause holds one placeholder. */
  lemma OnePlaceholderPerClause(e: Endpoint, c: Column)
    ensures Count(Clause(e, c), '?') == 1
  {
    NoPlaceholderInName(c);
    assert '?' !in Qualifier(e);
    CountAbsent(Qualifier(e), '?');
    CountConcat(Qualifier(e), ColumnName(c), '?');
    CountConcat(Qualifier(e) + ColumnName(c), " = ?", '?');
  }

  /** The WHERE text is "1=1" exactly when no parameter is set, and it holds
      one placeholder per argument, so the query's placeholders and its
      arguments always match. */
  lemma WhereTextPlaceholders(e: Endpoint, p: FilterParams, clauses: seq<string>, args: seq<SqlArg>)
    requires Aligned(e, p, Constrained(e, p), clauses, args)
    ensures WhereText(clauses) == "1=1" <==> forall c :: c in Columns(e) ==> ArgValue(p, c).None?
    ensures Count(WhereText(clauses), '?') == |args|
  {
    ConstrainedExact(e, p);
    var cols := Constrained(e, p);
    forall k | 0 <= k < |clauses| ensures Count(clauses[k], '?') == 1 {
      OnePlaceholderPerClause(e, cols[k]);
    }
    assert Count(" AND ", '?') == 0;
    CountJoin(clauses, " AND ", '?');
    if clauses != [] {
      assert Count(Join(clauses, " AND "), '?') >= 1;
      assert Join(clauses, " AND ") != "1=1" by {
        assert '?' !in "1=1";
        CountAbsent("1=1", '?');
      }
      assert cols[0] in cols;
    } else {
      assert forall c :: c in Columns(e) ==> ArgValue(p, c).None?;
      assert '?' !in "1=1";
      CountAbsent("1=1", '?');
    }
  }

  /** The head of each endpoint: the clauses and arguments, then the WHERE
      text. It holds one placeholder per argument, and it is "1=1" exactly
      when no parameter the endpoint tests is set. */
  method Where(e: Endpoint, p: FilterParams) returns (where: string, args: seq<SqlArg>)
    ensures Count(where, '?') == |args|
    ensures where == "1=1" <==> forall c :: c in Columns(e) ==> ArgValue(p, c).None?
    ensures |args| == |Constrained(e, p)|
    ensures forall k :: 0 <= k < |args| ==> ArgValue(p, Constrained(e, p)[k]) == Some(args[k])
    ensures where == WhereText(ClauseTexts(e, Constrained(e, p)))
  {
    var clauses;
    clauses, args := BuildClauses(e, p);
    assert clauses == ClauseTexts(e, Constrained(e, p));
    where := WhereText(clauses);
    WhereTextPlaceholders(e, p, clauses, args);
  }
}
