/** The filter form of the filter-and-summarize view: each select shows the
    current parameter and, on change, builds a new parameter record in which
    only its own field differs. "Any" is the empty option and clears the
    field. The view's table uses the shared pagination of module
    `Pagination`. */
module FilterSummarize {
  import opened Wrappers
  import opened Domain
  import opened NumberParsing
  import Text

  /** The option a text select shows: `filterParams.field || ""`. */
  function Shown(params: FilterParams, field: TextParam): string {
    TextParamOf(params, field).GetOr("")
  }

  /** The `onChange` of a text select: `{...filterParams, field: value || undefined}`.
      The chosen field reads back as the chosen option, it is absent exactly
      when "Any" was chosen, and every other field is kept. */
  function SelectText(params: FilterParams, field: TextParam, value: string): (r: FilterParams)
    ensures Shown(r, field) == value
    ensures TextParamOf(r, field) == None <==> value == ""
    ensures forall other :: other != field ==> TextParamOf(r, other) == TextParamOf(params, other)
    ensures r.timeFromTreatmentStart == params.timeFromTreatmentStart
  {
    WithTextParam(params, field, if value == "" then None else Some(value))
  }

  /** Choosing the option a select already shows changes nothing, as long as
      the field does not hold the empty text (which no select ever stores). */
  lemma ReselectShownText(params: FilterParams, field: TextParam)
    requires TextParamOf(params, field) != Some("")
    ensures SelectText(params, field, Shown(params, field)) == params
  {
  }

  /** The option the time select shows: `time?.toString() || ""`. */
  function ShownTime(params: FilterParams): string {
    match params.timeFromTreatmentStart
    case Some(t) => Text.IntToString(t)
    case None => ""
  }

  /** The `onChange` of the time select: "" clears the field, any other option
      is read with `parseInt(value, 10)`. The select offers only "", "0", "7"
      and "14", so the option always reads as a number. */
  function SelectTime(params: FilterParams, value: string): (r: FilterParams)
    requires value == "" || ParseInt(value).Some?
    ensures r.timeFromTreatmentStart == if value == "" then None else ParseInt(value)
    ensures r.condition == params.condition && r.treatment == params.treatment && r.sampleType == params.sampleType
  {
    params.(timeFromTreatmentStart := if value == "" then None else ParseInt(value))
  }

  /** Choosing the time option already shown changes nothing, and the select
      shows the numeral of the time it stored. */
  lemma TimeSelectRoundTrip(params: FilterParams, t: int)
    ensures ShownTime(params) == "" || ParseInt(ShownTime(params)).Some?
    ensures SelectTime(params, ShownTime(params)) == params
    ensures ParseInt(Text.IntToString(t)) == Some(t)
      && ShownTime(SelectTime(params, Text.IntToString(t))) == Text.IntToString(t)
  {
    if params.timeFromTreatmentStart.Some? {
      var v := params.timeFromTreatmentStart.value;
      var shown := Text.IntToString(v);
      ParseIntRoundTrip(v);
      assert ShownTime(params) == shown && shown != "";
      assert SelectTime(params, shown) == params.(timeFromTreatmentStart := Some(v));
    } else {
      assert SelectTime(params, "") == params.(timeFromTreatmentStart := None);
    }
    var numeral := Text.IntToString(t);
    ParseIntRoundTrip(t);
    assert numeral != "";
    assert SelectTime(params, numeral).timeFromTreatmentStart == Some(t);
  }
}
