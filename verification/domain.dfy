/** The records the browser and the server exchange (`frontend/src/api.ts`
    and the pydantic models of `backend/app.py`). Optional JSON fields are
    `Option`s; JSON numbers that carry measurements are `real`s. */
module Domain {
  import opened Wrappers

  datatype Sample = Sample(
    sampleId: string,
    project: string,
    subject: string,
    condition: Option<string>,
    age: Option<int>,
    sex: Option<string>,
    treatment: Option<string>,
    response: Option<string>,
    sampleType: string,
    timeFromTreatmentStart: int,
    cellCounts: map<string, int>)

  datatype Frequency = Frequency(
    sample: string,
    totalCount: int,
    population: string,
    count: int,
    percentage: real)

  /** One cell population's responder and non-responder frequencies and the
      p-value of their comparison. */
  datatype ResponseAnalysis = ResponseAnalysis(
    population: string,
    responders: seq<real>,
    nonResponders: seq<real>,
    pValue: real)

  /** The query object of the filter and analysis views; an absent field does
      not constrain the query. */
  datatype FilterParams = FilterParams(
    condition: Option<string>,
    treatment: Option<string>,
    sampleType: Option<string>,
    timeFromTreatmentStart: Option<int>)

  /** The three text fields of a parameter record. */
  datatype TextParam = ConditionParam | TreatmentParam | SampleTypeParam

  function TextParamOf(params: FilterParams, field: TextParam): Option<string> {
    match field
    case ConditionParam => params.condition
    case TreatmentParam => params.treatment
    case SampleTypeParam => params.sampleType
  }

  /** `{...params, field: v}` for a text field. */
  function WithTextParam(params: FilterParams, field: TextParam, v: Option<string>): (r: FilterParams)
    ensures TextParamOf(r, field) == v
    ensures forall other :: other != field ==> TextParamOf(r, other) == TextParamOf(params, other)
    ensures r.timeFromTreatmentStart == params.timeFromTreatmentStart
  {
    match field
    case ConditionParam => params.(condition := v)
    case TreatmentParam => params.(treatment := v)
    case SampleTypeParam => params.(sampleType := v)
  }

  datatype FilterSummary = FilterSummary(
    samplesByProject: map<string, int>,
    subjectsByResponse: map<string, int>,
    subjectsBySex: map<string, int>)

  /** The five cell populations every sample is counted for. */
  const CellPopulations: seq<string> := ["b_cell", "cd8_t_cell", "cd4_t_cell", "nk_cell", "monocyte"]
}
