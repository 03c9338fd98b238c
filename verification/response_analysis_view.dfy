/** The response-analysis view: the box-plot traces that flatten every
    population's responder and non-responder frequencies into aligned x/y
    coordinate sequences, the significance table, and the three parameter
    selects. */
module ResponseAnalysisView {
  import opened Wrappers
  import opened Domain

  /** The two box-plot traces: responders and non-responders. */
  datatype Group = Responders | NonResponders

  function GroupValues(d: ResponseAnalysis, g: Group): seq<real> {
    if g == Responders then d.responders else d.nonResponders
  }

  /** `Array(n).fill(x)`. */
  function Fill<T>(n: nat, x: T): (r: seq<T>)
    ensures |r| == n
    ensures forall i :: 0 <= i < n ==> r[i] == x
  {
    if n == 0 then [] else Fill(n - 1, x) + [x]
  }

  /** `analysis.flatMap(d => Array(values.length).fill(d.population))`. */
  function XCoordinates(analysis: seq<ResponseAnalysis>, g: Group): seq<string> {
    if analysis == [] then []
    else Fill(|GroupValues(analysis[0], g)|, analysis[0].population) + XCoordinates(analysis[1..], g)
  }

  /** `analysis.flatMap(d => values)`. */
  function YCoordinates(analysis: seq<ResponseAnalysis>, g: Group): seq<real> {
    if analysis == [] then []
    else GroupValues(analysis[0], g) + YCoordinates(analysis[1..], g)
  }

  /** The number of values of group `g` over all entries. */
  function TotalValues(analysis: seq<ResponseAnalysis>, g: Group): nat {
    if analysis == [] then 0 else |GroupValues(analysis[0], g)| + TotalValues(analysis[1..], g)
  }

  /** The position in the flattened coordinates of entry `i`'s first value. */
  function Offset(analysis: seq<ResponseAnalysis>, g: Group, i: nat): nat
    requires i <= |analysis|
  {
    if i == 0 then 0 else |GroupValues(analysis[0], g)| + Offset(analysis[1..], g, i - 1)
  }

  datatype BoxTrace = BoxTrace(x: seq<string>, y: seq<real>, name: string)

  /** The `plotData` memo: the responder trace, then the non-responder trace. */
  function PlotData(analysis: seq<ResponseAnalysis>): (traces: seq<BoxTrace>)
    ensures |traces| == 2
    ensures traces[0].name == "Responders" && traces[1].name == "Non-responders"
    ensures |traces[0].x| == |traces[0].y| == TotalValues(analysis, Responders)
    ensures |traces[1].x| == |traces[1].y| == TotalValues(analysis, NonResponders)
  {
    AlignedLengths(analysis, Responders);
    AlignedLengths(analysis, NonResponders);
    [BoxTrace(XCoordinates(analysis, Responders), YCoordinates(analysis, Responders), "Responders"),
     BoxTrace(XCoordinates(analysis, NonResponders), YCoordinates(analysis, NonResponders), "Non-responders")]
  }

  /** Both coordinate sequences of a trace have one element per value of the
      group, summed over all entries. */
  lemma {:induction false} AlignedLengths(analysis: seq<ResponseAnalysis>, g: Group)
    ensures |XCoordinates(analysis, g)| == TotalValues(analysis, g)
    ensures |YCoordinates(analysis, g)| == TotalValues(analysis, g)
  {
    if analysis != [] {
      AlignedLengths(analysis[1..], g);
    }
  }

  lemma {:induction false} OffsetBound(analysis: seq<ResponseAnalysis>, g: Group, i: nat)
    requires i < |analysis|
    ensures Offset(analysis, g, i) + |GroupValues(analysis[i], g)| <= TotalValues(analysis, g)
  {
    if i > 0 {
      OffsetBound(analysis[1..], g, i - 1);
      assert analysis[1..][i - 1] == analysis[i];
    }
  }

  lemma {:induction false} YCoordinateOfValue(analysis: seq<ResponseAnalysis>, g: Group, i: nat, j: nat)
    requires i < |analysis| && j < |GroupValues(analysis[i], g)|
    requires Offset(analysis, g, i) + j < |YCoordinates(analysis, g)|
    ensures YCoordinates(analysis, g)[Offset(analysis, g, i) + j] == GroupValues(analysis[i], g)[j]
  {
    var head, rest := analysis[0], analysis[1..];
    var n := |GroupValues(head, g)|;
    assert YCoordinates(analysis, g) == GroupValues(head, g) + YCoordinates(rest, g);
    if i > 0 {
      assert rest[i - 1] == analysis[i];
      var k := Offset(rest, g, i - 1) + j;
      assert Offset(analysis, g, i) + j == n + k;
      YCoordinateOfValue(rest, g, i - 1, j);
      assert YCoordinates(analysis, g)[n + k] == YCoordinates(rest, g)[k];
    }
  }

  lemma {:induction false} XCoordinateOfValue(analysis: seq<ResponseAnalysis>, g: Group, i: nat, j: nat)
    requires i < |analysis| && j < |GroupValues(analysis[i], g)|
    requires Offset(analysis, g, i) + j < |XCoordinates(analysis, g)|
    ensures XCoordinates(analysis, g)[Offset(analysis, g, i) + j] == analysis[i].population
  {
    var head, rest := analysis[0], analysis[1..];
    var n := |GroupValues(head, g)|;
    assert XCoordinates(analysis, g) == Fill(n, head.population) + XCoordinates(rest, g);
    if i > 0 {
      assert rest[i - 1] == analysis[i];
      var k := Offset(rest, g, i - 1) + j;
      assert Offset(analysis, g, i) + j == n + k;
      XCoordinateOfValue(rest, g, i - 1, j);
      assert XCoordinates(analysis, g)[n + k] == XCoordinates(rest, g)[k];
    }
  }

  /** The y coordinates are the entries' value lists concatenated in order:
      value `j` of entry `i` sits at `Offset(i) + j`, and its x coordinate is
      the entry's population. */
  lemma CoordinateOfValue(analysis: seq<ResponseAnalysis>, g: Group, i: nat, j: nat)
    requires i < |analysis| && j < |GroupValues(analysis[i], g)|
    ensures Offset(analysis, g, i) + j < TotalValues(analysis, g)
    ensures |XCoordinates(analysis, g)| == |YCoordinates(analysis, g)| == TotalValues(analysis, g)
    ensures YCoordinates(analysis, g)[Offset(analysis, g, i) + j] == GroupValues(analysis[i], g)[j]
    ensures XCoordinates(analysis, g)[Offset(analysis, g, i) + j] == analysis[i].population
  {
    AlignedLengths(analysis, g);
    OffsetBound(analysis, g, i);
    YCoordinateOfValue(analysis, g, i, j);
    XCoordinateOfValue(analysis, g, i, j);
  }

  /** The entry that contributed coordinate `k`: the `i` with
      `Offset(i) <= k < Offset(i) + |values of entry i|`. */
  function EntryOf(analysis: seq<ResponseAnalysis>, g: Group, k: nat): (i: nat)
    requires k < TotalValues(analysis, g)
    ensures i < |analysis|
    ensures Offset(analysis, g, i) <= k < Offset(analysis, g, i) + |GroupValues(analysis[i], g)|
  {
    var n := |GroupValues(analysis[0], g)|;
    if k < n then 0
    else
      var i := 1 + EntryOf(analysis[1..], g, k - n);
      assert analysis[1..][i - 1] == analysis[i];
      i
  }

  /** Every coordinate pair belongs to one entry: `x[k]` is the population of
      the entry whose value is `y[k]`. */
  lemma XNamesContributor(analysis: seq<ResponseAnalysis>, g: Group, k: nat)
    requires k < TotalValues(analysis, g)
    ensures |XCoordinates(analysis, g)| == |YCoordinates(analysis, g)| == TotalValues(analysis, g)
    ensures var i := EntryOf(analysis, g, k);
      XCoordinates(analysis, g)[k] == analysis[i].population
      && YCoordinates(analysis, g)[k] == GroupValues(analysis[i], g)[k - Offset(analysis, g, i)]
  {
    AlignedLengths(analysis, g);
    var i := EntryOf(analysis, g, k);
    CoordinateOfValue(analysis, g, i, k - Offset(analysis, g, i));
  }

  /** `d.p_value < 0.05 ? "Significant" : "Not Significant"`. */
  function SignificanceLabel(pValue: real): string {
    if pValue < 0.05 then "Significant" else "Not Significant"
  }

  datatype TableRow = TableRow(population: string, pValue: real, significance: string)

  /** The significance table: one row per analysis entry, in input order,
      labelled by a strict threshold, so that exactly 0.05 is not
      significant. */
  function SignificanceTable(analysis: seq<ResponseAnalysis>): (rows: seq<TableRow>)
    ensures |rows| == |analysis|
    ensures forall i :: 0 <= i < |rows| ==>
      rows[i].population == analysis[i].population && rows[i].pValue == analysis[i].pValue
      && (rows[i].significance == "Significant" <==> analysis[i].pValue < 0.05)
      && (rows[i].significance == "Not Significant" <==> analysis[i].pValue >= 0.05)
  {
    if analysis == [] then []
    else
      var d := analysis[0];
      [TableRow(d.population, d.pValue, SignificanceLabel(d.pValue))] + SignificanceTable(analysis[1..])
  }

  /** The `onChange` of an analysis select: `{...analysisParams, field: value}`.
      Unlike the filter form, the empty option is stored as the empty text. */
  function SelectAnalysisParam(params: FilterParams, field: TextParam, value: string): (r: FilterParams)
    ensures TextParamOf(r, field) == Some(value)
    ensures forall other :: other != field ==> TextParamOf(r, other) == TextParamOf(params, other)
    ensures r.timeFromTreatmentStart == params.timeFromTreatmentStart
  {
    WithTextParam(params, field, Some(value))
  }

  /** Choosing the "none" treatment keeps the empty text rather than clearing
      the field, and choosing again what a field holds changes nothing. */
  lemma NoneTreatmentKeepsEmptyText(params: FilterParams, field: TextParam)
    ensures SelectAnalysisParam(params, TreatmentParam, "").treatment == Some("")
    ensures TextParamOf(params, field).Some? ==>
      SelectAnalysisParam(params, field, TextParamOf(params, field).value) == params
  {
  }
}
