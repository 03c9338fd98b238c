/** The server side of the response analysis after the query: the rows
    (response, population, percentage) are grouped by population and then by
    lower-cased response, a missing response counting as "no"; then one
    result per population, in the order populations first appear, holds the
    "yes" and "no" groups and a p-value that is 1.0 whenever either group has
    fewer than two values. Python dictionaries keep insertion order, so each
    dictionary is modelled as a sequence of entries with distinct keys. */
module ResponseGrouping {
  import opened Wrappers
  import opened Text
  import opened Domain

  /** One row of the analysis query. */
  datatype Row = Row(response: Option<string>, population: string, percentage: real)

  /** `(r["response"] or "no").lower()`: `None` and "" are both falsy. */
  function ResponseKey(response: Option<string>): string {
    Lower(if response.None? || response.value == "" then "no" else response.value)
  }

  /** `grouped[pop][key]`: one response group of a population. */
  datatype Bucket = Bucket(key: string, values: seq<real>)

  /** `grouped[pop]`: a population and its response groups, in the order
      they were created. */
  datatype Group = Group(population: string, buckets: seq<Bucket>)

  predicate DistinctKeys(buckets: seq<Bucket>) {
    forall i, j :: 0 <= i < j < |buckets| ==> buckets[i].key != buckets[j].key
  }

  /** The shape of `grouped`: each population once, each response key once
      within its population. */
  predicate WellFormed(groups: seq<Group>) {
    (forall i, j :: 0 <= i < j < |groups| ==> groups[i].population != groups[j].population)
    && (forall i :: 0 <= i < |groups| ==> DistinctKeys(groups[i].buckets))
  }

  function BucketIndex(buckets: seq<Bucket>, key: string): (r: Option<nat>)
    ensures r.Some? ==> r.value < |buckets| && buckets[r.value].key == key
    ensures r.None? ==> forall i :: 0 <= i < |buckets| ==> buckets[i].key != key
  {
    if buckets == [] then None
    else if buckets[|buckets| - 1].key == key then Some(|buckets| - 1)
    else BucketIndex(buckets[..|buckets| - 1], key)
  }

  function GroupIndex(groups: seq<Group>, population: string): (r: Option<nat>)
    ensures r.Some? ==> r.value < |groups| && groups[r.value].population == population
    ensures r.None? ==> forall i :: 0 <= i < |groups| ==> groups[i].population != population
  {
    if groups == [] then None
    else if groups[|groups| - 1].population == population then Some(|groups| - 1)
    else GroupIndex(groups[..|groups| - 1], population)
  }

  /** `grp.get(key, [])`. */
  function Get(buckets: seq<Bucket>, key: string): seq<real> {
    match BucketIndex(buckets, key)
    case Some(i) => buckets[i].values
    case None => []
  }

  /** The values grouped under a population and a response key, [] when
      there are none. */
  function Lookup(groups: seq<Group>, population: string, key: string): seq<real> {
    match GroupIndex(groups, population)
    case Some(i) => Get(groups[i].buckets, key)
    case None => []
  }

  /** `.setdefault(key, []).append(v)` on a population's groups. */
  function AddValue(buckets: seq<Bucket>, key: string, v: real): seq<Bucket> {
    match BucketIndex(buckets, key)
    case Some(i) => buckets[i := Bucket(key, buckets[i].values + [v])]
    case None => buckets + [Bucket(key, [v])]
  }

  /** `grouped.setdefault(pop, {}).setdefault(resp, []).append(pct)`. */
  function AddRow(groups: seq<Group>, r: Row): seq<Group> {
    match GroupIndex(groups, r.population)
    case Some(i) => groups[i := Group(r.population, AddValue(groups[i].buckets, ResponseKey(r.response), r.percentage))]
    case None => groups + [Group(r.population, [Bucket(ResponseKey(r.response), [r.percentage])])]
  }

  /** `grouped` after the loop over `rows`. */
  function Grouped(rows: seq<Row>): seq<Group> {
    if rows == [] then [] else AddRow(Grouped(rows[..|rows| - 1]), rows[|rows| - 1])
  }

  /** The loop that builds `grouped`. */
  method GroupRows(rows: seq<Row>) returns (grouped: seq<Group>)
    ensures grouped == Grouped(rows)
  {
    grouped := [];
    for n := 0 to |rows|
      invariant grouped == Grouped(rows[..n])
    {
      var r := rows[n];
      ghost var before := grouped;
      var resp := ResponseKey(r.response);
      var gi := GroupIndex(grouped, r.population);
      if gi.Some? {
        var buckets := grouped[gi.value].buckets;
        var bi := BucketIndex(buckets, resp);
        if bi.Some? {
          buckets := buckets[bi.value := Bucket(resp, buckets[bi.value].values + [r.percentage])];
        } else {
          buckets := buckets + [Bucket(resp, [r.percentage])];
        }
        assert buckets == AddValue(before[gi.value].buckets, resp, r.percentage);
        grouped := grouped[gi.value := Group(r.population, buckets)];
      } else {
        grouped := grouped + [Group(r.population, [Bucket(resp, [r.percentage])])];
      }
      assert grouped == AddRow(before, r);
      assert rows[..n + 1][..n] == rows[..n];
    }
    assert rows[..|rows|] == rows;
  }

  // What the grouping means.

  /** The percentages of the rows with the given population and response
      key, in row order. */
  function Filtered(rows: seq<Row>, population: string, key: string): seq<real> {
    if rows == [] then []
    else
      var r := rows[|rows| - 1];
      Filtered(rows[..|rows| - 1], population, key)
      + (if r.population == population && ResponseKey(r.response) == key then [r.percentage] else [])
  }

  lemma BucketIndexOfKey(buckets: seq<Bucket>, i: nat)
    requires DistinctKeys(buckets) && i < |buckets|
    ensures BucketIndex(buckets, buckets[i].key) == Some(i)
  {
  }

  lemma GroupIndexOfPopulation(groups: seq<Group>, i: nat)
    requires WellFormed(groups) && i < |groups|
    ensures GroupIndex(groups, groups[i].population) == Some(i)
  {
  }

  lemma AddValueFacts(buckets: seq<Bucket>, key: string, v: real)
    requires DistinctKeys(buckets)
    ensures DistinctKeys(AddValue(buckets, key, v))
    ensures forall k :: Get(AddValue(buckets, key, v), k) == Get(buckets, k) + (if k == key then [v] else [])
  {
    var b := AddValue(buckets, key, v);
    match BucketIndex(buckets, key)
    case Some(i) =>
      assert forall j :: 0 <= j < |b| ==> b[j].key == buckets[j].key;
      forall k ensures Get(b, k) == Get(buckets, k) + (if k == key then [v] else []) {
        if BucketIndex(buckets, k).Some? {
          var j := BucketIndex(buckets, k).value;
          BucketIndexOfKey(b, j);
        }
      }
    case None =>
      assert b[..|b| - 1] == buckets;
  }

  lemma LookupAfterExisting(groups: seq<Group>, r: Row, i: nat, p: string, k: string)
    requires WellFormed(groups) && GroupIndex(groups, r.population) == Some(i)
    requires WellFormed(AddRow(groups, r))
    requires forall j :: 0 <= j < |groups| ==> AddRow(groups, r)[j].population == groups[j].population
    ensures Lookup(AddRow(groups, r), p, k)
      == Lookup(groups, p, k) + (if p == r.population && k == ResponseKey(r.response) then [r.percentage] else [])
  {
    var g := AddRow(groups, r);
    var key := ResponseKey(r.response);
    var nb := AddValue(groups[i].buckets, key, r.percentage);
    AddValueFacts(groups[i].buckets, key, r.percentage);
    assert g == groups[i := Group(r.population, nb)];
    if GroupIndex(groups, p).Some? {
      var j := GroupIndex(groups, p).value;
      GroupIndexOfPopulation(g, j);
      if j == i {
        assert Lookup(g, p, k) == Get(nb, k);
      } else {
        assert g[j] == groups[j];
      }
    } else {
      assert GroupIndex(g, p).None?;
    }
  }

  /** Adding a row to a population already present keeps the shape and
      appends the row's percentage to exactly one group. */
  lemma AddRowToExisting(groups: seq<Group>, r: Row, i: nat)
    requires WellFormed(groups) && GroupIndex(groups, r.population) == Some(i)
    ensures WellFormed(AddRow(groups, r))
    ensures forall p, k ::
      Lookup(AddRow(groups, r), p, k)
      == Lookup(groups, p, k) + (if p == r.population && k == ResponseKey(r.response) then [r.percentage] else [])
  {
    var g := AddRow(groups, r);
    var key := ResponseKey(r.response);
    var nb := AddValue(groups[i].buckets, key, r.percentage);
    AddValueFacts(groups[i].buckets, key, r.percentage);
    assert g == groups[i := Group(r.population, nb)];
    assert forall j :: 0 <= j < |g| ==> g[j].population == groups[j].population;
    assert WellFormed(g);
    forall p, k ensures Lookup(g, p, k) ==
      Lookup(groups, p, k) + (if p == r.population && k == key then [r.percentage] else [])
    {
      LookupAfterExisting(groups, r, i, p, k);
    }
  }

  /** Adding a row of a new population appends one group holding one
      value. */
  lemma AddRowToNew(groups: seq<Group>, r: Row)
    requires WellFormed(groups) && GroupIndex(groups, r.population).None?
    ensures WellFormed(AddRow(groups, r))
    ensures forall p, k ::
      Lookup(AddRow(groups, r), p, k)
      == Lookup(groups, p, k) + (if p == r.population && k == ResponseKey(r.response) then [r.percentage] else [])
  {
    var g := AddRow(groups, r);
    var key := ResponseKey(r.response);
    assert g[..|g| - 1] == groups;
    var b := [Bucket(key, [r.percentage])];
    assert g == groups + [Group(r.population, b)];
    assert Get(b, key) == [r.percentage];
    assert forall k :: k != key ==> Get(b, k) == [] by {
      assert b[..0] == [];
    }
    assert GroupIndex(g, r.population) == Some(|groups|);
    assert forall p :: p != r.population ==> GroupIndex(g, p) == GroupIndex(groups, p);
    forall p, k ensures Lookup(g, p, k) ==
      Lookup(groups, p, k) + (if p == r.population && k == key then [r.percentage] else [])
    {
      if p == r.population {
        assert Lookup(groups, p, k) == [];
        assert Lookup(g, p, k) == Get(b, k);
      } else {
        assert Lookup(g, p, k) == Lookup(groups, p, k);
      }
    }
  }

  lemma AddRowFacts(groups: seq<Group>, r: Row)
    requires WellFormed(groups)
    ensures WellFormed(AddRow(groups, r))
    ensures forall p, k ::
      Lookup(AddRow(groups, r), p, k)
      == Lookup(groups, p, k) + (if p == r.population && k == ResponseKey(r.response) then [r.percentage] else [])
  {
    match GroupIndex(groups, r.population)
    case Some(i) => AddRowToExisting(groups, r, i);
    case None => AddRowToNew(groups, r);
  }

  /** Every row's percentage lands, in row order, in the group of its
      population and response key, and nowhere else; no population and no
      key appears twice. */
  lemma {:induction false} GroupedValues(rows: seq<Row>)
    ensures WellFormed(Grouped(rows))
    ensures forall p, k :: Lookup(Grouped(rows), p, k) == Filtered(rows, p, k)
  {
    if rows != [] {
      GroupedValues(rows[..|rows| - 1]);
      AddRowFacts(Grouped(rows[..|rows| - 1]), rows[|rows| - 1]);
    }
  }

  predicate Occurs(rows: seq<Row>, population: string) {
    exists k :: 0 <= k < |rows| && rows[k].population == population
  }

  /** The index of the first row of a population. */
  function FirstIndex(rows: seq<Row>, population: string): (k: nat)
    requires Occurs(rows, population)
    ensures k < |rows| && rows[k].population == population
    ensures forall j :: 0 <= j < k ==> rows[j].population != population
  {
    if rows[0].population == population then 0
    else
      assert Occurs(rows[1..], population) by {
        var k :| 0 <= k < |rows| && rows[k].population == population;
        assert rows[1..][k - 1] == rows[k];
      }
      1 + FirstIndex(rows[1..], population)
  }

  /** Adding a row keeps the populations already there, in place, and
      appends the row's population when it is new. */
  lemma AddRowShape(groups: seq<Group>, r: Row)
    ensures |AddRow(groups, r)| == |groups| + (if GroupIndex(groups, r.population).None? then 1 else 0)
    ensures forall i :: 0 <= i < |groups| ==> AddRow(groups, r)[i].population == groups[i].population
    ensures GroupIndex(groups, r.population).None? ==> AddRow(groups, r)[|groups|].population == r.population
  {
  }

  predicate HasPopulation(groups: seq<Group>, population: string) {
    exists i :: 0 <= i < |groups| && groups[i].population == population
  }

  lemma HasPopulationAddRow(groups: seq<Group>, r: Row, p: string)
    ensures HasPopulation(AddRow(groups, r), p) <==> HasPopulation(groups, p) || r.population == p
  {
    var g := AddRow(groups, r);
    AddRowShape(groups, r);
    if HasPopulation(g, p) {
      var i :| 0 <= i < |g| && g[i].population == p;
      if i < |groups| {
        assert groups[i].population == p;
      }
    }
    if HasPopulation(groups, p) {
      var i :| 0 <= i < |groups| && groups[i].population == p;
      assert g[i].population == p;
    }
    if r.population == p {
      if GroupIndex(groups, p).Some? {
        var i := GroupIndex(groups, p).value;
        assert g[i].population == p;
      } else {
        assert g[|groups|].population == p;
      }
    }
  }

  lemma OccursPush(rows: seq<Row>, p: string)
    requires rows != []
    ensures Occurs(rows, p) <==> Occurs(rows[..|rows| - 1], p) || rows[|rows| - 1].population == p
  {
    var init := rows[..|rows| - 1];
    if Occurs(rows, p) {
      var k :| 0 <= k < |rows| && rows[k].population == p;
      if k < |init| {
        assert init[k] == rows[k];
      }
    }
    if Occurs(init, p) {
      var k :| 0 <= k < |init| && init[k].population == p;
      assert rows[k] == init[k];
    }
  }

  /** The populations of `grouped` are exactly those of the rows. */
  lemma {:induction false} GroupedPopulations(rows: seq<Row>)
    ensures forall p :: HasPopulation(Grouped(rows), p) <==> Occurs(rows, p)
  {
    if rows != [] {
      var init, r := rows[..|rows| - 1], rows[|rows| - 1];
      GroupedPopulations(init);
      forall p ensures HasPopulation(Grouped(rows), p) <==> Occurs(rows, p) {
        HasPopulationAddRow(Grouped(init), r, p);
        OccursPush(rows, p);
      }
    }
  }

  /** Every population of `grouped` occurs among the rows. */
  lemma GroupedOccur(rows: seq<Row>)
    ensures forall i :: 0 <= i < |Grouped(rows)| ==> Occurs(rows, Grouped(rows)[i].population)
  {
    GroupedPopulations(rows);
    var g := Grouped(rows);
    forall i | 0 <= i < |g| ensures Occurs(rows, g[i].population) {
      assert HasPopulation(g, g[i].population);
    }
  }

  /** The first row of a population already seen stays its first row when
      a row is added. */
  lemma FirstIndexOfPrefix(rows: seq<Row>, p: string)
    requires rows != [] && Occurs(rows[..|rows| - 1], p)
    ensures Occurs(rows, p) && FirstIndex(rows, p) == FirstIndex(rows[..|rows| - 1], p)
  {
    var init := rows[..|rows| - 1];
    var k := FirstIndex(init, p);
    assert rows[k] == init[k];
    assert forall j :: 0 <= j < k ==> rows[j] == init[j];
  }

  /** The first row of a population not seen before is the added row. */
  lemma FirstIndexOfNew(rows: seq<Row>)
    requires rows != [] && !Occurs(rows[..|rows| - 1], rows[|rows| - 1].population)
    ensures FirstIndex(rows, rows[|rows| - 1].population) == |rows| - 1
  {
    var init, p := rows[..|rows| - 1], rows[|rows| - 1].population;
    assert forall j :: 0 <= j < |init| ==> init[j] == rows[j];
  }

  /** The populations of `grouped` come in the order in which they first
      occur among the rows. */
  lemma {:induction false} GroupedFirstSeen(rows: seq<Row>)
    ensures forall i :: 0 <= i < |Grouped(rows)| ==> Occurs(rows, Grouped(rows)[i].population)
    ensures forall i, j :: 0 <= i < j < |Grouped(rows)| ==>
      FirstIndex(rows, Grouped(rows)[i].population) < FirstIndex(rows, Grouped(rows)[j].population)
  {
    GroupedOccur(rows);
    if rows != [] {
      var init, r := rows[..|rows| - 1], rows[|rows| - 1];
      GroupedFirstSeen(init);
      GroupedPopulations(init);
      var g0, g := Grouped(init), Grouped(rows);
      AddRowShape(g0, r);
      forall i, j | 0 <= i < j < |g|
        ensures FirstIndex(rows, g[i].population) < FirstIndex(rows, g[j].population)
      {
        assert g[i].population == g0[i].population;
        FirstIndexOfPrefix(rows, g0[i].population);
        if j < |g0| {
          assert g[j].population == g0[j].population;
          FirstIndexOfPrefix(rows, g0[j].population);
        } else {
          assert !HasPopulation(g0, r.population);
          FirstIndexOfNew(rows);
        }
      }
    }
  }

  // The total number of grouped values.

  function BucketsTotal(buckets: seq<Bucket>): nat {
    if buckets == [] then 0 else BucketsTotal(buckets[..|buckets| - 1]) + |buckets[|buckets| - 1].values|
  }

  function Total(groups: seq<Group>): nat {
    if groups == [] then 0 else Total(groups[..|groups| - 1]) + BucketsTotal(groups[|groups| - 1].buckets)
  }

  lemma {:induction false} BucketsTotalUpdate(buckets: seq<Bucket>, i: nat, b: Bucket)
    requires i < |buckets|
    ensures BucketsTotal(buckets[i := b]) + |buckets[i].values| == BucketsTotal(buckets) + |b.values|
  {
    if i < |buckets| - 1 {
      assert buckets[i := b][..|buckets| - 1] == buckets[..|buckets| - 1][i := b];
      BucketsTotalUpdate(buckets[..|buckets| - 1], i, b);
    } else {
      assert buckets[i := b][..|buckets| - 1] == buckets[..|buckets| - 1];
    }
  }

  lemma {:induction false} TotalUpdate(groups: seq<Group>, i: nat, g: Group)
    requires i < |groups|
    ensures Total(groups[i := g]) + BucketsTotal(groups[i].buckets) == Total(groups) + BucketsTotal(g.buckets)
  {
    if i < |groups| - 1 {
      assert groups[i := g][..|groups| - 1] == groups[..|groups| - 1][i := g];
      TotalUpdate(groups[..|groups| - 1], i, g);
    } else {
      assert groups[i := g][..|groups| - 1] == groups[..|groups| - 1];
    }
  }

  lemma AddRowTotal(groups: seq<Group>, r: Row)
    ensures Total(AddRow(groups, r)) == Total(groups) + 1
  {
    var key := ResponseKey(r.response);
    var gi := GroupIndex(groups, r.population);
    if gi.Some? {
      var i := gi.value;
      var buckets := groups[i].buckets;
      var bi := BucketIndex(buckets, key);
      if bi.Some? {
        BucketsTotalUpdate(buckets, bi.value, Bucket(key, buckets[bi.value].values + [r.percentage]));
      } else {
        var b := buckets + [Bucket(key, [r.percentage])];
        assert b[..|b| - 1] == buckets;
      }
      TotalUpdate(groups, i, Group(r.population, AddValue(buckets, key, r.percentage)));
    } else {
      var g := AddRow(groups, r);
      assert g[..|g| - 1] == groups;
      var b := [Bucket(key, [r.percentage])];
      assert b[..0] == [];
      assert BucketsTotal(b) == 1;
    }
  }

  /** Every row contributes exactly one grouped value. */
  lemma {:induction false} GroupedTotal(rows: seq<Row>)
    ensures Total(Grouped(rows)) == |rows|
  {
    if rows != [] {
      GroupedTotal(rows[..|rows| - 1]);
      AddRowTotal(Grouped(rows[..|rows| - 1]), rows[|rows| - 1]);
    }
  }

  // The results.

  /** `p = 1.0` unless both groups have at least two values; then the
      outcome of the statistical test, rounded, which is a parameter. */
  function PValue(yes: seq<real>, no: seq<real>, test: (seq<real>, seq<real>) -> real): (p: real)
    ensures |yes| < 2 || |no| < 2 ==> p == 1.0
    ensures |yes| >= 2 && |no| >= 2 ==> p == test(yes, no)
  {
    if |yes| >= 2 && |no| >= 2 then test(yes, no) else 1.0
  }

  /** The result of a group: its "yes" and "no" percentages and their
      p-value. */
  predicate ResultsOf(grouped: seq<Group>, results: seq<ResponseAnalysis>, test: (seq<real>, seq<real>) -> real) {
    |results| == |grouped|
    && forall i :: 0 <= i < |grouped| ==>
      var yes, no := Get(grouped[i].buckets, "yes"), Get(grouped[i].buckets, "no");
      results[i] == ResponseAnalysis(grouped[i].population, yes, no, PValue(yes, no, test))
  }

  /** The loop over `grouped.items()` that builds the results. */
  method BuildResults(grouped: seq<Group>, test: (seq<real>, seq<real>) -> real)
    returns (results: seq<ResponseAnalysis>)
    ensures ResultsOf(grouped, results, test)
  {
    results := [];
    for i := 0 to |grouped|
      invariant ResultsOf(grouped[..i], results, test)
    {
      var yesVals := Get(grouped[i].buckets, "yes");
      var noVals := Get(grouped[i].buckets, "no");
      var p: real;
      if |yesVals| >= 2 && |noVals| >= 2 {
        p := test(yesVals, noVals);
      } else {
        p := 1.0;
      }
      results := results + [ResponseAnalysis(grouped[i].population, yesVals, noVals, p)];
      assert grouped[..i + 1][..i] == grouped[..i];
    }
    assert grouped[..|grouped|] == grouped;
  }

  /** Each group of `grouped` holds, under every response key, the
      percentages of its population's rows with that key. */
  lemma GroupsHoldFiltered(rows: seq<Row>)
    ensures WellFormed(Grouped(rows))
    ensures forall i, k :: 0 <= i < |Grouped(rows)| ==>
      Get(Grouped(rows)[i].buckets, k) == Filtered(rows, Grouped(rows)[i].population, k)
  {
    var g := Grouped(rows);
    GroupedValues(rows);
    forall i, k | 0 <= i < |g| ensures Get(g[i].buckets, k) == Filtered(rows, g[i].population, k) {
      GroupIndexOfPopulation(g, i);
      assert Lookup(g, g[i].population, k) == Get(g[i].buckets, k);
    }
  }

  /** One result per population of the rows, each population once, in
      first-seen order. */
  lemma ResultPopulations(rows: seq<Row>, results: seq<ResponseAnalysis>, test: (seq<real>, seq<real>) -> real)
    requires ResultsOf(Grouped(rows), results, test)
    ensures forall p :: Occurs(rows, p) <==> exists i :: 0 <= i < |results| && results[i].population == p
    ensures forall i, j :: 0 <= i < j < |results| ==> results[i].population != results[j].population
    ensures forall i :: 0 <= i < |results| ==> Occurs(rows, results[i].population)
    ensures forall i, j :: 0 <= i < j < |results| ==>
      FirstIndex(rows, results[i].population) < FirstIndex(rows, results[j].population)
  {
    var grouped := Grouped(rows);
    GroupedValues(rows);
    GroupedPopulations(rows);
    GroupedFirstSeen(rows);
    assert forall i :: 0 <= i < |results| ==> results[i].population == grouped[i].population;
    forall p | Occurs(rows, p) ensures exists i :: 0 <= i < |results| && results[i].population == p {
      assert HasPopulation(grouped, p);
      var i :| 0 <= i < |grouped| && grouped[i].population == p;
      assert results[i].population == p;
    }
    forall p | exists i :: 0 <= i < |results| && results[i].population == p ensures Occurs(rows, p) {
      var i :| 0 <= i < |results| && results[i].population == p;
      assert HasPopulation(grouped, p);
    }
  }

  /** Each result holds its population's "yes" and "no" percentages, and a
      p-value of 1.0 unless both have at least two values. */
  lemma ResultValues(rows: seq<Row>, results: seq<ResponseAnalysis>, test: (seq<real>, seq<real>) -> real)
    requires ResultsOf(Grouped(rows), results, test)
    ensures forall i :: 0 <= i < |results| ==>
      results[i].responders == Filtered(rows, results[i].population, "yes")
      && results[i].nonResponders == Filtered(rows, results[i].population, "no")
      && results[i].pValue == PValue(results[i].responders, results[i].nonResponders, test)
  {
    var grouped := Grouped(rows);
    GroupsHoldFiltered(rows);
    forall i | 0 <= i < |results|
      ensures results[i].responders == Filtered(rows, results[i].population, "yes")
      ensures results[i].nonResponders == Filtered(rows, results[i].population, "no")
    {
      assert results[i].population == grouped[i].population;
      assert results[i].responders == Get(grouped[i].buckets, "yes");
      assert results[i].nonResponders == Get(grouped[i].buckets, "no");
    }
  }

  /** The response analysis after its query: one result per population of
      the rows, in first-seen order; its responders are the percentages of
      that population's "yes" rows and its non-responders those of its "no"
      rows (a missing response counting as "no"), each in row order; and
      its p-value is 1.0 unless both lists have at least two values. */
  method AnalyzeRows(rows: seq<Row>, test: (seq<real>, seq<real>) -> real)
    returns (results: seq<ResponseAnalysis>)
    ensures forall p :: Occurs(rows, p) <==> exists i :: 0 <= i < |results| && results[i].population == p
    ensures forall i, j :: 0 <= i < j < |results| ==> results[i].population != results[j].population
    ensures forall i :: 0 <= i < |results| ==> Occurs(rows, results[i].population)
    ensures forall i, j :: 0 <= i < j < |results| ==>
      FirstIndex(rows, results[i].population) < FirstIndex(rows, results[j].population)
    ensures forall i :: 0 <= i < |results| ==>
      results[i].responders == Filtered(rows, results[i].population, "yes")
      && results[i].nonResponders == Filtered(rows, results[i].population, "no")
      && results[i].pValue == PValue(results[i].responders, results[i].nonResponders, test)
  {
    var grouped := GroupRows(rows);
    results := BuildResults(grouped, test);
    ResultPopulations(rows, results, test);
    ResultValues(rows, results, test);
  }
}
