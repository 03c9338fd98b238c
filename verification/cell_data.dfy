/** The server's decoding of a sample's cell counts. The database hands each
    sample's counts over as one text, the `GROUP_CONCAT` of `cell_type:count`
    items joined with ","; the server splits it back into a map from cell
    type to count. An item that is not exactly two parts around ":" or whose
    count is not a Python integer raises, which fails the whole request. */
module CellData {
  import opened Wrappers
  import opened Text
  import opened NumberParsing

  /** One row of the cell counts table: a cell type and its count. */
  datatype Entry = Entry(cellType: string, count: int)

  /** `ct, cnt = item.split(":")` followed by `int(cnt)`; `None` stands for
      the `ValueError` either step raises. */
  function ParseItem(item: string): Option<Entry> {
    var parts := Split(item, ':');
    if |parts| != 2 then None
    else match PyInt(parts[1])
      case None => None
      case Some(n) => Some(Entry(parts[0], n))
  }

  /** Every item of the text, parsed on its own. */
  function ParseAll(items: seq<string>): (parsed: seq<Option<Entry>>)
    ensures |parsed| == |items|
    ensures forall i :: 0 <= i < |items| ==> parsed[i] == ParseItem(items[i])
  {
    if items == [] then [] else ParseAll(items[..|items| - 1]) + [ParseItem(items[|items| - 1])]
  }

  /** An item parses exactly when it is a cell type without ":", then ":",
      then a Python integer; an item without exactly one ":" raises. */
  lemma ParseItemShape(item: string)
    ensures ParseItem(item).Some? <==>
      |Split(item, ':')| == 2 && PyInt(Split(item, ':')[1]).Some?
    ensures ParseItem(item).Some? ==>
      var e := ParseItem(item).value;
      ':' !in e.cellType && item == e.cellType + ":" + Split(item, ':')[1]
      && PyInt(Split(item, ':')[1]) == Some(e.count)
    ensures Count(item, ':') != 1 ==> ParseItem(item).None?
  {
    SplitCount(item, ':');
    var parts := Split(item, ':');
    JoinSplit(item, ':');
    if |parts| == 2 {
      assert Join(parts, [':']) == parts[0] + [':'] + parts[1];
    }
  }

  /** The loop over the parsed items, item after item: a later item with the
      same cell type overwrites an earlier one; the first item that failed
      to parse fails the whole. */
  function Decoded(parsed: seq<Option<Entry>>): Option<map<string, int>> {
    if parsed == [] then Some(map[])
    else
      match Decoded(parsed[..|parsed| - 1])
      case None => None
      case Some(m) =>
        match parsed[|parsed| - 1]
        case None => None
        case Some(e) => Some(m[e.cellType := e.count])
  }

  /** The decoded counts of a sample: no text (a sample without counts) and
      the empty text decode to the empty map. */
  function CellCounts(cellData: Option<string>): Option<map<string, int>> {
    if cellData.None? || cellData.value == "" then Some(map[])
    else Decoded(ParseAll(Split(cellData.value, ',')))
  }

  /** The decoding fails exactly when one of the items fails to parse. */
  lemma {:induction false} DecodedFails(parsed: seq<Option<Entry>>)
    ensures Decoded(parsed).None? <==> exists i :: 0 <= i < |parsed| && parsed[i].None?
  {
    if parsed != [] {
      var init, last := parsed[..|parsed| - 1], parsed[|parsed| - 1];
      DecodedFails(init);
      if Decoded(init).None? {
        var i :| 0 <= i < |init| && init[i].None?;
        assert parsed[i] == init[i];
      } else if last.Some? {
        forall i | 0 <= i < |parsed| ensures parsed[i].Some? {
          if i < |init| {
            assert parsed[i] == init[i];
          }
        }
      }
    }
  }

  /** A successful decoding maps the cell type of every item, and nothing
      else. */
  lemma {:induction false} DecodedKeys(parsed: seq<Option<Entry>>)
    requires Decoded(parsed).Some?
    ensures forall i :: 0 <= i < |parsed| ==> parsed[i].Some? && parsed[i].value.cellType in Decoded(parsed).value
    ensures forall k :: k in Decoded(parsed).value ==>
      exists i :: 0 <= i < |parsed| && parsed[i].Some? && parsed[i].value.cellType == k
  {
    if parsed != [] {
      var init, last := parsed[..|parsed| - 1], parsed[|parsed| - 1];
      DecodedKeys(init);
      forall i | 0 <= i < |init| ensures init[i] == parsed[i] { }
      forall k | k in Decoded(parsed).value
        ensures exists i :: 0 <= i < |parsed| && parsed[i].Some? && parsed[i].value.cellType == k
      {
        if k != last.value.cellType {
          assert k in Decoded(init).value;
          var i :| 0 <= i < |init| && init[i].Some? && init[i].value.cellType == k;
          assert parsed[i] == init[i];
        }
      }
    }
  }

  /** A later item overwrites an earlier one: the count of a cell type is
      the one of the last item that names it. */
  lemma {:induction false} LastItemWins(parsed: seq<Option<Entry>>, i: nat)
    requires Decoded(parsed).Some? && i < |parsed| && parsed[i].Some?
    requires forall j :: i < j < |parsed| && parsed[j].Some? ==> parsed[j].value.cellType != parsed[i].value.cellType
    ensures parsed[i].value.cellType in Decoded(parsed).value
    ensures Decoded(parsed).value[parsed[i].value.cellType] == parsed[i].value.count
  {
    var init := parsed[..|parsed| - 1];
    if i < |parsed| - 1 {
      assert init[i] == parsed[i];
      assert forall j :: i < j < |init| ==> init[j] == parsed[j];
      LastItemWins(init, i);
    }
  }

  lemma DecodedPush(parsed: seq<Option<Entry>>, i: nat)
    requires i < |parsed| && Decoded(parsed[..i]).Some? && parsed[i].Some?
    ensures Decoded(parsed[..i + 1])
      == Some(Decoded(parsed[..i]).value[parsed[i].value.cellType := parsed[i].value.count])
  {
    assert parsed[..i + 1][..i] == parsed[..i];
  }

  /** The loop of the server's sample endpoints. */
  method ParseCellCounts(cellData: Option<string>) returns (cc: Option<map<string, int>>)
    ensures cc == CellCounts(cellData)
  {
    if cellData.None? || cellData.value == "" {
      return Some(map[]);
    }
    var items := Split(cellData.value, ',');
    ghost var parsed := ParseAll(items);
    var m: map<string, int> := map[];
    var i := 0;
    while i < |items|
      invariant 0 <= i <= |items|
      invariant Decoded(parsed[..i]) == Some(m)
    {
      var item := ParseItem(items[i]);
      assert item == parsed[i];
      if item.None? {
        DecodedFails(parsed);
        return None;
      }
      DecodedPush(parsed, i);
      m := m[item.value.cellType := item.value.count];
      i := i + 1;
    }
    assert parsed[..i] == parsed;
    return Some(m);
  }

  // The database side of the encoding.

  /** `c.cell_type || ':' || c.count`. */
  function RenderEntry(e: Entry): string {
    e.cellType + ":" + IntToString(e.count)
  }

  /** The entries, each rendered as an item. */
  function Rendered(entries: seq<Entry>): (items: seq<string>)
    ensures |items| == |entries|
    ensures forall i :: 0 <= i < |entries| ==> items[i] == RenderEntry(entries[i])
  {
    if entries == [] then []
    else
      var init := entries[..|entries| - 1];
      assert forall i :: 0 <= i < |init| ==> init[i] == entries[i];
      Rendered(init) + [RenderEntry(entries[|entries| - 1])]
  }

  /** `GROUP_CONCAT(...)` with its default separator ",". */
  function GroupConcat(entries: seq<Entry>): string {
    Join(Rendered(entries), ",")
  }

  /** The counts the entries denote, a later entry overwriting an earlier
      one with the same cell type. */
  function MapOf(entries: seq<Entry>): map<string, int> {
    if entries == [] then map[]
    else
      var last := entries[|entries| - 1];
      MapOf(entries[..|entries| - 1])[last.cellType := last.count]
  }

  /** With distinct cell types, every entry's count is in the map under its
      cell type, and the map holds nothing else. */
  lemma {:induction false} MapOfDistinct(entries: seq<Entry>)
    requires forall i, j :: 0 <= i < j < |entries| ==> entries[i].cellType != entries[j].cellType
    ensures forall k :: k in MapOf(entries) <==> exists i :: 0 <= i < |entries| && entries[i].cellType == k
    ensures forall i :: 0 <= i < |entries| ==> MapOf(entries)[entries[i].cellType] == entries[i].count
  {
    if entries != [] {
      var init := entries[..|entries| - 1];
      MapOfDistinct(init);
      forall k | k in MapOf(entries) ensures exists i :: 0 <= i < |entries| && entries[i].cellType == k {
        if k != entries[|entries| - 1].cellType {
          assert k in MapOf(init);
          var i :| 0 <= i < |init| && init[i].cellType == k;
          assert entries[i] == init[i];
        }
      }
      forall i | 0 <= i < |entries| ensures MapOf(entries)[entries[i].cellType] == entries[i].count {
        if i < |entries| - 1 {
          assert entries[i] == init[i];
        }
      }
    }
  }

  lemma NumeralHasNoSeparators(n: int)
    ensures ',' !in IntToString(n) && ':' !in IntToString(n)
  {
    var m := if n < 0 then -n else n;
    var digits := NatToString(m);
    assert forall i :: 0 <= i < |digits| ==> IsDigit(digits[i]);
    if n < 0 {
      assert IntToString(n) == "-" + digits;
    }
  }

  /** The server reads a rendered entry back as that entry. */
  lemma ParseRenderedEntry(e: Entry)
    requires ',' !in e.cellType && ':' !in e.cellType
    ensures ParseItem(RenderEntry(e)) == Some(e)
    ensures ',' !in RenderEntry(e)
  {
    var numeral := IntToString(e.count);
    NumeralHasNoSeparators(e.count);
    var parts := [e.cellType, numeral];
    assert Join(parts, [':']) == RenderEntry(e);
    SplitJoin(parts, ':');
    PyIntRoundTrip(e.count);
    assert RenderEntry(e) == e.cellType + [':'] + numeral;
  }

  /** The entries, each as a successfully parsed item. */
  function Parsed(entries: seq<Entry>): (parsed: seq<Option<Entry>>)
    ensures |parsed| == |entries|
    ensures forall i :: 0 <= i < |entries| ==> parsed[i] == Some(entries[i])
  {
    if entries == [] then [] else Parsed(entries[..|entries| - 1]) + [Some(entries[|entries| - 1])]
  }

  lemma {:induction false} DecodedOfEntries(entries: seq<Entry>)
    ensures Decoded(Parsed(entries)) == Some(MapOf(entries))
  {
    if entries != [] {
      var init := entries[..|entries| - 1];
      DecodedOfEntries(init);
      assert Parsed(entries)[..|entries| - 1] == Parsed(init);
    }
  }

  /** Decoding undoes the database's encoding: whatever counts a sample has,
      the server recovers them, as long as no cell type contains "," or ":". */
  lemma {:induction false} CellDataRoundTrip(entries: seq<Entry>)
    requires forall i :: 0 <= i < |entries| ==> ',' !in entries[i].cellType && ':' !in entries[i].cellType
    ensures CellCounts(Some(GroupConcat(entries))) == Some(MapOf(entries))
  {
    var items := Rendered(entries);
    DecodedOfEntries(entries);
    forall k | 0 <= k < |items| ensures ',' !in items[k] && ParseItem(items[k]) == Some(entries[k]) {
      ParseRenderedEntry(entries[k]);
    }
    assert ParseAll(items) == Parsed(entries);
    if entries != [] {
      SplitJoin(items, ',');
      assert |items[0]| > 0 by {
        assert RenderEntry(entries[0]) == entries[0].cellType + ":" + IntToString(entries[0].count);
      }
      assert GroupConcat(entries) != "" by {
        if |items| > 1 {
          assert GroupConcat(entries) == items[0] + "," + Join(items[1..], ",");
        }
      }
    }
  }
}
