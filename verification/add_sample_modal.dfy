/** The add-sample dialog: the edits its inputs make to the draft sample, the
    check that collects every missing required field before handing the
    draft on, and the notification that reports the missing fields. */
module AddSampleModal {
  import opened Wrappers
  import opened Domain
  import opened Text
  import opened NumberParsing

  /** The fields the dialog requires, in the order it checks them. */
  datatype RequiredField = SampleIdField | ProjectField | SubjectField | SexField

  const RequiredFields: seq<RequiredField> := [SampleIdField, ProjectField, SubjectField, SexField]

  function FieldName(f: RequiredField): string {
    match f
    case SampleIdField => "Sample ID"
    case ProjectField => "Project"
    case SubjectField => "Subject"
    case SexField => "Sex"
  }

  /** The sample id and the subject are missing when blank after trimming;
      the project and the sex only when empty or absent, without trimming. */
  predicate IsMissing(draft: Sample, f: RequiredField) {
    match f
    case SampleIdField => Blank(draft.sampleId)
    case ProjectField => draft.project == ""
    case SubjectField => Blank(draft.subject)
    case SexField => draft.sex.GetOr("") == ""
  }

  /** The position of a field in the order the dialog checks them. */
  function Rank(f: RequiredField): (r: nat)
    ensures r < |RequiredFields| && RequiredFields[r] == f
  {
    match f
    case SampleIdField => 0
    case ProjectField => 1
    case SubjectField => 2
    case SexField => 3
  }

  /** The fields that fail their test. */
  function MissingSet(draft: Sample): set<RequiredField> {
    set f: RequiredField | f in RequiredFields && IsMissing(draft, f)
  }

  /** The fields of `fields` that are missing, in the order of `fields`:
      each field in turn is pushed when it is missing. */
  function MissingAmong(missing: set<RequiredField>, fields: seq<RequiredField>): seq<RequiredField> {
    if fields == [] then []
    else
      var last := fields[|fields| - 1];
      MissingAmong(missing, fields[..|fields| - 1]) + (if last in missing then [last] else [])
  }

  function MissingFields(draft: Sample): seq<RequiredField> {
    MissingAmong(MissingSet(draft), RequiredFields)
  }

  predicate StrictlyRanked(fields: seq<RequiredField>) {
    forall i, j :: 0 <= i < j < |fields| ==> Rank(fields[i]) < Rank(fields[j])
  }

  lemma {:induction false} MissingAmongFacts(missing: set<RequiredField>, fields: seq<RequiredField>)
    requires StrictlyRanked(fields)
    ensures forall f :: f in MissingAmong(missing, fields) <==> f in fields && f in missing
    ensures StrictlyRanked(MissingAmong(missing, fields))
  {
    if fields != [] {
      var init, last := fields[..|fields| - 1], fields[|fields| - 1];
      var before := MissingAmong(missing, init);
      var step := if last in missing then [last] else [];
      assert StrictlyRanked(init);
      MissingAmongFacts(missing, init);
      assert MissingAmong(missing, fields) == before + step;
      forall f ensures f in before + step <==> f in fields && f in missing {
        assert f in fields <==> f in init || f == last;
      }
      forall f | f in before ensures Rank(f) < Rank(last) {
        var i :| 0 <= i < |init| && init[i] == f;
        assert fields[i] == f;
      }
    }
  }

  /** The list holds exactly the failing fields, each once, in the order
      Sample ID, Project, Subject, Sex; it is empty exactly when nothing is
      missing. */
  lemma MissingFieldsExact(draft: Sample)
    ensures forall f :: f in MissingFields(draft) <==> IsMissing(draft, f)
    ensures StrictlyRanked(MissingFields(draft))
    ensures MissingFields(draft) == [] <==> forall f :: !IsMissing(draft, f)
  {
    var missing := MissingSet(draft);
    var m := MissingAmong(missing, RequiredFields);
    MissingAmongFacts(missing, RequiredFields);
    forall f ensures f in m <==> IsMissing(draft, f) {
      assert RequiredFields[Rank(f)] == f;
      assert f in missing <==> IsMissing(draft, f);
    }
    if m != [] {
      assert m[0] in m;
    }
  }

  /** The names of the fields of `fields` that are missing. */
  function MissingNamesAmong(missing: set<RequiredField>, fields: seq<RequiredField>): seq<string> {
    if fields == [] then []
    else
      var last := fields[|fields| - 1];
      MissingNamesAmong(missing, fields[..|fields| - 1]) + (if last in missing then [FieldName(last)] else [])
  }

  /** The names the dialog pushes, one per missing field. */
  function MissingNames(draft: Sample): seq<string> {
    MissingNamesAmong(MissingSet(draft), RequiredFields)
  }

  lemma {:induction false} NamesOfMissingAmong(missing: set<RequiredField>, fields: seq<RequiredField>)
    ensures |MissingNamesAmong(missing, fields)| == |MissingAmong(missing, fields)|
    ensures forall i :: 0 <= i < |MissingAmong(missing, fields)| ==>
      MissingNamesAmong(missing, fields)[i] == FieldName(MissingAmong(missing, fields)[i])
  {
    if fields != [] {
      NamesOfMissingAmong(missing, fields[..|fields| - 1]);
    }
  }

  /** The names pushed are the names of the missing fields, in the same order. */
  lemma NamesOfMissing(draft: Sample)
    ensures |MissingNames(draft)| == |MissingFields(draft)|
    ensures forall i :: 0 <= i < |MissingFields(draft)| ==> MissingNames(draft)[i] == FieldName(MissingFields(draft)[i])
  {
    NamesOfMissingAmong(MissingSet(draft), RequiredFields);
  }

  /** `handleAdd`'s collection step: one test per required field, pushing the
      field's name when it is missing. */
  method CollectMissingFields(draft: Sample) returns (missing: seq<string>)
    ensures missing == MissingNames(draft)
  {
    missing := [];
    if Blank(draft.sampleId) {
      missing := missing + ["Sample ID"];
    }
    ghost var m1 := missing;
    assert m1 == [] + Pushed(draft, SampleIdField);
    if draft.project == "" {
      missing := missing + ["Project"];
    }
    ghost var m2 := missing;
    assert m2 == m1 + Pushed(draft, ProjectField);
    if Blank(draft.subject) {
      missing := missing + ["Subject"];
    }
    ghost var m3 := missing;
    assert m3 == m2 + Pushed(draft, SubjectField);
    if draft.sex.GetOr("") == "" {
      missing := missing + ["Sex"];
    }
    assert missing == m3 + Pushed(draft, SexField);
    MissingNamesInOrder(draft);
  }

  function Pushed(draft: Sample, f: RequiredField): seq<string> {
    if IsMissing(draft, f) then [FieldName(f)] else []
  }

  /** The missing names, one required field after the other. */
  lemma MissingNamesInOrder(draft: Sample)
    ensures MissingNames(draft)
      == [] + Pushed(draft, SampleIdField) + Pushed(draft, ProjectField) + Pushed(draft, SubjectField) + Pushed(draft, SexField)
  {
    var fs, ms := RequiredFields, MissingSet(draft);
    forall k | 1 <= k <= 4
      ensures MissingNamesAmong(ms, fs[..k]) == MissingNamesAmong(ms, fs[..k - 1]) + Pushed(draft, fs[k - 1])
    {
      assert fs[..k][..k - 1] == fs[..k - 1];
    }
    assert fs[..4] == fs;
    assert fs[..0] == [];
    var m1 := MissingNamesAmong(ms, fs[..1]);
    var m2 := MissingNamesAmong(ms, fs[..2]);
    var m3 := MissingNamesAmong(ms, fs[..3]);
    assert m1 == [] + Pushed(draft, SampleIdField);
    assert m2 == m1 + Pushed(draft, ProjectField);
    assert m3 == m2 + Pushed(draft, SubjectField);
    assert MissingNames(draft) == m3 + Pushed(draft, SexField);
  }

  const MissingPrefix: string := "Please fill in the following required fields: "

  function MissingMessage(missing: seq<string>): string {
    MissingPrefix + Join(missing, ", ")
  }

  lemma NoCommaInFieldName(f: RequiredField)
    ensures Count(FieldName(f), ',') == 0
  {
    assert ',' !in FieldName(f);
    CountAbsent(FieldName(f), ',');
  }

  /** After the fixed prefix, the message lists the missing names with a
      comma between each two of them; a single missing field is named alone. */
  lemma MissingMessageShape(draft: Sample)
    requires MissingFields(draft) != []
    ensures var msg := MissingMessage(MissingNames(draft));
      |MissingPrefix| <= |msg| && msg[..|MissingPrefix|] == MissingPrefix
      && Count(msg[|MissingPrefix|..], ',') == |MissingFields(draft)| - 1
      && (|MissingFields(draft)| == 1 ==> msg[|MissingPrefix|..] == FieldName(MissingFields(draft)[0]))
  {
    var missing := MissingNames(draft);
    var msg := MissingMessage(missing);
    NamesOfMissing(draft);
    forall k | 0 <= k < |missing| ensures Count(missing[k], ',') == 0 {
      NoCommaInFieldName(MissingFields(draft)[k]);
    }
    assert Count(", ", ',') == 1;
    CountJoinSeparators(missing, ", ", ',');
    assert msg[|MissingPrefix|..] == Join(missing, ", ");
  }

  datatype NotificationKind = ErrorKind | SuccessKind | WarningKind | InfoKind

  datatype Notification = Notification(isOpen: bool, kind: NotificationKind, title: string, message: string)

  /** The dialog's local state: the notification it shows over itself, and,
      as a ghost, how often it has handed the draft on through `onAdd`. */
  class Modal {
    var notification: Notification
    ghost var onAddCalls: nat

    constructor ()
      ensures notification == Notification(false, InfoKind, "", "")
      ensures onAddCalls == 0
    {
      notification := Notification(false, InfoKind, "", "");
      onAddCalls := 0;
    }

    /** The Add button: with any field missing, an error notification lists
        them and the draft is not handed on; otherwise the draft is handed on
        once and the notification is left alone. */
    method HandleAdd(draft: Sample) returns (added: bool)
      modifies this
      ensures added <==> MissingFields(draft) == []
      ensures !added ==>
        notification == Notification(true, ErrorKind, "Missing Required Fields", MissingMessage(MissingNames(draft)))
        && onAddCalls == old(onAddCalls)
      ensures added ==> notification == old(notification) && onAddCalls == old(onAddCalls) + 1
    {
      var missing := CollectMissingFields(draft);
      NamesOfMissing(draft);
      if |missing| > 0 {
        notification := Notification(true, ErrorKind, "Missing Required Fields", MissingMessage(missing));
        added := false;
        return;
      }
      onAddCalls := onAddCalls + 1;
      added := true;
    }

    /** Closing the notification hides it and keeps what it said. */
    method CloseNotification()
      modifies this`notification
      ensures notification == old(notification).(isOpen := false)
    {
      notification := notification.(isOpen := false);
    }
  }

  /** What one input of the dialog does to the draft. */
  datatype DraftEdit =
    | EditSampleId(text: string)
    | EditProject(text: string)
    | EditSubject(text: string)
    | EditAge(text: string)
    | EditCondition(text: string)
    | EditSex(text: string)
    | EditTreatment(text: string)
    | EditResponse(text: string)
    | EditSampleType(text: string)
    | EditTime(text: string)
    | EditCellCount(cell: string, text: string)

  datatype SampleField =
    SampleIdF | ProjectF | SubjectF | ConditionF | AgeF | SexF | TreatmentF | ResponseF | SampleTypeF | TimeF | CellCountsF

  function EditedField(e: DraftEdit): SampleField {
    match e
    case EditSampleId(_) => SampleIdF
    case EditProject(_) => ProjectF
    case EditSubject(_) => SubjectF
    case EditAge(_) => AgeF
    case EditCondition(_) => ConditionF
    case EditSex(_) => SexF
    case EditTreatment(_) => TreatmentF
    case EditResponse(_) => ResponseF
    case EditSampleType(_) => SampleTypeF
    case EditTime(_) => TimeF
    case EditCellCount(_, _) => CellCountsF
  }

  /** `a` and `b` agree on every field but `f`. */
  predicate AgreeExcept(a: Sample, b: Sample, f: SampleField) {
    (f != SampleIdF ==> a.sampleId == b.sampleId)
    && (f != ProjectF ==> a.project == b.project)
    && (f != SubjectF ==> a.subject == b.subject)
    && (f != ConditionF ==> a.condition == b.condition)
    && (f != AgeF ==> a.age == b.age)
    && (f != SexF ==> a.sex == b.sex)
    && (f != TreatmentF ==> a.treatment == b.treatment)
    && (f != ResponseF ==> a.response == b.response)
    && (f != SampleTypeF ==> a.sampleType == b.sampleType)
    && (f != TimeF ==> a.timeFromTreatmentStart == b.timeFromTreatmentStart)
    && (f != CellCountsF ==> a.cellCounts == b.cellCounts)
  }

  /** A number input: `text === "" ? 0 : Number.parseInt(text) || 0`. */
  function NumericInput(text: string): (n: int)
    ensures text == "" ==> n == 0
    ensures n == 0 || ParseInt(text) == Some(n)
  {
    if text == "" then 0 else ParseIntOr(text, 0)
  }

  /** What a number input shows: `value || ""`. */
  function ShownNumber(n: int): string {
    if n == 0 then "" else IntToString(n)
  }

  /** An optional select: `text || undefined`. */
  function OptionalChoice(text: string): (r: Option<string>)
    ensures r.GetOr("") == text
    ensures r == None <==> text == ""
  {
    if text == "" then None else Some(text)
  }

  /** `setNewSample({...newSample, field: coerced input})`. The sample id,
      project, subject, sex and sample type take the text as given; the
      condition, treatment and response clear on the empty option; age and
      cell counts take the coerced number, a cell count under its own key;
      the time option is read with `parseInt`, and its options are all
      numerals. */
  function ApplyEdit(draft: Sample, e: DraftEdit): (r: Sample)
    requires e.EditTime? ==> ParseInt(e.text).Some?
    ensures AgreeExcept(draft, r, EditedField(e))
    ensures e.EditSampleId? ==> r.sampleId == e.text
    ensures e.EditProject? ==> r.project == e.text
    ensures e.EditSubject? ==> r.subject == e.text
    ensures e.EditSex? ==> r.sex == Some(e.text)
    ensures e.EditSampleType? ==> r.sampleType == e.text
    ensures e.EditAge? ==> r.age == Some(NumericInput(e.text))
    ensures e.EditCellCount? ==>
      e.cell in r.cellCounts && r.cellCounts[e.cell] == NumericInput(e.text)
      && r.cellCounts.Keys == draft.cellCounts.Keys + {e.cell}
      && forall k :: k in draft.cellCounts && k != e.cell ==> r.cellCounts[k] == draft.cellCounts[k]
    ensures e.EditCondition? ==> r.condition == OptionalChoice(e.text)
    ensures e.EditTreatment? ==> r.treatment == OptionalChoice(e.text)
    ensures e.EditResponse? ==> r.response == OptionalChoice(e.text)
    ensures e.EditTime? ==> Some(r.timeFromTreatmentStart) == ParseInt(e.text)
  {
    match e
    case EditSampleId(t) => draft.(sampleId := t)
    case EditProject(t) => draft.(project := t)
    case EditSubject(t) => draft.(subject := t)
    case EditAge(t) => draft.(age := Some(NumericInput(t)))
    case EditCondition(t) => draft.(condition := OptionalChoice(t))
    case EditSex(t) => draft.(sex := Some(t))
    case EditTreatment(t) => draft.(treatment := OptionalChoice(t))
    case EditResponse(t) => draft.(response := OptionalChoice(t))
    case EditSampleType(t) => draft.(sampleType := t)
    case EditTime(t) => draft.(timeFromTreatmentStart := ParseInt(t).value)
    case EditCellCount(cell, t) => draft.(cellCounts := draft.cellCounts[cell := NumericInput(t)])
  }

  /** The coercion of a number input: the empty text, an unreadable text and
      zero all give 0, and a readable non-zero number is kept. */
  lemma NumericInputCoercion(text: string)
    ensures ParseInt(text) == None ==> NumericInput(text) == 0
    ensures forall v :: ParseInt(text) == Some(v) ==> NumericInput(text) == v
  {
  }

  /** Retyping what a number input shows gives back the number it holds. */
  lemma NumericInputOfShown(n: int)
    ensures NumericInput(ShownNumber(n)) == n
  {
    if n != 0 {
      ParseIntRoundTrip(n);
      TrimOfNumeral(n);
    }
  }

  /** Making the same edit twice is the same as making it once. */
  lemma EditIdempotent(draft: Sample, e: DraftEdit)
    requires e.EditTime? ==> ParseInt(e.text).Some?
    ensures ApplyEdit(ApplyEdit(draft, e), e) == ApplyEdit(draft, e)
  {
  }

  /** Reselecting the option an optional select shows keeps the field, except
      that a field holding the empty text (as the initial draft does) is
      cleared. */
  lemma ReselectOptional(draft: Sample)
    ensures draft.condition != Some("") ==>
      ApplyEdit(draft, EditCondition(draft.condition.GetOr(""))) == draft
    ensures draft.condition == Some("") ==>
      ApplyEdit(draft, EditCondition(draft.condition.GetOr(""))).condition == None
  {
  }
}
