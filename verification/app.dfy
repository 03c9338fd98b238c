/** The application container: the state every view reads, the loaders that
    refill its caches from the server, and the upload, delete and add
    handlers, each of which reloads the samples and then the data of the view
    on screen. Server responses are arbitrary values; the ghost `calls` trace
    records, in order, every request the container makes and every alert it
    raises. */
module App {
  import opened Wrappers
  import opened Domain
  import opened Text
  import AddSampleModal

  datatype View = SamplesView | FreqsView | AnalysisView | BaselineView | FilterView

  /** An uploaded file, passed to the server unread. */
  datatype CsvFile = CsvFile(name: string, content: seq<bv8>)

  /** A failed `addSample`: the server's `detail`, when the response has one,
      and the error's own message. */
  datatype AddError = AddError(detail: Option<string>, message: string)

  /** A request to the server, or an alert shown to the user. */
  datatype Call =
    | GetSamples
    | GetFrequencies
    | GetResponseAnalysis(params: FilterParams)
    | GetFilterSummary(params: FilterParams)
    | GetFilterSamples(params: FilterParams)
    | UploadCsv(file: CsvFile)
    | DeleteSample(id: string)
    | AddSample(sample: Sample)
    | Alert(text: string)

  const PageSize: nat := 500

  const NoFilter: FilterParams := FilterParams(None, None, None, None)

  const InitialAnalysisParams: FilterParams := FilterParams(Some("melanoma"), Some("miraclib"), Some("PBMC"), None)

  /** The blank draft the dialog starts from, and returns to after an add. */
  const DefaultDraft: Sample := Sample(
    "", "", "", Some(""), Some(0), Some(""), Some(""), Some(""), "PBMC", 0,
    map["b_cell" := 0, "cd8_t_cell" := 0, "cd4_t_cell" := 0, "nk_cell" := 0, "monocyte" := 0])

  /** The requests of the view-specific loader that follows a samples reload:
      frequencies, analysis or filters, and none for the samples and baseline
      views. */
  function ViewLoaderCalls(view: View, analysisParams: FilterParams, filterParams: FilterParams): seq<Call> {
    match view
    case FreqsView => [GetFrequencies]
    case AnalysisView => [GetResponseAnalysis(analysisParams)]
    case FilterView => [GetFilterSummary(filterParams), GetFilterSamples(filterParams)]
    case SamplesView => []
    case BaselineView => []
  }

  /** The requests of a refresh: the samples first, then the view's loader. */
  function RefreshCalls(view: View, analysisParams: FilterParams, filterParams: FilterParams): seq<Call> {
    [GetSamples] + ViewLoaderCalls(view, analysisParams, filterParams)
  }

  /** Whether the view's loader toggles the loading flag (and so leaves it
      off). */
  predicate LoaderClearsLoading(view: View) {
    view == AnalysisView || view == FilterView
  }

  /** A refresh reloads the samples first and then runs at most one loader:
      exactly one for the frequencies, analysis and filter views, fetching
      only what that view shows, and none for the samples and baseline views. */
  lemma RefreshRunsOneLoader(view: View, ap: FilterParams, fp: FilterParams)
    ensures var calls := RefreshCalls(view, ap, fp);
      calls[0] == GetSamples && GetSamples !in calls[1..]
      && (view == SamplesView || view == BaselineView <==> calls == [GetSamples])
      && (GetFrequencies in calls <==> view == FreqsView)
      && ((exists p :: GetResponseAnalysis(p) in calls) <==> view == AnalysisView)
      && ((exists p :: GetFilterSummary(p) in calls) <==> view == FilterView)
      && ((exists p :: GetFilterSamples(p) in calls) <==> view == FilterView)
  {
    var calls := RefreshCalls(view, ap, fp);
    assert calls[1..] == ViewLoaderCalls(view, ap, fp);
    if view == AnalysisView {
      assert GetResponseAnalysis(ap) in calls;
    }
    if view == FilterView {
      assert GetFilterSummary(fp) in calls && GetFilterSamples(fp) in calls;
    }
  }

  /** The alert of the first of sample id, project and subject that is blank
      after trimming, or `None` when all three are filled in. */
  function AddRejection(draft: Sample): Option<string> {
    if Blank(draft.sampleId) then Some("\U{26A0}\U{FE0F} Please enter a Sample ID.")
    else if Blank(draft.project) then Some("\U{26A0}\U{FE0F} Please select a Project.")
    else if Blank(draft.subject) then Some("\U{26A0}\U{FE0F} Please enter a Subject.")
    else None
  }

  /** What JavaScript shows for `err.response?.data?.detail` in a string
      concatenation. */
  function DetailText(detail: Option<string>): string {
    detail.GetOr("undefined")
  }

  /** `"Failed to add sample: " + detail || err.message`. The `+` binds
      tighter than `||`, so the left operand is the whole concatenation. */
  function FailureAlert(err: AddError): string {
    var left := "Failed to add sample: " + DetailText(err.detail);
    if left != "" then left else err.message
  }

  /** The concatenation is never empty, so `err.message` is never shown: the
      alert depends on the server's detail alone, and reads "undefined" when
      there is none. */
  lemma FailureAlertIgnoresMessage(e1: AddError, e2: AddError)
    ensures FailureAlert(e1) == "Failed to add sample: " + DetailText(e1.detail)
    ensures e1.detail == e2.detail ==> FailureAlert(e1) == FailureAlert(e2)
    ensures e1.detail.None? ==> FailureAlert(e1) == "Failed to add sample: undefined"
  {
  }

  /** A list of required fields in the dialog's order that holds nothing
      but the sex is empty or the sex alone. */
  lemma OnlySexMissing(m: seq<AddSampleModal.RequiredField>)
    requires AddSampleModal.StrictlyRanked(m)
    requires forall f :: f in m ==> f == AddSampleModal.SexField
    ensures m == [] || m == [AddSampleModal.SexField]
  {
    assert |m| < 2 || AddSampleModal.Rank(m[0]) < AddSampleModal.Rank(m[1]);
    forall i | 0 <= i < |m| ensures m[i] == AddSampleModal.SexField {
      assert m[i] in m;
    }
  }

  /** The container accepts a draft only when the dialog's own check would,
      up to the sex, which the container does not check. */
  lemma ContainerAcceptsOnlyWhatDialogAccepts(draft: Sample)
    requires AddRejection(draft) == None
    ensures AddSampleModal.MissingFields(draft) == [] || AddSampleModal.MissingFields(draft) == [AddSampleModal.SexField]
  {
    AddSampleModal.MissingFieldsExact(draft);
    assert draft.project != "" by {
      BlankIff("");
    }
    OnlySexMissing(AddSampleModal.MissingFields(draft));
  }

  /** Of the drafts the dialog passes on, the container rejects exactly those
      whose project is made of spaces, which the dialog does not trim. */
  lemma DialogPassesSpacesInProject(draft: Sample)
    requires AddSampleModal.MissingFields(draft) == []
    ensures AddRejection(draft) == None <==> !Blank(draft.project)
  {
    AddSampleModal.MissingFieldsExact(draft);
    assert !AddSampleModal.IsMissing(draft, AddSampleModal.SampleIdField);
    assert !AddSampleModal.IsMissing(draft, AddSampleModal.SubjectField);
  }

  /** What `handleAdd` ended with. */
  datatype AddOutcome = Rejected(alert: string) | AddFailed(error: AddError, alert: string) | Added

  /** The state of the application component. */
  class Container {
    var view: View
    var currentPage: int
    var filterPage: int
    var samples: seq<Sample>
    var freqs: seq<Frequency>
    var analysis: seq<ResponseAnalysis>
    var filterParams: FilterParams
    var filterSummary: Option<FilterSummary>
    var filterSamples: seq<Sample>
    var analysisParams: FilterParams
    var loading: bool
    var addDialogOpen: bool
    var newSample: Sample
    ghost var calls: seq<Call>

    constructor ()
      ensures view == SamplesView && currentPage == 1 && filterPage == 1
      ensures samples == [] && freqs == [] && analysis == []
      ensures filterParams == NoFilter && filterSummary == None && filterSamples == []
      ensures analysisParams == InitialAnalysisParams
      ensures !loading && !addDialogOpen && newSample == DefaultDraft
      ensures calls == []
    {
      view, currentPage, filterPage := SamplesView, 1, 1;
      samples, freqs, analysis := [], [], [];
      filterParams, filterSummary, filterSamples := NoFilter, None, [];
      analysisParams := InitialAnalysisParams;
      loading, addDialogOpen, newSample := false, false, DefaultDraft;
      calls := [];
    }

    /** `loadSamples`, also run once when the application mounts. */
    method LoadSamples()
      modifies this`samples, this`calls
      ensures calls == old(calls) + [GetSamples]
    {
      var result: seq<Sample> :| true;
      calls := calls + [GetSamples];
      samples := result;
    }

    /** `loadFrequencies`. */
    method LoadFrequencies()
      modifies this`freqs, this`calls
      ensures calls == old(calls) + [GetFrequencies]
    {
      var result: seq<Frequency> :| true;
      calls := calls + [GetFrequencies];
      freqs := result;
    }

    /** `loadAnalysis`: fetch the analysis for the current parameters with the
        loading flag raised, and lower it at the end. */
    method LoadAnalysis()
      modifies this`analysis, this`loading, this`calls
      ensures calls == old(calls) + [GetResponseAnalysis(analysisParams)]
      ensures !loading
    {
      loading := true;
      var result: seq<ResponseAnalysis> :| true;
      calls := calls + [GetResponseAnalysis(analysisParams)];
      analysis := result;
      loading := false;
    }

    /** `applyFilters`: fetch the summary, then the samples, both for the same
        parameters, replace both caches, and lower the loading flag. */
    method ApplyFilters()
      modifies this`filterSummary, this`filterSamples, this`loading, this`calls
      ensures calls == old(calls) + [GetFilterSummary(filterParams), GetFilterSamples(filterParams)]
      ensures filterSummary.Some?
      ensures !loading
    {
      loading := true;
      var summary: FilterSummary :| true;
      calls := calls + [GetFilterSummary(filterParams)];
      filterSummary := Some(summary);
      var result: seq<Sample> :| true;
      calls := calls + [GetFilterSamples(filterParams)];
      filterSamples := result;
      loading := false;
    }

    /** The caches of the views other than `v` are as they were. */
    twostate predicate OtherViewsKept(v: View)
      reads this
    {
      (v != FreqsView ==> freqs == old(freqs))
      && (v != AnalysisView ==> analysis == old(analysis))
      && (v != FilterView ==> filterSummary == old(filterSummary) && filterSamples == old(filterSamples))
    }

    /** The three conditional loader calls that follow every samples reload. */
    method LoadViewData()
      modifies this`freqs, this`analysis, this`filterSummary, this`filterSamples, this`loading, this`calls
      ensures calls == old(calls) + ViewLoaderCalls(view, analysisParams, filterParams)
      ensures loading == (if LoaderClearsLoading(view) then false else old(loading))
      ensures view == FilterView ==> filterSummary.Some?
      ensures OtherViewsKept(view)
    {
      if view == FreqsView {
        LoadFrequencies();
      }
      if view == AnalysisView {
        LoadAnalysis();
      }
      if view == FilterView {
        ApplyFilters();
      }
    }

    /** Reload the samples, then the data of the view on screen. */
    method Refresh()
      modifies this`samples, this`freqs, this`analysis, this`filterSummary, this`filterSamples, this`loading, this`calls
      ensures calls == old(calls) + RefreshCalls(view, analysisParams, filterParams)
      ensures loading == (if LoaderClearsLoading(view) then false else old(loading))
      ensures OtherViewsKept(view)
    {
      LoadSamples();
      LoadViewData();
    }

    /** `handleFileUpload`: with no file chosen nothing happens; otherwise the
        file is sent with the loading flag raised, everything is refreshed,
        and the flag is lowered at the end. */
    method HandleFileUpload(file: Option<CsvFile>)
      modifies this`samples, this`freqs, this`analysis, this`filterSummary, this`filterSamples, this`loading, this`calls
      ensures file.None? ==>
        calls == old(calls) && loading == old(loading)
        && samples == old(samples) && freqs == old(freqs) && analysis == old(analysis)
        && filterSummary == old(filterSummary) && filterSamples == old(filterSamples)
      ensures file.Some? ==> calls == old(calls) + [UploadCsv(file.value)] + RefreshCalls(view, analysisParams, filterParams)
      ensures file.Some? ==> !loading && OtherViewsKept(view)
    {
      if file.None? {
        return;
      }
      loading := true;
      calls := calls + [UploadCsv(file.value)];
      Refresh();
      loading := false;
    }

    /** `handleDelete`: delete the sample, then refresh. */
    method HandleDelete(id: string)
      modifies this`samples, this`freqs, this`analysis, this`filterSummary, this`filterSamples, this`loading, this`calls
      ensures calls == old(calls) + [DeleteSample(id)] + RefreshCalls(view, analysisParams, filterParams)
      ensures loading == (if LoaderClearsLoading(view) then false else old(loading))
      ensures OtherViewsKept(view)
    {
      calls := calls + [DeleteSample(id)];
      Refresh();
    }

    /** The state the add handlers may change, other than the trace, is as
        it was: the dialog flag, the draft, every cache and the loading flag. */
    twostate predicate KeptButTrace()
      reads this
    {
      addDialogOpen == old(addDialogOpen) && newSample == old(newSample)
      && samples == old(samples) && freqs == old(freqs) && analysis == old(analysis)
      && filterSummary == old(filterSummary) && filterSamples == old(filterSamples)
      && loading == old(loading)
    }

    /** `addSample`: the server either stores the sample or reports an error. */
    method PostSample(sample: Sample) returns (result: Result<(), AddError>)
      modifies this`calls
      ensures calls == old(calls) + [AddSample(sample)]
    {
      result :| true;
      calls := calls + [AddSample(sample)];
    }

    /** The `try` part of `handleAdd`: send the draft; on failure show the
        failure alert and keep the dialog and the draft; on success close the
        dialog, refresh, and reset the draft. */
    method SubmitDraft() returns (outcome: AddOutcome)
      modifies this`samples, this`freqs, this`analysis, this`filterSummary, this`filterSamples
      modifies this`loading, this`calls, this`addDialogOpen, this`newSample
      ensures !outcome.Rejected?
      ensures outcome.AddFailed? ==>
        outcome.alert == FailureAlert(outcome.error)
        && calls == old(calls) + [AddSample(old(newSample)), Alert(outcome.alert)]
        && KeptButTrace()
      ensures outcome.Added? ==>
        calls == old(calls) + [AddSample(old(newSample))] + RefreshCalls(view, analysisParams, filterParams)
        && !addDialogOpen && newSample == DefaultDraft
        && loading == (if LoaderClearsLoading(view) then false else old(loading))
        && OtherViewsKept(view)
    {
      var result := PostSample(newSample);
      if result.Failure? {
        var text := FailureAlert(result.error);
        calls := calls + [Alert(text)];
        return AddFailed(result.error, text);
      }
      addDialogOpen := false;
      Refresh();
      newSample := DefaultDraft;
      return Added;
    }

    /** `alert(...)` followed by `return`: the alert is the only effect. */
    method Reject(alert: string)
      modifies this`calls
      ensures calls == old(calls) + [Alert(alert)]
      ensures KeptButTrace()
    {
      calls := calls + [Alert(alert)];
    }

    /** What `handleAdd` leaves behind for the draft it started from:
        rejected exactly when the container's own check fails, with that
        alert and nothing else changed; after a failed request only the
        failure alert; after success the dialog closed, a refresh, and the
        draft reset. */
    twostate predicate AddHandled(draft: Sample, outcome: AddOutcome)
      reads this
    {
      (outcome.Rejected? <==> AddRejection(draft).Some?)
      && (outcome.Rejected? ==>
            outcome.alert == AddRejection(draft).value
            && calls == old(calls) + [Alert(outcome.alert)]
            && KeptButTrace())
      && (outcome.AddFailed? ==>
            outcome.alert == FailureAlert(outcome.error)
            && calls == old(calls) + [AddSample(draft), Alert(outcome.alert)]
            && KeptButTrace())
      && (outcome.Added? ==>
            calls == old(calls) + [AddSample(draft)] + RefreshCalls(view, analysisParams, filterParams)
            && !addDialogOpen && newSample == DefaultDraft
            && loading == (if LoaderClearsLoading(view) then false else old(loading))
            && OtherViewsKept(view))
    }

    /** `handleAdd`. A draft whose sample id, project or subject is blank is
        rejected with the first such field's alert, before any request and
        with nothing else changed; any other draft is sent. */
    method HandleAdd() returns (outcome: AddOutcome)
      modifies this`samples, this`freqs, this`analysis, this`filterSummary, this`filterSamples
      modifies this`loading, this`calls, this`addDialogOpen, this`newSample
      ensures AddHandled(old(newSample), outcome)
    {
      var rejection := AddRejection(newSample);
      if rejection.Some? {
        Reject(rejection.value);
        return Rejected(rejection.value);
      }
      outcome := SubmitDraft();
    }

    /** The dialog's Add button: the dialog's own check first, then, if it
        passes, the container's `handleAdd`. */
    method SubmitAddDialog(modal: AddSampleModal.Modal) returns (outcome: Option<AddOutcome>)
      modifies this`samples, this`freqs, this`analysis, this`filterSummary, this`filterSamples
      modifies this`loading, this`calls, this`addDialogOpen, this`newSample, modal
      ensures outcome.None? <==> AddSampleModal.MissingFields(old(newSample)) != []
      ensures outcome.None? ==>
        calls == old(calls) && KeptButTrace()
        && modal.notification == AddSampleModal.Notification(true, AddSampleModal.ErrorKind, "Missing Required Fields",
             AddSampleModal.MissingMessage(AddSampleModal.MissingNames(old(newSample))))
        && modal.onAddCalls == old(modal.onAddCalls)
      ensures outcome.Some? ==>
        modal.notification == old(modal.notification) && modal.onAddCalls == old(modal.onAddCalls) + 1
        && AddHandled(old(newSample), outcome.value)
      ensures outcome.Some? && !Blank(old(newSample.project)) ==> !outcome.value.Rejected?
    {
      var added := modal.HandleAdd(newSample);
      if !added {
        return None;
      }
      ghost var draft := newSample;
      DialogPassesSpacesInProject(draft);
      assert !Blank(draft.project) ==> AddRejection(draft).None?;
      var o := HandleAdd();
      assert o.Rejected? ==> AddRejection(draft).Some?;
      return Some(o);
    }
  }
}
