/** The sidebar: the navigation buttons, each of which switches the view and
    then runs that view's loader, the upload input, which is disabled while
    the container is loading, and the button that opens the add dialog. */
module Sidebar {
  import opened Wrappers
  import opened App

  /** The navigation items, in the order they are listed. */
  const NavItems: seq<View> := [SamplesView, FreqsView, AnalysisView, FilterView]

  /** The sidebar offers four views, each once; the baseline view is not
      among them. */
  lemma NavItemsOfferFourViews()
    ensures |NavItems| == 4
    ensures forall i, j :: 0 <= i < j < |NavItems| ==> NavItems[i] != NavItems[j]
    ensures BaselineView !in NavItems
    ensures forall v: View :: v != BaselineView ==> v in NavItems
  {
    forall v: View | v != BaselineView ensures v in NavItems {
      match v
      case SamplesView => assert NavItems[0] == v;
      case FreqsView => assert NavItems[1] == v;
      case AnalysisView => assert NavItems[2] == v;
      case FilterView => assert NavItems[3] == v;
    }
  }

  /** A navigation click: `setView(item.view)`, then the loader of that view,
      which is at most one of frequencies, analysis and filters. */
  method Navigate(app: Container, item: View)
    requires item in NavItems
    modifies app`view, app`freqs, app`analysis, app`filterSummary, app`filterSamples, app`loading, app`calls
    ensures app.view == item
    ensures app.calls == old(app.calls) + ViewLoaderCalls(item, app.analysisParams, app.filterParams)
    ensures app.loading == (if LoaderClearsLoading(item) then false else old(app.loading))
    ensures item != FreqsView ==> app.freqs == old(app.freqs)
    ensures item != AnalysisView ==> app.analysis == old(app.analysis)
    ensures item != FilterView ==> app.filterSummary == old(app.filterSummary) && app.filterSamples == old(app.filterSamples)
  {
    app.view := item;
    if item == FreqsView {
      app.LoadFrequencies();
    }
    if item == AnalysisView {
      app.LoadAnalysis();
    }
    if item == FilterView {
      app.ApplyFilters();
    }
  }

  /** `disabled={loading}`. */
  predicate UploadEnabled(loading: bool) {
    !loading
  }

  /** A file chosen in the upload input reaches the container's upload
      handler only while the input is enabled; while loading, nothing
      happens. */
  method ChooseFile(app: Container, file: Option<CsvFile>)
    modifies app`samples, app`freqs, app`analysis, app`filterSummary, app`filterSamples, app`loading, app`calls
    ensures old(app.loading) ==>
      app.calls == old(app.calls) && app.loading
      && app.samples == old(app.samples) && app.freqs == old(app.freqs) && app.analysis == old(app.analysis)
      && app.filterSummary == old(app.filterSummary) && app.filterSamples == old(app.filterSamples)
    ensures !old(app.loading) && file.Some? ==>
      app.calls == old(app.calls) + [UploadCsv(file.value)] + RefreshCalls(app.view, app.analysisParams, app.filterParams)
      && !app.loading
      && (app.view != FreqsView ==> app.freqs == old(app.freqs))
      && (app.view != AnalysisView ==> app.analysis == old(app.analysis))
      && (app.view != FilterView ==> app.filterSummary == old(app.filterSummary) && app.filterSamples == old(app.filterSamples))
    ensures !old(app.loading) && file.None? ==>
      app.calls == old(app.calls) && app.loading == old(app.loading)
      && app.samples == old(app.samples) && app.freqs == old(app.freqs) && app.analysis == old(app.analysis)
      && app.filterSummary == old(app.filterSummary) && app.filterSamples == old(app.filterSamples)
  {
    if UploadEnabled(app.loading) {
      app.HandleFileUpload(file);
    }
  }

  /** The "Add Sample" button: `setAddDialogOpen(true)` and nothing else. */
  method OpenAddDialog(app: Container)
    modifies app`addDialogOpen
    ensures app.addDialogOpen
  {
    app.addDialogOpen := true;
  }
}
