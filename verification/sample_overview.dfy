/** The sample overview's delete confirmation: clicking Delete on a row opens
    a dialog naming the sample, confirming forwards the pending id to the
    container's delete handler once and closes the dialog, and cancelling
    closes it without deleting. The table itself pages through the samples
    with module `Pagination`. */
module SampleOverview {
  import opened Wrappers
  import opened Domain

  /** `samples.find(s => s.sample_id === id)`, as the index of the first match. */
  function Find(samples: seq<Sample>, id: string): (r: Option<nat>)
    ensures r.Some? ==> r.value < |samples| && samples[r.value].sampleId == id
    ensures r.Some? ==> forall j :: 0 <= j < r.value ==> samples[j].sampleId != id
    ensures r.None? <==> forall j :: 0 <= j < |samples| ==> samples[j].sampleId != id
  {
    if samples == [] then None
    else if samples[0].sampleId == id then Some(0)
    else match Find(samples[1..], id)
      case Some(i) => Some(i + 1)
      case None => None
  }

  /** `sample?.sample_id || sampleId`: the name the dialog shows. */
  function DisplayName(samples: seq<Sample>, id: string): string {
    match Find(samples, id)
    case Some(i) => if samples[i].sampleId != "" then samples[i].sampleId else id
    case None => id
  }

  /** The dialog always names the sample by the id that was clicked, whether
      or not the sample is in the list. */
  lemma DisplayNameIsId(samples: seq<Sample>, id: string)
    ensures DisplayName(samples, id) == id
  {
  }

  const DialogTitle: string := "Delete Sample"

  /** The `deleteConfirmation` state of the overview and, as a ghost, the ids
      it has passed to `handleDelete`. */
  class DeleteConfirmation {
    var isOpen: bool
    var sampleId: string
    var sampleName: string
    ghost var deleteRequests: seq<string>

    predicate Closed()
      reads this
    {
      !isOpen && sampleId == "" && sampleName == ""
    }

    constructor ()
      ensures Closed() && deleteRequests == []
    {
      isOpen, sampleId, sampleName := false, "", "";
      deleteRequests := [];
    }

    /** The dialog's message. */
    function Message(): string
      reads this
    {
      "Are you sure you want to delete sample \"" + sampleName + "\"? This action cannot be undone."
    }

    /** `handleDeleteClick`: open the dialog on the clicked row's id, named by
        that id; nothing is deleted yet. */
    method HandleDeleteClick(samples: seq<Sample>, id: string)
      modifies this`isOpen, this`sampleId, this`sampleName
      ensures isOpen && sampleId == id && sampleName == id
    {
      var name := DisplayName(samples, id);
      DisplayNameIsId(samples, id);
      isOpen, sampleId, sampleName := true, id, name;
    }

    /** `confirmDelete`: ask for the pending id to be deleted, once, then
        close the dialog with empty fields. */
    method ConfirmDelete()
      modifies this
      ensures deleteRequests == old(deleteRequests) + [old(sampleId)]
      ensures Closed()
    {
      deleteRequests := deleteRequests + [sampleId];
      isOpen, sampleId, sampleName := false, "", "";
    }

    /** The dialog's cancel button, close button and `onClose`: close with
        empty fields and delete nothing. */
    method Close()
      modifies this`isOpen, this`sampleId, this`sampleName
      ensures Closed()
    {
      isOpen, sampleId, sampleName := false, "", "";
    }

    /** The dialog's confirm button: `onConfirm()` then `onClose()`. */
    method HandleConfirm()
      modifies this
      ensures deleteRequests == old(deleteRequests) + [old(sampleId)]
      ensures Closed()
    {
      ConfirmDelete();
      Close();
    }
  }

  /** Clicking Delete on a row and confirming deletes exactly that row's
      sample, once; cancelling instead deletes nothing. Both leave the dialog
      closed. */
  method ClickThenConfirm(d: DeleteConfirmation, samples: seq<Sample>, row: nat, confirm: bool)
    requires row < |samples|
    modifies d
    ensures confirm ==> d.deleteRequests == old(d.deleteRequests) + [samples[row].sampleId]
    ensures !confirm ==> d.deleteRequests == old(d.deleteRequests)
    ensures d.Closed()
  {
    d.HandleDeleteClick(samples, samples[row].sampleId);
    if confirm {
      d.HandleConfirm();
    } else {
      d.Close();
    }
  }
}
