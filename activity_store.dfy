/**
 * The catalogue edits of the main page: replacing an activity by id after an
 * edit-mode save, deleting by id after confirmation, exporting the data part,
 * and the per-activity temporary descriptions kept outside edit mode.
 */
module ActivityStore {
  import opened Wrappers
  import opened SeqUtil
  import opened ActivityTypes
  import RecordNormalizer

  // ---------------------------------------------------------------- list edits

  /** `prevActivities.map(act => act.id === id ? updated : act)`. */
  function ReplaceById(acts: seq<Activity>, id: string, updated: Activity): (r: seq<Activity>)
    ensures |r| == |acts|
    ensures forall i :: 0 <= i < |acts| ==> r[i] == if acts[i].id == id then updated else acts[i]
  {
    if acts == [] then []
    else [if acts[0].id == id then updated else acts[0]] + ReplaceById(acts[1..], id, updated)
  }

  /** `prevActivities.filter(act => act.id !== id)`. */
  function DeleteById(acts: seq<Activity>, id: string): seq<Activity> {
    Keep(acts, (a: Activity) => a.id != id)
  }

  /** The number of activities carrying `id`. */
  function CountId(acts: seq<Activity>, id: string): nat {
    if acts == [] then 0 else (if acts[0].id == id then 1 else 0) + CountId(acts[1..], id)
  }

  /** Deleting removes exactly the activities with that id and keeps the others in order. */
  lemma {:induction false} DeleteByIdSpec(acts: seq<Activity>, id: string)
    ensures forall a :: a in DeleteById(acts, id) <==> a in acts && a.id != id
    ensures IsSubsequence(DeleteById(acts, id), acts)
    ensures |DeleteById(acts, id)| + CountId(acts, id) == |acts|
  {
    KeepIsSubsequence(acts, (a: Activity) => a.id != id);
    if acts != [] {
      DeleteByIdSpec(acts[1..], id);
    }
  }

  /** Replacing and then deleting the same id is deleting it, when the replacement keeps the id. */
  lemma {:induction false} DeleteAfterReplace(acts: seq<Activity>, id: string, updated: Activity)
    requires updated.id == id
    ensures DeleteById(ReplaceById(acts, id, updated), id) == DeleteById(acts, id)
  {
    if acts != [] {
      DeleteAfterReplace(acts[1..], id, updated);
      assert ReplaceById(acts, id, updated)[1..] == ReplaceById(acts[1..], id, updated);
    }
  }

  /** After a replacement every activity with the id is the new one, and replacing again changes nothing. */
  lemma ReplaceByIdIdempotent(acts: seq<Activity>, id: string, updated: Activity)
    requires updated.id == id
    ensures ReplaceById(ReplaceById(acts, id, updated), id, updated) == ReplaceById(acts, id, updated)
  {
  }

  /** `handleDownloadUpdatedJson`'s data: each activity as a source record, without its id. */
  function Export(acts: seq<Activity>): (r: seq<RawRecord>)
    ensures |r| == |acts|
  {
    if acts == [] then []
    else [RawRecord(acts[0].title, acts[0].fullDescription, Some(RecordNormalizer.AsPartial(acts[0].tags)))] + Export(acts[1..])
  }

  /** Loading an exported record restores the activity's title, description and tags. */
  lemma {:induction false} ExportReloads(acts: seq<Activity>, i: int)
    requires 0 <= i < |acts|
    ensures Export(acts)[i].title == acts[i].title
    ensures Export(acts)[i].fullDescription == acts[i].fullDescription
    ensures RecordNormalizer.MergeTags(Export(acts)[i].tags) == acts[i].tags
  {
    if i == 0 {
      RecordNormalizer.MergeTagsComplete(acts[0].tags);
    } else {
      ExportReloads(acts[1..], i - 1);
    }
  }

  // ---------------------------------------------------------------- temporary descriptions

  /** `setEditedDescriptions(prev => ({ ...prev, [key]: text }))`, only outside edit mode. */
  function SaveTemporary(edited: map<string, string>, isEditModeActive: bool, key: string, text: string): map<string, string> {
    if isEditModeActive then edited else edited[key := text]
  }

  /** `delete newDescriptions[key]`, only outside edit mode. */
  function ResetTemporary(edited: map<string, string>, isEditModeActive: bool, key: string): map<string, string> {
    if isEditModeActive then edited else edited - {key}
  }

  /** The description the modal opens with. */
  function InitialDescription(isEditModeActive: bool, edited: map<string, string>, activity: Activity): string {
    if isEditModeActive then activity.fullDescription
    else if activity.id in edited && edited[activity.id] != "" then edited[activity.id]
    else activity.fullDescription
  }

  /** In edit mode the temporary descriptions are frozen; outside it a save touches only its own key. */
  lemma TemporaryEditsSpec(edited: map<string, string>, isEditModeActive: bool, key: string, text: string, other: string)
    ensures isEditModeActive ==> SaveTemporary(edited, true, key, text) == edited && ResetTemporary(edited, true, key) == edited
    ensures !isEditModeActive ==> SaveTemporary(edited, false, key, text)[key] == text
    ensures !isEditModeActive ==> key !in ResetTemporary(edited, false, key)
    ensures other != key ==>
      (other in SaveTemporary(edited, isEditModeActive, key, text) <==> other in edited) &&
      (other in ResetTemporary(edited, isEditModeActive, key) <==> other in edited)
  {
  }

  /** Resetting a fresh save restores the map, and a later save overrides an earlier one. */
  lemma ResetUndoesSave(edited: map<string, string>, key: string, text: string, text2: string)
    requires key !in edited
    ensures ResetTemporary(SaveTemporary(edited, false, key, text), false, key) == edited
    ensures SaveTemporary(SaveTemporary(edited, false, key, text), false, key, text2) == SaveTemporary(edited, false, key, text2)
  {
  }

  /** A saved non-empty description is what the modal reopens with, until reset or edit mode. */
  lemma ReopenShowsSaved(edited: map<string, string>, activity: Activity, text: string)
    requires text != ""
    ensures InitialDescription(false, SaveTemporary(edited, false, activity.id, text), activity) == text
    ensures InitialDescription(false, ResetTemporary(edited, false, activity.id), activity) == activity.fullDescription
    ensures InitialDescription(true, edited, activity) == activity.fullDescription
  {
  }

  // ---------------------------------------------------------------- the page state

  /** The part of the main page's state that the edits above change. */
  class PageState {
    var allActivities: seq<Activity>
    var selectedActivity: Option<Activity>
    var isEditModeActive: bool
    var editedDescriptions: map<string, string>
    var activityToDelete: Option<Activity>
    var isDeleteConfirmationOpen: bool

    constructor (activities: seq<Activity>)
      ensures allActivities == activities && selectedActivity == None
      ensures !isEditModeActive && editedDescriptions == map[]
      ensures activityToDelete == None && !isDeleteConfirmationOpen
    {
      allActivities := activities;
      selectedActivity := None;
      isEditModeActive := false;
      editedDescriptions := map[];
      activityToDelete := None;
      isDeleteConfirmationOpen := false;
    }

    /** `toggleEditMode`: entering edit mode discards the temporary descriptions. */
    method ToggleEditMode()
      modifies this
      ensures isEditModeActive == !old(isEditModeActive)
      ensures editedDescriptions == if old(isEditModeActive) then old(editedDescriptions) else map[]
      ensures allActivities == old(allActivities) && selectedActivity == old(selectedActivity)
      ensures activityToDelete == old(activityToDelete) && isDeleteConfirmationOpen == old(isDeleteConfirmationOpen)
    {
      if !isEditModeActive {
        editedDescriptions := map[];
      }
      isEditModeActive := !isEditModeActive;
    }

    /** `onSaveTemporaryEdit`. */
    method SaveTemporaryEdit(activityId: string, newDescription: string)
      modifies this
      ensures editedDescriptions == SaveTemporary(old(editedDescriptions), isEditModeActive, activityId, newDescription)
      ensures isEditModeActive == old(isEditModeActive)
      ensures allActivities == old(allActivities) && selectedActivity == old(selectedActivity)
      ensures activityToDelete == old(activityToDelete) && isDeleteConfirmationOpen == old(isDeleteConfirmationOpen)
    {
      if !isEditModeActive {
        editedDescriptions := editedDescriptions[activityId := newDescription];
      }
    }

    /** `onResetTemporaryEdit`. */
    method ResetTemporaryEdit(activityId: string)
      modifies this
      ensures editedDescriptions == ResetTemporary(old(editedDescriptions), isEditModeActive, activityId)
      ensures isEditModeActive == old(isEditModeActive)
      ensures allActivities == old(allActivities) && selectedActivity == old(selectedActivity)
      ensures activityToDelete == old(activityToDelete) && isDeleteConfirmationOpen == old(isDeleteConfirmationOpen)
    {
      if !isEditModeActive {
        editedDescriptions := editedDescriptions - {activityId};
      }
    }

    /** `initialEditedDescription` for the open modal. */
    function ModalDescription(): string
      reads this
    {
      match selectedActivity
      case None => ""
      case Some(a) => InitialDescription(isEditModeActive, editedDescriptions, a)
    }

    /** `handleSaveChangesInEditMode`. */
    method SaveChangesInEditMode(originalActivityId: string, updatedActivity: Activity)
      modifies this
      ensures allActivities == ReplaceById(old(allActivities), originalActivityId, updatedActivity)
      ensures selectedActivity ==
        if old(selectedActivity).Some? && old(selectedActivity).value.id == originalActivityId then Some(updatedActivity)
        else old(selectedActivity)
      ensures isEditModeActive == old(isEditModeActive) && editedDescriptions == old(editedDescriptions)
      ensures activityToDelete == old(activityToDelete) && isDeleteConfirmationOpen == old(isDeleteConfirmationOpen)
    {
      allActivities := ReplaceById(allActivities, originalActivityId, updatedActivity);
      if selectedActivity.Some? && selectedActivity.value.id == originalActivityId {
        selectedActivity := Some(updatedActivity);
      }
    }

    /** `openDeleteConfirmationDialog`. */
    method OpenDeleteConfirmation(activity: Activity)
      modifies this
      ensures activityToDelete == Some(activity) && isDeleteConfirmationOpen
      ensures allActivities == old(allActivities) && selectedActivity == old(selectedActivity)
      ensures isEditModeActive == old(isEditModeActive) && editedDescriptions == old(editedDescriptions)
    {
      activityToDelete := Some(activity);
      isDeleteConfirmationOpen := true;
    }

    /** `closeDeleteConfirmationDialog`. */
    method CloseDeleteConfirmation()
      modifies this
      ensures activityToDelete == None && !isDeleteConfirmationOpen
      ensures allActivities == old(allActivities) && selectedActivity == old(selectedActivity)
      ensures isEditModeActive == old(isEditModeActive) && editedDescriptions == old(editedDescriptions)
    {
      activityToDelete := None;
      isDeleteConfirmationOpen := false;
    }

    /** `handleConfirmDeleteActivity`: nothing happens unless an activity is pending deletion. */
    method ConfirmDelete()
      modifies this
      ensures old(activityToDelete).None? ==>
        allActivities == old(allActivities) && activityToDelete == None && isDeleteConfirmationOpen == old(isDeleteConfirmationOpen)
      ensures old(activityToDelete).Some? ==>
        allActivities == DeleteById(old(allActivities), old(activityToDelete).value.id) &&
        activityToDelete == None && !isDeleteConfirmationOpen
      ensures selectedActivity == old(selectedActivity)
      ensures isEditModeActive == old(isEditModeActive) && editedDescriptions == old(editedDescriptions)
    {
      if activityToDelete.Some? {
        allActivities := DeleteById(allActivities, activityToDelete.value.id);
        activityToDelete := None;
        isDeleteConfirmationOpen := false;
      }
    }
  }
}
