/** The installed-models page: size lookup, type classification, the three
    category tabs with their disk totals, the delete-button rule and the
    delete-confirmation state machine. */
module ModelList {
  import opened Text
  import opened ArrayOps
  import opened OllamaTypes
  import SizeTable
  import Events

  /** `MODEL_SIZES`, in thousandths of a GB, in declaration order. */
  const MODEL_SIZES: SizeTable.Table := [
    ("phi4", 9100), ("mistral", 4100), ("phi3", 2200), ("llama3.2", 2000),
    ("deepseek-r1", 4700), ("llava", 4700), ("minicpm-v", 5500),
    ("llama3.2-vision", 7900), ("mxbai-embed-large", 670), ("nomic-embed-text", 274)
  ]

  /** `getModelSize(modelName)` */
  function ModelSize(modelName: string): nat {
    SizeTable.FirstMatch(MODEL_SIZES, BaseName(modelName))
  }

  /** The tag after the colon never changes a model's size. */
  lemma TagIgnored(base: string, tag: string)
    requires ':' !in base
    ensures ModelSize(base + ":" + tag) == ModelSize(base)
  {
    BaseNameOfTagged(base, tag);
    BaseNameOfTagged(base, "");
    assert base + ":" + "" == base + ":";
    assert BaseName(base) == base by {
      assert base == base[..|base|];
    }
  }

  /** The `llama3.2-vision` entry can never be the answer: every name that
      contains its key also contains the earlier key `llama3.2`, so no name
      gets 7.9 GB. */
  lemma VisionEntryShadowed(modelName: string)
    ensures ModelSize(modelName) != 7900
  {
    var base := BaseName(modelName);
    assert forall i | 0 <= i < |MODEL_SIZES| && i != 7 :: MODEL_SIZES[i].1 != 7900;
    assert OccursAt(MODEL_SIZES[7].0, MODEL_SIZES[3].0, 0);
    SizeTable.Shadowed(MODEL_SIZES, base, 3, 7);
  }

  /** The suggested `llama3.2-vision:11b` is sized as `llama3.2`: 2.0 GB. */
  lemma VisionModelSizedAsLlama()
    ensures ModelSize("llama3.2-vision:11b") == 2000
  {
    var base := "llama3.2-vision";
    assert ':' !in base;
    BaseNameOfTagged(base, "11b");
    assert base + ":" + "11b" == "llama3.2-vision:11b";
    LlamaKeyFirst(base);
  }

  lemma LlamaKeyFirst(base: string)
    requires base == "llama3.2-vision"
    ensures SizeTable.FirstMatch(MODEL_SIZES, base) == 2000
  {
    NotContainsMissingChar(base, "phi4", 0);
    NotContainsMissingChar(base, "mistral", 4);
    NotContainsMissingChar(base, "phi3", 0);
    assert OccursAt(base, "llama3.2", 0);
    assert SizeTable.FirstHit(MODEL_SIZES, base, 3);
  }

  /** The three kinds of model the page shows in separate tabs. */
  datatype ModelType = Chat | Vision | Embeddings

  /** `getModelType(modelName)`: classify the lower-cased name by keyword,
      vision keywords first. */
  function GetModelType(modelName: string): ModelType {
    var lower := ToLower(modelName);
    if Contains(lower, "llava") || Contains(lower, "vision") || Contains(lower, "minicpm-v") then Vision
    else if Contains(lower, "embed") then Embeddings
    else Chat
  }

  /** The classification ignores letter case. */
  lemma TypeIgnoresCase(modelName: string)
    ensures GetModelType(ToLower(modelName)) == GetModelType(modelName)
  {
    ToLowerIdempotent(modelName);
  }

  /** The test `(model) => getModelType(model.name) === t`. */
  function HasType(t: ModelType): Model -> bool {
    (m: Model) => GetModelType(m.name) == t
  }

  /** `models.filter((model) => getModelType(model.name) === t)` */
  function OfType(models: seq<Model>, t: ModelType): (r: seq<Model>)
    ensures IsSublist(r, models)
    ensures forall i | 0 <= i < |r| :: r[i] in models && GetModelType(r[i].name) == t
    ensures forall i | 0 <= i < |models| :: GetModelType(models[i].name) == t ==> models[i] in r
    ensures forall m | m in models :: multiset(r)[m] == if GetModelType(m.name) == t then multiset(models)[m] else 0
  {
    Filter(models, HasType(t))
  }

  /** The chat, vision and embedding lists split the model list: every model
      lands in exactly one of them, duplicates included. */
  lemma CategoriesPartition(models: seq<Model>)
    ensures multiset(OfType(models, Chat)) + multiset(OfType(models, Vision))
            + multiset(OfType(models, Embeddings)) == multiset(models)
  {
    FilterPartition(models, HasType(Chat), HasType(Vision), HasType(Embeddings));
  }

  /** `getCategorySize(models)`: the summed sizes of a list of models. */
  function CategorySize(models: seq<Model>): nat {
    Sum(models, (m: Model) => ModelSize(m.name))
  }

  /** `totalSpaceUsed`: the three category sizes added up. */
  function TotalSpaceUsed(models: seq<Model>): nat {
    CategorySize(OfType(models, Chat)) + CategorySize(OfType(models, Vision))
    + CategorySize(OfType(models, Embeddings))
  }

  /** The total over the three tabs is the size of every installed model. */
  lemma {:induction false} TotalSpaceIsSumOfAll(models: seq<Model>)
    ensures TotalSpaceUsed(models) == CategorySize(models)
  {
    if models != [] {
      TotalSpaceIsSumOfAll(models[1..]);
    }
  }

  /** What the host reports when the delete call returns or throws. */
  datatype DeleteCall = Returned | Threw

  const DELETE_ERROR_MESSAGE: string := "Une erreur est survenue lors de la suppression"

  /** The fields the delete flow updates. */
  datatype DeleteState = DeleteState(
    modelToDelete: Option<string>,
    deleteDialogOpen: bool,
    isDeleting: bool,
    deleteInProgress: Option<string>,
    deleteError: Option<string>,
    deleteSuccess: Option<string>)

  /** `!modelToDelete`: no target, or the empty name (also falsy). */
  predicate NoTarget(target: Option<string>) {
    target.None? || target.value == ""
  }

  /** The component's state fields. */
  class ModelListView {
    var models: seq<Model>
    var runningModels: seq<RunningModel>
    var isLoading: bool
    var modelToDelete: Option<string>
    var deleteDialogOpen: bool
    var isDeleting: bool
    var deleteInProgress: Option<string>
    var deleteError: Option<string>
    var deleteSuccess: Option<string>

    /** The delete-flow fields as one value. */
    function Deletion(): DeleteState
      reads this
    {
      DeleteState(modelToDelete, deleteDialogOpen, isDeleting, deleteInProgress, deleteError, deleteSuccess)
    }

    constructor ()
      ensures models == [] && runningModels == [] && isLoading
      ensures Deletion() == DeleteState(None, false, false, None, None, None)
    {
      models, runningModels, isLoading := [], [], true;
      modelToDelete, deleteDialogOpen, isDeleting := None, false, false;
      deleteInProgress, deleteError, deleteSuccess := None, None, None;
    }

    /** `isRunning` for a card: some running model has exactly this name. */
    function IsRunning(modelName: string): (running: bool)
      reads this
      ensures running <==> exists i | 0 <= i < |runningModels| :: runningModels[i].name == modelName
    {
      Any(runningModels, (rm: RunningModel) => rm.name == modelName)
    }

    /** The card's delete button is disabled while the model runs or while
        any deletion is under way. */
    function DeleteDisabled(modelName: string): (disabled: bool)
      reads this
      ensures disabled <==> isDeleting || exists i | 0 <= i < |runningModels| :: runningModels[i].name == modelName
    {
      IsRunning(modelName) || isDeleting
    }

    /** `loadModels` once `fetchModels` has resolved (it yields an empty list
        rather than throwing). */
    method LoadModels(fetched: seq<Model>)
      modifies this
      ensures models == fetched && !isLoading
      ensures runningModels == old(runningModels) && Deletion() == old(Deletion())
    {
      isLoading := true;
      models := fetched;
      isLoading := false;
    }

    /** `loadRunningModels`: a failed fetch (None) keeps the previous list. */
    method LoadRunningModels(fetched: Option<seq<RunningModel>>)
      modifies this
      ensures runningModels == (if fetched.Some? then fetched.value else old(runningModels))
      ensures models == old(models) && isLoading == old(isLoading) && Deletion() == old(Deletion())
    {
      if fetched.Some? {
        runningModels := fetched.value;
      }
    }

    /** `handleDeleteModel(modelName)`: remember the target and open the dialog. */
    method HandleDeleteModel(modelName: string)
      modifies this
      ensures Deletion() == old(Deletion()).(modelToDelete := Some(modelName), deleteDialogOpen := true)
      ensures models == old(models) && runningModels == old(runningModels) && isLoading == old(isLoading)
    {
      modelToDelete := Some(modelName);
      deleteDialogOpen := true;
    }

    /** `cancelDelete`: forget the target and close the dialog. */
    method CancelDelete()
      modifies this
      ensures Deletion() == old(Deletion()).(modelToDelete := None, deleteDialogOpen := false)
      ensures models == old(models) && runningModels == old(runningModels) && isLoading == old(isLoading)
    {
      modelToDelete := None;
      deleteDialogOpen := false;
    }

    /** `confirmDelete` up to the end of its `try`/`catch`: without a target it
        does nothing; otherwise it closes the dialog and marks the target as
        being deleted, and a throwing delete call clears that mark again and
        records the error message. */
    method ConfirmDelete(call: DeleteCall) returns (started: bool)
      modifies this
      ensures started <==> !NoTarget(old(modelToDelete))
      ensures !started ==> Deletion() == old(Deletion())
      ensures started && call == Returned ==>
        Deletion() == old(Deletion()).(deleteDialogOpen := false, isDeleting := true,
                                       deleteInProgress := old(modelToDelete))
      ensures started && call == Threw ==>
        Deletion() == old(Deletion()).(deleteDialogOpen := false, isDeleting := false,
                                       deleteInProgress := None,
                                       deleteError := Some(DELETE_ERROR_MESSAGE))
      ensures models == old(models) && runningModels == old(runningModels) && isLoading == old(isLoading)
    {
      if NoTarget(modelToDelete) {
        return false;
      }
      started := true;
      deleteDialogOpen := false;
      isDeleting := true;
      deleteInProgress := modelToDelete;
      if call == Threw {
        isDeleting := false;
        deleteInProgress := None;
        deleteError := Some(DELETE_ERROR_MESSAGE);
      }
    }

    /** What follows a delete call that returned, once its animation delay has
        passed: announce the deleted model, reload the list, clear the
        deletion marks and emit "modelDeleted" on the bus. The result is the
        callbacks the emit calls. It runs in the state the `Returned` outcome
        of `ConfirmDelete` leaves: `deleted` is the target marked as being
        deleted. */
    method CompleteDelete(deleted: string, reloaded: seq<Model>, bus: Events.EventBus)
      returns (notified: seq<Events.CallbackId>)
      requires isDeleting && deleteInProgress == Some(deleted)
      modifies this
      ensures Deletion() == old(Deletion()).(isDeleting := false, deleteInProgress := None,
                                             deleteSuccess := Some(deleted))
      ensures models == reloaded && !isLoading && runningModels == old(runningModels)
      ensures notified == bus.Subscribers("modelDeleted")
    {
      deleteSuccess := Some(deleted);
      LoadModels(reloaded);
      isDeleting := false;
      deleteInProgress := None;
      notified := bus.Emit("modelDeleted");
    }

    /** Closing the success notification. */
    method DismissSuccess()
      modifies this
      ensures Deletion() == old(Deletion()).(deleteSuccess := None)
      ensures models == old(models) && runningModels == old(runningModels) && isLoading == old(isLoading)
    {
      deleteSuccess := None;
    }

    /** Closing the error notification. */
    method DismissError()
      modifies this
      ensures Deletion() == old(Deletion()).(deleteError := None)
      ensures models == old(models) && runningModels == old(runningModels) && isLoading == old(isLoading)
    {
      deleteError := None;
    }
  }
}
