/** The header's status panel: whether the inference host answers, and the
    model counts, estimated memory and storage it derives from the host's
    two lists. It carries its own copy of the size table. */
module SystemStatus {
  import opened Text
  import opened ArrayOps
  import opened OllamaTypes
  import SizeTable

  /** This component's copy of `MODEL_SIZES`, in thousandths of a GB. */
  const MODEL_SIZES: SizeTable.Table := [
    ("phi4", 9100), ("mistral", 4100), ("phi3", 2200), ("llama3.2", 2000),
    ("deepseek-r1", 4700), ("llava", 4700), ("minicpm-v", 5500),
    ("llama3.2-vision", 7900), ("mxbai-embed-large", 670), ("nomic-embed-text", 274)
  ]

  /** The largest size in the table. */
  const LARGEST_SIZE: nat := 9100

  /** Estimated memory per running model: 2.5 GB. */
  const MEMORY_PER_RUNNING_MODEL: nat := 2500

  /** This component's `getModelSize(modelName)`. */
  function ModelSize(modelName: string): nat {
    SizeTable.FirstMatch(MODEL_SIZES, BaseName(modelName))
  }

  /** No model is given more than the largest table entry. */
  lemma ModelSizeBounded(modelName: string)
    ensures ModelSize(modelName) <= LARGEST_SIZE
  {
    assert forall i | 0 <= i < |MODEL_SIZES| :: MODEL_SIZES[i].1 <= LARGEST_SIZE;
    SizeTable.FirstMatchBounded(MODEL_SIZES, BaseName(modelName), LARGEST_SIZE);
  }

  /** `allModels.reduce((sum, model) => sum + getModelSize(model.name), 0)` */
  function TotalStorage(models: seq<Model>): nat {
    Sum(models, (m: Model) => ModelSize(m.name))
  }

  /** The storage shown is at most the largest table size per installed model. */
  lemma TotalStorageBounded(models: seq<Model>)
    ensures TotalStorage(models) <= LARGEST_SIZE * |models|
  {
    forall i | 0 <= i < |models| ensures ModelSize(models[i].name) <= LARGEST_SIZE {
      ModelSizeBounded(models[i].name);
    }
    SumBound(models, (m: Model) => ModelSize(m.name), LARGEST_SIZE);
  }

  /** The numbers the panel shows, before formatting; memory and storage are
      in thousandths of a GB. */
  datatype SystemInfo = SystemInfo(memoryUsage: nat, modelCount: nat, runningModels: nat, totalStorage: nat)

  /** What the two host calls produced: both lists, or a thrown error. */
  datatype StatusFetch = Fetched(running: seq<RunningModel>, all: seq<Model>) | FetchFailed

  /** The component's state fields. */
  class SystemStatusView {
    var isOllamaRunning: Option<bool>
    var systemInfo: SystemInfo

    constructor ()
      ensures isOllamaRunning == None && systemInfo == SystemInfo(0, 0, 0, 0)
    {
      isOllamaRunning := None;
      systemInfo := SystemInfo(0, 0, 0, 0);
    }

    /** `checkOllamaStatus`: on success the host is online and the panel's
        numbers are recomputed from the two lists; on failure the host is
        offline and the previous numbers stay. */
    method CheckOllamaStatus(fetch: StatusFetch)
      modifies this
      ensures fetch.Fetched? ==> isOllamaRunning == Some(true)
      ensures fetch.Fetched? ==> systemInfo == SystemInfo(
                MEMORY_PER_RUNNING_MODEL * |fetch.running|, |fetch.all|, |fetch.running|, TotalStorage(fetch.all))
      ensures fetch.FetchFailed? ==> isOllamaRunning == Some(false) && systemInfo == old(systemInfo)
    {
      match fetch
      case Fetched(running, all) =>
        isOllamaRunning := Some(true);
        var estimatedMemoryUsage := |running| * MEMORY_PER_RUNNING_MODEL;
        var totalStorageUsed := TotalStorage(all);
        systemInfo := SystemInfo(estimatedMemoryUsage, |all|, |running|, totalStorageUsed);
      case FetchFailed =>
        isOllamaRunning := Some(false);
    }
  }
}
