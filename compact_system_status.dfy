/** The compact status badge: the same host check as the status panel
    without the memory estimate, plus a loading flag around each check. It
    carries its own copy of the size table. */
module CompactSystemStatus {
  import opened Text
  import opened ArrayOps
  import opened OllamaTypes
  import SizeTable

  /** This component's copy of `MODEL_SIZES`, in thousandths of a GB. */
  const MODEL_SIZES: SizeTable.Table := [
    ("phi4", 9100), ("mistral", 4100), ("phi3", 2200), ("llama3.2", 2000),
    ("deepseek-r1", 4700), ("llava", 4700), ("minicpm-v", 5500),
    ("llama3.2-vision", 7900), ("mxbai-embed-large", 670), ("nomic-embed-text", 274)
  ]

  /** This component's `getModelSize(modelName)`. */
  function ModelSize(modelName: string): nat {
    SizeTable.FirstMatch(MODEL_SIZES, BaseName(modelName))
  }

  /** `allModels.reduce((sum, model) => sum + getModelSize(model.name), 0)` */
  function TotalStorage(models: seq<Model>): nat {
    Sum(models, (m: Model) => ModelSize(m.name))
  }

  /** The numbers the badge shows, before formatting; storage is in
      thousandths of a GB. */
  datatype SystemInfo = SystemInfo(modelCount: nat, runningModels: nat, totalStorage: nat)

  /** What the two host calls produced: both lists, or a thrown error. */
  datatype StatusFetch = Fetched(running: seq<RunningModel>, all: seq<Model>) | FetchFailed

  /** The component's state fields. */
  class CompactStatusView {
    var isOllamaRunning: Option<bool>
    var isLoading: bool
    var systemInfo: SystemInfo

    constructor ()
      ensures isOllamaRunning == None && isLoading && systemInfo == SystemInfo(0, 0, 0)
    {
      isOllamaRunning := None;
      isLoading := true;
      systemInfo := SystemInfo(0, 0, 0);
    }

    /** The start of `checkOllamaStatus`, before the host calls are awaited. */
    method BeginCheck()
      modifies this
      ensures isLoading
      ensures isOllamaRunning == old(isOllamaRunning) && systemInfo == old(systemInfo)
    {
      isLoading := true;
    }

    /** The rest of `checkOllamaStatus` once the calls are settled: online
        with fresh numbers, or offline with the previous ones; either way the
        `finally` clears the loading flag. */
    method CompleteCheck(fetch: StatusFetch)
      modifies this
      ensures !isLoading
      ensures fetch.Fetched? ==> isOllamaRunning == Some(true)
                                 && systemInfo == SystemInfo(|fetch.all|, |fetch.running|, TotalStorage(fetch.all))
      ensures fetch.FetchFailed? ==> isOllamaRunning == Some(false) && systemInfo == old(systemInfo)
    {
      match fetch {
        case Fetched(running, all) =>
          isOllamaRunning := Some(true);
          var totalStorageUsed := TotalStorage(all);
          systemInfo := SystemInfo(|all|, |running|, totalStorageUsed);
        case FetchFailed =>
          isOllamaRunning := Some(false);
      }
      isLoading := false;
    }
  }
}
