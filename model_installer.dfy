/** The install page: suggested models not yet installed, validation of the
    typed name, the status and byte progress driven by the pull's progress
    callback, and the unit chosen to display byte counts. */
module ModelInstaller {
  import opened Text
  import opened ArrayOps
  import opened OllamaTypes
  import Events

  /** The suggested models by tab (their display sizes are not modelled). */
  const SUGGESTED_CHAT_MODELS: seq<string> :=
    ["phi4:latest", "mistral:latest", "phi3:latest", "llama3.2:latest", "deepseek-r1:7b"]
  const SUGGESTED_VISION_MODELS: seq<string> :=
    ["llava:7b", "minicpm-v:8b", "llama3.2-vision:11b"]
  const SUGGESTED_EMBEDDING_MODELS: seq<string> :=
    ["mxbai-embed-large:latest", "nomic-embed-text:latest"]

  /** An installed model covers a suggestion when it has the suggestion's
      base name followed by a colon, or exactly the suggestion's name. */
  predicate Covers(installed: Model, suggested: string) {
    StartsWith(installed.name, BaseName(suggested) + ":") || installed.name == suggested
  }

  /** The test the suggestion filter keeps a suggestion by: no installed model covers it. */
  function NotInstalled(installed: seq<Model>): string -> bool {
    (s: string) => !Any(installed, (m: Model) => Covers(m, s))
  }

  /** The filter shared by the three suggestion tabs: keep the suggestions no
      installed model covers. */
  function FilterSuggestions(suggested: seq<string>, installed: seq<Model>): (r: seq<string>)
    ensures IsSublist(r, suggested)
    ensures forall i | 0 <= i < |r| :: r[i] in suggested
                                       && forall j | 0 <= j < |installed| :: !Covers(installed[j], r[i])
    ensures forall i | 0 <= i < |suggested| ::
              (forall j | 0 <= j < |installed| :: !Covers(installed[j], suggested[i])) ==> suggested[i] in r
    ensures forall x | x in suggested ::
              multiset(r)[x] == if forall j | 0 <= j < |installed| :: !Covers(installed[j], x)
                                then multiset(suggested)[x] else 0
  {
    Filter(suggested, NotInstalled(installed))
  }

  /** With nothing installed every suggestion is shown. */
  lemma NothingInstalledKeepsAll(suggested: seq<string>)
    ensures FilterSuggestions(suggested, []) == suggested
  {
    FilterKeepsAll(suggested, NotInstalled([]));
  }

  /** Installing a suggestion under its own name removes it from its tab. */
  lemma InstalledSuggestionHidden(suggested: seq<string>, installed: seq<Model>, k: nat)
    requires k < |installed| && installed[k].name in suggested
    ensures installed[k].name !in FilterSuggestions(suggested, installed)
  {
  }

  /** The floor of the exact rational `a / b`, for either sign of `b`. */
  function FloorDiv(a: int, b: int): int
    requires b != 0
  {
    if b > 0 then a / b else (-a) / (-b)
  }

  /** `Math.round((completed / total) * 100)` over exact rationals: the
      integer nearest to `100 * completed / total`, halves rounded up, i.e.
      the floor of `(200 * completed + total) / (2 * total)`. With a zero
      total JavaScript yields NaN or an infinity, which is None here. */
  function Percentage(completed: int, total: int): (p: Option<int>)
    ensures p.None? <==> total == 0
    ensures total > 0 ==> 2 * total * p.value <= 200 * completed + total < 2 * total * (p.value + 1)
    ensures total < 0 ==> 2 * total * (p.value + 1) < 200 * completed + total <= 2 * total * p.value
  {
    if total == 0 then None
    else
      var a, b := 200 * completed + total, 2 * total;
      var q := FloorDiv(a, b);
      if b > 0 then
        assert a == b * q + a % b;
        Some(q)
      else
        assert -a == -b * q + (-a) % (-b);
        Some(q)
  }

  /** Progress that has not overshot its total shows as 0 to 100 percent. */
  lemma PercentageInRange(completed: int, total: int)
    requires 0 <= completed <= total && 0 < total
    ensures Percentage(completed, total).Some?
    ensures 0 <= Percentage(completed, total).value <= 100
  {
    var p := Percentage(completed, total).value;
    var t2 := 2 * total;
    assert t2 * p <= 201 * total < t2 * 101;
    ProductCancel(t2, p, 101);
    assert t2 * 0 < total <= 200 * completed + total < t2 * (p + 1);
    ProductCancel(t2, 0, p + 1);
  }

  /** A positive factor can be cancelled from a strict inequality. */
  lemma ProductCancel(t: int, x: int, y: int)
    requires t > 0 && t * x < t * y
    ensures x < y
  {
  }

  /** 250000 of 1000000 bytes is 25 percent. */
  lemma QuarterDone()
    ensures Percentage(250000, 1000000) == Some(25)
  {
  }

  /** The byte counts a progress callback may carry. */
  datatype ByteCounts = ByteCounts(completed: int, total: int)

  /** The `progress` state: byte counts with their rounded percentage. */
  datatype Progress = Progress(total: int, completed: int, percentage: Option<int>)

  /** One progress callback: a status label, with or without byte counts. */
  datatype Frame = Frame(status: string, bytes: Option<ByteCounts>)

  /** The status label on which the callback schedules the completion timer. */
  const SUCCESS_STATUS: string := "success"

  /** How many callbacks among `frames` say "success"; each one schedules a
      `FinishAfterSuccess` timer. */
  function SuccessCount(frames: seq<Frame>): nat {
    if frames == [] then 0
    else SuccessCount(frames[..|frames| - 1])
         + (if frames[|frames| - 1].status == SUCCESS_STATUS then 1 else 0)
  }

  /** Some timer is scheduled exactly when some callback says "success"; a pull
      whose callbacks never say it leaves loading on. */
  lemma {:induction false} SuccessCountPositive(frames: seq<Frame>)
    ensures SuccessCount(frames) > 0 <==> exists i | 0 <= i < |frames| :: frames[i].status == SUCCESS_STATUS
  {
    if frames != [] {
      var init := frames[..|frames| - 1];
      SuccessCountPositive(init);
      assert forall i | 0 <= i < |init| :: init[i] == frames[i];
    }
  }

  /** What a callback's byte data makes of `progress`: present data gives
      fresh counts and percentage, absent data clears it. */
  function ProgressOf(bytes: Option<ByteCounts>): Option<Progress> {
    match bytes
    case None => None
    case Some(b) => Some(Progress(b.total, b.completed, Percentage(b.completed, b.total)))
  }

  /** The displayed progress depends on the latest callback alone: a
      status-only callback leaves no byte counts behind, and counts within
      their total give a percentage from 0 to 100. */
  lemma ProgressReflectsLatest(bytes: Option<ByteCounts>)
    ensures ProgressOf(bytes).None? <==> bytes.None?
    ensures bytes.Some? && 0 <= bytes.value.completed <= bytes.value.total && 0 < bytes.value.total ==>
              var p := ProgressOf(bytes).value;
              p.completed == bytes.value.completed && p.total == bytes.value.total
              && p.percentage.Some? && 0 <= p.percentage.value <= 100
  {
    if bytes.Some? && 0 <= bytes.value.completed <= bytes.value.total && 0 < bytes.value.total {
      PercentageInRange(bytes.value.completed, bytes.value.total);
    }
  }

  /** The unit `formatSize` chooses. */
  datatype SizeUnit = KB | MB | GB

  /** Bytes per unit. */
  function Divisor(u: SizeUnit): nat {
    match u
    case KB => 1024
    case MB => 1048576
    case GB => 1073741824
  }

  /** The unit `formatSize(bytes)` displays: the largest of KB, MB and GB
      that keeps the shown number at 1 or more, but never more than GB. */
  function FormatUnit(bytes: int): (u: SizeUnit)
    ensures u == KB <==> bytes < 1048576
    ensures u == MB <==> 1048576 <= bytes < 1073741824
    ensures u == GB <==> 1073741824 <= bytes
    ensures u != KB ==> Divisor(u) <= bytes
    ensures u != GB ==> bytes < 1024 * Divisor(u)
  {
    if bytes < 1048576 then KB
    else if bytes < 1073741824 then MB
    else GB
  }

  /** The rank of a unit, smallest first. */
  function Rank(u: SizeUnit): nat {
    match u
    case KB => 0
    case MB => 1
    case GB => 2
  }

  /** More bytes never show in a smaller unit. */
  lemma FormatUnitMonotone(a: int, b: int)
    requires a <= b
    ensures Rank(FormatUnit(a)) <= Rank(FormatUnit(b))
  {
  }

  const START_STATUS: string := "Démarrage de l'installation..."
  const FAILED_STATUS: string := "Échec de l'installation"
  const DONE_STATUS: string := "Installation terminée! Actualisation..."
  const MODEL_DELETED_EVENT: string := "modelDeleted"

  /** The component's state fields. */
  class InstallerView {
    var modelName: string
    var isInsecure: bool
    var isLoading: bool
    var status: string
    var installedModels: seq<Model>
    var progress: Option<Progress>

    constructor ()
      ensures modelName == "" && !isInsecure && !isLoading && status == ""
      ensures installedModels == [] && progress == None
    {
      modelName, isInsecure, isLoading, status := "", false, false, "";
      installedModels, progress := [], None;
    }

    /** The three suggestion tabs. */
    function FilteredChatModels(): seq<string>
      reads this
    {
      FilterSuggestions(SUGGESTED_CHAT_MODELS, installedModels)
    }

    function FilteredVisionModels(): seq<string>
      reads this
    {
      FilterSuggestions(SUGGESTED_VISION_MODELS, installedModels)
    }

    function FilteredEmbeddingModels(): seq<string>
      reads this
    {
      FilterSuggestions(SUGGESTED_EMBEDDING_MODELS, installedModels)
    }

    /** The install button is disabled while installing or while the typed
        name is blank. */
    function InstallDisabled(): (disabled: bool)
      reads this
      ensures disabled <==> isLoading || IsBlank(modelName)
    {
      isLoading || TrimsToEmpty(modelName)
    }

    /** Typing in the name field, or clicking a suggestion card. */
    method SetModelName(name: string)
      modifies this
      ensures modelName == name
      ensures isInsecure == old(isInsecure) && isLoading == old(isLoading) && status == old(status)
      ensures installedModels == old(installedModels) && progress == old(progress)
    {
      modelName := name;
    }

    /** Ticking the "insecure" box. */
    method SetInsecure(insecure: bool)
      modifies this
      ensures isInsecure == insecure
      ensures modelName == old(modelName) && isLoading == old(isLoading) && status == old(status)
      ensures installedModels == old(installedModels) && progress == old(progress)
    {
      isInsecure := insecure;
    }

    /** `loadInstalledModels` once `fetchModels` has resolved. */
    method LoadInstalledModels(fetched: seq<Model>)
      modifies this
      ensures installedModels == fetched
      ensures modelName == old(modelName) && isInsecure == old(isInsecure) && isLoading == old(isLoading)
      ensures status == old(status) && progress == old(progress)
    {
      installedModels := fetched;
    }

    /** Mounting subscribes the reload callback to "modelDeleted". */
    method Mount(bus: Events.EventBus, reload: Events.CallbackId) returns (unsubscribe: Events.Subscription)
      modifies bus
      ensures bus.events == old(bus.events)[MODEL_DELETED_EVENT := old(bus.Subscribers(MODEL_DELETED_EVENT)) + [reload]]
      ensures unsubscribe == Events.Subscription(MODEL_DELETED_EVENT, reload)
    {
      unsubscribe := bus.On(MODEL_DELETED_EVENT, reload);
    }

    /** Unmounting calls the closure `Mount` got back. */
    method Unmount(bus: Events.EventBus, unsubscribe: Events.Subscription)
      requires unsubscribe.event in bus.events
      modifies bus
      ensures bus.events == old(bus.events)[unsubscribe.event :=
                Events.Without(old(bus.events)[unsubscribe.event], unsubscribe.callback)]
    {
      bus.Unsubscribe(unsubscribe);
    }

    /** The three setters `handleInstallClick` calls once the name is accepted. */
    method BeginLoading()
      modifies this
      ensures isLoading && status == START_STATUS && progress == None
      ensures modelName == old(modelName) && isInsecure == old(isInsecure)
      ensures installedModels == old(installedModels)
    {
      isLoading, status, progress := true, START_STATUS, None;
    }

    /** The start of `handleInstallClick`: a blank name is refused with
        nothing changed; otherwise loading starts with the start message and
        no progress. */
    method StartInstall() returns (started: bool)
      modifies this
      ensures started <==> !IsBlank(old(modelName))
      ensures !started ==> isLoading == old(isLoading) && status == old(status) && progress == old(progress)
      ensures started ==> isLoading && status == START_STATUS && progress == None
      ensures modelName == old(modelName) && isInsecure == old(isInsecure)
      ensures installedModels == old(installedModels)
    {
      started := !TrimsToEmpty(modelName);
      if started {
        BeginLoading();
      }
    }

    /** The progress callback: show the reported label, and byte progress
        exactly when the callback carries byte data. */
    method OnProgress(frame: Frame)
      modifies this
      ensures status == frame.status && progress == ProgressOf(frame.bytes)
      ensures modelName == old(modelName) && isInsecure == old(isInsecure)
      ensures isLoading == old(isLoading) && installedModels == old(installedModels)
    {
      status := frame.status;
      if frame.bytes.Some? {
        var b := frame.bytes.value;
        progress := Some(Progress(b.total, b.completed, Percentage(b.completed, b.total)));
      } else {
        progress := None;
      }
    }

    /** The `catch` of `handleInstallClick`: report failure and stop loading;
        the last progress stays as it was. */
    method InstallFailed()
      modifies this
      ensures status == FAILED_STATUS && !isLoading
      ensures modelName == old(modelName) && isInsecure == old(isInsecure)
      ensures installedModels == old(installedModels) && progress == old(progress)
    {
      status := FAILED_STATUS;
      isLoading := false;
    }

    /** One of the timers `HandleInstallClick` reports, run 1 s after a
        "success" callback: stop loading and say the page is about to refresh. */
    method FinishAfterSuccess()
      modifies this
      ensures status == DONE_STATUS && !isLoading
      ensures modelName == old(modelName) && isInsecure == old(isInsecure)
      ensures installedModels == old(installedModels) && progress == old(progress)
    {
      isLoading := false;
      status := DONE_STATUS;
    }

    /** `handleInstallClick` with the pull delivering `frames` through the
        callback, in order, and then resolving or (`failed`) throwing.
        `timers` is the number of `FinishAfterSuccess` timers the callbacks
        scheduled. */
    method HandleInstallClick(frames: seq<Frame>, failed: bool) returns (started: bool, timers: nat)
      modifies this
      ensures started <==> !IsBlank(old(modelName))
      ensures timers == if started then SuccessCount(frames) else 0
      ensures !started ==> isLoading == old(isLoading) && status == old(status) && progress == old(progress)
      ensures started ==> isLoading == !failed
      ensures started ==> status == (if failed then FAILED_STATUS
                                     else if frames == [] then START_STATUS
                                     else frames[|frames| - 1].status)
      ensures started ==> progress == (if frames == [] then None else ProgressOf(frames[|frames| - 1].bytes))
      ensures modelName == old(modelName) && isInsecure == old(isInsecure)
      ensures installedModels == old(installedModels)
    {
      started := StartInstall();
      timers := 0;
      if !started {
        return;
      }
      for i := 0 to |frames|
        invariant isLoading
        invariant timers == SuccessCount(frames[..i])
        invariant status == (if i == 0 then START_STATUS else frames[i - 1].status)
        invariant progress == (if i == 0 then None else ProgressOf(frames[i - 1].bytes))
        invariant modelName == old(modelName) && isInsecure == old(isInsecure)
        invariant installedModels == old(installedModels)
      {
        OnProgress(frames[i]);
        if frames[i].status == SUCCESS_STATUS {
          timers := timers + 1;
        }
        assert frames[..i + 1][..i] == frames[..i];
      }
      assert frames[..|frames|] == frames;
      if failed {
        InstallFailed();
      }
    }
  }
}
