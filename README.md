# Ollama Dashboard: a verified model of its view logic

Ollama Dashboard is a Next.js front end for a local Ollama inference host.
This project models its non-visual logic in Dafny:

- the application-wide **event bus** (`utils/eventBus.ts`);
- the **installed-models page** (`components/ModelList.tsx`):
  - the size table and its first-match lookup;
  - the keyword classifier;
  - the three category tabs and their disk totals;
  - the delete-button rule;
  - the delete-confirmation state machine;
- the **install page** (`components/ModelInstaller.tsx`):
  - the filtering of suggested models against installed ones;
  - name validation;
  - the status and progress the pull's progress callback drives;
  - the rounded percentage;
  - the unit `formatSize` picks;
- the two **status views** (`components/system-status.tsx`,
  `components/compact-system-status.tsx`). Each carries its own copy of the size
  table and derives counts, storage and (for the full panel) a memory estimate
  from the host's two lists.

Modules, one file each:

| file | module | models |
|---|---|---|
| `text.dfy` | `Text` | the JavaScript string operations used: `includes`, `startsWith`, `split(":")[0]`, `toLowerCase`, `trim` |
| `array_ops.dfy` | `ArrayOps` | `filter`, `some` and the summing `reduce` |
| `ollama_types.dfy` | `OllamaTypes` | the `Model` record, the running-model record, `Option` |
| `size_table.dfy` | `SizeTable` | the ordered first-match size lookup shared by the three `getModelSize` copies, and its loop |
| `event_bus.dfy` | `Events` | class `EventBus` over `map<string, seq<CallbackId>>` |
| `model_list.dfy` | `ModelList` | the installed-models page and class `ModelListView` |
| `model_installer.dfy` | `ModelInstaller` | the install page and class `InstallerView` |
| `system_status.dfy` | `SystemStatus` | the status panel and class `SystemStatusView` |
| `compact_system_status.dfy` | `CompactSystemStatus` | the compact badge and class `CompactStatusView` |
| `consistency.dfy` | `Consistency` | facts across components: the three table copies agree, the storage totals agree, and the suggestions land in their own tabs |

Modelling choices:

- **Sizes** are exact integers in thousandths of a GB, so 0.274 GB is 274 and
  2.5 GB is 2500. Sums are therefore exact.
- **Each React component** is a class whose fields are its `useState` values.
  Each setter sequence is a method that `modifies` the object.
- **Callbacks** are identified by a number. JavaScript compares them by
  reference.
- **The closure `on` returns** is the value `Subscription(event, callback)`.
  Calling that closure is `EventBus.Unsubscribe`.
- **`emit`** returns the callbacks it calls, in order.
- **Values the host or browser delivers are parameters:**
  - the fetched lists;
  - whether `deleteModel` threw;
  - the progress callbacks `installModel` delivers;
  - whether the pull failed.
- **`setTimeout` continuations** that change state are separate methods:
  - `ModelListView.CompleteDelete`, after the 300 ms delay;
  - `ModelListView.DismissSuccess`, after 3 s;
  - `InstallerView.FinishAfterSuccess`, after 1 s.
- **`Math.round((c / t) * 100)`** is computed on exact rationals as
  floor((200c + t) / (2t)). A zero total, which gives NaN or an infinity in
  JavaScript, is `None`.

The installer has no cancellation and no phase machine. Its state is the
three fields `isLoading`, `status` and `progress`. `handleInstallClick` does
not refuse a second start while loading; only the button's `disabled` rule
(`InstallerView.InstallDisabled`) prevents it. Every progress callback the pull
delivers is applied.

## Model

| member | source | states |
|---|---|---|
| Text.StartsWith | components/ModelInstaller.tsx:98 | definition: `s.startsWith(p)`, `s` begins with `p` |
| Text.Contains | components/ModelList.tsx:64 | definition: `s.includes(n)`, `n` occurs in `s` at some index |
| Text.BaseName | components/ModelList.tsx:62 | `split(":")[0]` is a prefix of the name without a colon, and it is followed by a colon unless it is the whole name |
| Text.BaseNameOfTagged | components/ModelList.tsx:62 | the base name of `base:tag` is `base` whatever the tag |
| Text.TrimStart | components/ModelInstaller.tsx:128 | removes exactly the leading run of ECMAScript whitespace/line terminators: the rest is a suffix starting with a non-whitespace character |
| Text.TrimEnd | components/ModelInstaller.tsx:128 | removes exactly the trailing run of whitespace: the rest is a prefix ending with a non-whitespace character |
| Text.Trim | components/ModelInstaller.tsx:128 | definition: `trim` is `TrimEnd` of `TrimStart` |
| Text.ToLower | components/ModelList.tsx:73 | definition: `toLowerCase` maps each character through the ASCII A-Z lowering and keeps the length |
| Text.TrimsToEmpty | components/ModelInstaller.tsx:128 | `!modelName.trim()` is true exactly for blank names |
| Text.TrimEmptyIffBlank | components/ModelInstaller.tsx:128 | `!modelName.trim()` holds exactly when every character of the name is whitespace (the empty name included) |
| ArrayOps.Filter | components/ModelList.tsx:203-211 | `filter` yields an order-preserving sublist holding exactly the elements that pass the test, each as often as in the input, and no element that fails it |
| ArrayOps.Sum | components/ModelList.tsx:214-216 | definition: the `reduce((sum, x) => sum + f(x), 0)` sum, front to back, as an exact integer |
| ArrayOps.Any | components/ModelList.tsx:317 | `some` is true iff some element passes the test |
| SizeTable.FirstMatch | components/ModelList.tsx:61-69 | the size is that of the first entry, in declaration order, whose key occurs in the base name; 0 when no key occurs |
| SizeTable.LookupSize | components/ModelList.tsx:61-69 | the loop over the table entries with its early return computes exactly `FirstMatch` of the name's base name |
| SizeTable.Shadowed | components/ModelList.tsx:63-67 | an entry whose key contains an earlier entry's key is never the first hit |
| Events.Without | utils/eventBus.ts:15 | definition: `list.filter((cb) => cb !== callback)` |
| Events.EventBus.Subscribers | utils/eventBus.ts:20-21 | definition: the event's list when the record has one, otherwise no callbacks |
| Events.WithoutRemovesAll | utils/eventBus.ts:14-16 | the unsubscribe filter removes every occurrence of the callback and keeps the others with their multiplicity and order |
| Events.WithoutAbsent | utils/eventBus.ts:15 | filtering out a callback that is not subscribed changes nothing |
| Events.WithoutIdempotent | utils/eventBus.ts:15 | a second call of the same unsubscribe leaves the list unchanged |
| Events.EventBus.constructor | utils/eventBus.ts:5 | the bus starts with no events |
| Events.EventBus.On | utils/eventBus.ts:7-17 | creates the event's list if absent, appends the callback at its end, leaves every other event untouched, and returns the unsubscribe for this event and callback |
| Events.EventBus.Unsubscribe | utils/eventBus.ts:14-16 | the event's list is reassigned to the list without the callback; other events are untouched |
| Events.EventBus.Emit | utils/eventBus.ts:19-23 | calls exactly the event's current subscribers in subscription order (twice for a callback subscribed twice), nothing for an unknown event, and changes no state |
| ModelList.ModelSize | components/ModelList.tsx:61-69 | definition: `FirstMatch` of this component's table on `split(":")[0]` of the name |
| ModelList.TagIgnored | components/ModelList.tsx:61-69 | the tag after the colon never changes a model's size |
| ModelList.VisionEntryShadowed | components/ModelList.tsx:47-58 | no name is ever given the `llama3.2-vision` entry's 7.9 GB, because the earlier key `llama3.2` always matches first |
| ModelList.VisionModelSizedAsLlama | components/ModelList.tsx:50-55 | `llama3.2-vision:11b` is sized 2.0 GB, the `llama3.2` entry |
| ModelList.GetModelType | components/ModelList.tsx:72-85 | definition: Vision if the lower-cased name contains "llava", "vision" or "minicpm-v"; else Embeddings if it contains "embed"; else Chat |
| ModelList.TypeIgnoresCase | components/ModelList.tsx:72-85 | the classification of a name and of its lower-cased form agree |
| ModelList.OfType | components/ModelList.tsx:203-211 | each tab is an order-preserving sublist holding exactly the models of its type, each as often as in the list |
| ModelList.CategoriesPartition | components/ModelList.tsx:203-211 | the chat, vision and embedding tabs together hold every model exactly as often as the list does |
| ModelList.CategorySize | components/ModelList.tsx:214-216 | definition: the sum of `ModelSize` over the given models |
| ModelList.TotalSpaceUsed | components/ModelList.tsx:218-222 | definition: the chat, vision and embedding category sizes added |
| ModelList.TotalSpaceIsSumOfAll | components/ModelList.tsx:213-222 | `totalSpaceUsed` equals the summed size of all installed models |
| ModelList.ModelListView.constructor | components/ModelList.tsx:105-116 | no models, no running models, loading, and every delete field cleared |
| ModelList.ModelListView.IsRunning | components/ModelList.tsx:317 | a model is running iff some running model has exactly its name |
| ModelList.ModelListView.DeleteDisabled | components/ModelList.tsx:518 | the delete button is disabled iff the model is running or a deletion is under way |
| ModelList.ModelListView.LoadModels | components/ModelList.tsx:118-128 | the list becomes the fetched list and loading ends; nothing else changes |
| ModelList.ModelListView.LoadRunningModels | components/ModelList.tsx:130-140 | a fetched list replaces the running models; a failed fetch keeps the previous list |
| ModelList.ModelListView.HandleDeleteModel | components/ModelList.tsx:149-152 | the target becomes the model and the dialog opens; nothing else changes |
| ModelList.ModelListView.CancelDelete | components/ModelList.tsx:189-192 | the target is cleared and the dialog closes; nothing else changes |
| ModelList.ModelListView.ConfirmDelete | components/ModelList.tsx:154-187 | with no target (or the empty name) nothing happens; otherwise the dialog closes and the target is marked as being deleted, and a thrown error clears that mark again and records the error message |
| ModelList.ModelListView.CompleteDelete | components/ModelList.tsx:166-177 | called on the target `confirmDelete` marked as being deleted: the success notice names the deleted model, the list is reloaded, the deletion marks are cleared, and "modelDeleted" reaches exactly its subscribers |
| ModelList.ModelListView.DismissSuccess | components/ModelList.tsx:947 | closing the success notice clears it and nothing else |
| ModelList.ModelListView.DismissError | components/ModelList.tsx:974 | closing the error notice clears it and nothing else |
| ModelInstaller.Covers | components/ModelInstaller.tsx:96-100 | definition: the installed name starts with the suggestion's base name and a colon, or equals the suggestion |
| ModelInstaller.FilterSuggestions | components/ModelInstaller.tsx:94-101 | a suggestion is kept iff no installed name equals it or starts with its base name followed by a colon; the kept ones stay in order, each as often as in the suggestion list |
| ModelInstaller.NothingInstalledKeepsAll | components/ModelInstaller.tsx:94-125 | with nothing installed every suggestion is shown |
| ModelInstaller.InstalledSuggestionHidden | components/ModelInstaller.tsx:94-101 | a suggestion installed under its own name is not shown |
| ModelInstaller.Percentage | components/ModelInstaller.tsx:142-144 | the percentage is the integer nearest 100·completed/total, with halves rounded up; there is none for a zero total |
| ModelInstaller.PercentageInRange | components/ModelInstaller.tsx:142-144 | progress within its total gives a percentage from 0 to 100 |
| ModelInstaller.QuarterDone | components/ModelInstaller.tsx:142-144 | 250000 of 1000000 bytes is 25 percent |
| ModelInstaller.ProgressOf | components/ModelInstaller.tsx:141-152 | definition: byte data gives `{total, completed, Percentage}`, no byte data gives no progress |
| ModelInstaller.ProgressReflectsLatest | components/ModelInstaller.tsx:141-152 | progress exists iff the latest callback carried byte data, and then holds that callback's counts and a 0..100 percentage |
| ModelInstaller.SuccessCountPositive | components/ModelInstaller.tsx:154-166 | a completion timer is scheduled iff some callback's status is "success"; without one, loading never ends unless the pull throws |
| ModelInstaller.FormatUnit | components/ModelInstaller.tsx:174-178 | KB below 1048576 bytes, MB below 1073741824, GB otherwise; the three ranges are disjoint and exhaustive, and the shown number is at least 1 and below 1024 where the unit allows |
| ModelInstaller.FormatUnitMonotone | components/ModelInstaller.tsx:174-178 | more bytes never show in a smaller unit |
| ModelInstaller.InstallerView.constructor | components/ModelInstaller.tsx:58-67 | empty name, not insecure, not loading, empty status, nothing installed, no progress |
| ModelInstaller.InstallerView.FilteredChatModels | components/ModelInstaller.tsx:94-101 | definition: `FilterSuggestions` of the chat suggestions against the installed models |
| ModelInstaller.InstallerView.FilteredVisionModels | components/ModelInstaller.tsx:104-113 | definition: `FilterSuggestions` of the vision suggestions against the installed models |
| ModelInstaller.InstallerView.FilteredEmbeddingModels | components/ModelInstaller.tsx:116-125 | definition: `FilterSuggestions` of the embedding suggestions against the installed models |
| ModelInstaller.InstallerView.InstallDisabled | components/ModelInstaller.tsx:528 | the install button is disabled iff loading or the name is blank |
| ModelInstaller.InstallerView.SetModelName | components/ModelInstaller.tsx:490 | typing (or clicking a suggestion card) sets the name and nothing else |
| ModelInstaller.InstallerView.SetInsecure | components/ModelInstaller.tsx:507 | the checkbox sets the insecure flag and nothing else |
| ModelInstaller.InstallerView.LoadInstalledModels | components/ModelInstaller.tsx:72-82 | the installed list becomes the fetched list and nothing else changes |
| ModelInstaller.InstallerView.Mount | components/ModelInstaller.tsx:86-87 | mounting appends the reload callback to "modelDeleted" and keeps its unsubscribe |
| ModelInstaller.InstallerView.Unmount | components/ModelInstaller.tsx:89-90 | unmounting removes the reload callback from "modelDeleted" |
| ModelInstaller.InstallerView.BeginLoading | components/ModelInstaller.tsx:133-135 | an accepted name starts loading with the start message and no progress; nothing else changes |
| ModelInstaller.InstallerView.StartInstall | components/ModelInstaller.tsx:127-135 | a blank name is refused with loading, status and progress unchanged; otherwise loading starts with the start message and no progress |
| ModelInstaller.InstallerView.OnProgress | components/ModelInstaller.tsx:139-152 | the status becomes the reported label; progress holds the callback's counts and percentage when it carries bytes and is cleared otherwise |
| ModelInstaller.InstallerView.InstallFailed | components/ModelInstaller.tsx:167-171 | a thrown pull sets the failure message and ends loading |
| ModelInstaller.InstallerView.FinishAfterSuccess | components/ModelInstaller.tsx:154-158 | run once for each timer `HandleInstallClick` reports, 1 s after a "success" callback: loading ends and the completion message shows |
| ModelInstaller.InstallerView.HandleInstallClick | components/ModelInstaller.tsx:127-172 | a blank name changes nothing; otherwise the final status and progress are those of the last callback (or the start state if none came), loading continues unless the pull threw, and a throw shows the failure message; it reports one completion timer per "success" callback |
| SystemStatus.ModelSize | components/system-status.tsx:39-47 | definition: `FirstMatch` of this component's table on `split(":")[0]` of the name |
| SystemStatus.TotalStorage | components/system-status.tsx:67-70 | definition: the sum of this component's `ModelSize` over all installed models |
| SystemStatus.ModelSizeBounded | components/system-status.tsx:39-47 | no model is sized above the table's largest entry |
| SystemStatus.TotalStorageBounded | components/system-status.tsx:67-70 | the storage shown is at most 9.1 GB per installed model |
| SystemStatus.SystemStatusView.constructor | components/system-status.tsx:50-56 | host status unknown, all numbers zero |
| SystemStatus.SystemStatusView.CheckOllamaStatus | components/system-status.tsx:60-82 | on success the host is online, memory is 2.5 GB per running model, the counts are the lists' lengths and storage is the summed model sizes; on failure the host is offline and the numbers stay |
| CompactSystemStatus.ModelSize | components/compact-system-status.tsx:33-41 | definition: `FirstMatch` of this component's table on `split(":")[0]` of the name |
| CompactSystemStatus.TotalStorage | components/compact-system-status.tsx:60-63 | definition: the sum of this component's `ModelSize` over all installed models |
| CompactSystemStatus.CompactStatusView.constructor | components/compact-system-status.tsx:44-50 | host status unknown, loading, all numbers zero |
| CompactSystemStatus.CompactStatusView.BeginCheck | components/compact-system-status.tsx:54 | each check starts by setting loading |
| CompactSystemStatus.CompactStatusView.CompleteCheck | components/compact-system-status.tsx:55-75 | on success online with the lists' counts and summed storage, on failure offline with the numbers unchanged, and loading ends either way |
| Consistency.SizeCopiesAgree | components/system-status.tsx:22-47 | the status panel's and the badge's `getModelSize` agree with the model list's on every name |
| Consistency.StorageAgrees | components/compact-system-status.tsx:60-63 | both status views report the storage total the model list reports |
| Consistency.ChatWhen | components/ModelList.tsx:72-85 | a lower-case name without the letter 'v' (so with no vision keyword) and missing some letter of "embed" is a chat model |
| Consistency.VisionWhen | components/ModelList.tsx:72-85 | a lower-case name holding "llava", "vision" or "minicpm-v" is a vision model, even if it also holds "embed" |
| Consistency.EmbeddingsWhen | components/ModelList.tsx:72-85 | a lower-case name holding "embed" and without the letter 'v' (so with no vision keyword) is an embedding model |
| Consistency.ChatSuggestionsAreChat | components/ModelInstaller.tsx:35-41 | every suggested chat model lands in the chat tab once installed |
| Consistency.VisionSuggestionsAreVision | components/ModelInstaller.tsx:44-48 | every suggested vision model lands in the vision tab once installed |
| Consistency.EmbeddingSuggestionsAreEmbeddings | components/ModelInstaller.tsx:51-54 | every suggested embedding model lands in the embedding tab once installed |

## Left out

- Pulling a model: `installModel`, its streamed response and the parsing of its
  progress lines. It is imported but does not appear in
  `services/ollamaService.ts`. Its progress callbacks and whether it throws are
  inputs.
- `fetchRunningModels` is not part of this model. It is imported but absent
  from the service file. Its result, or its failure, is an input.
- HTTP plumbing: `fetchModels` returns an empty list rather than throwing, so
  `LoadModels` takes a list.
- `deleteModel` returns false on failure and never throws
  (`services/ollamaService.ts:35-45`). `confirmDelete` ignores that value, so
  the `Threw` path of `ConfirmDelete` is modelled but cannot arise with that
  service.
- Timers:
  - the polling intervals;
  - the animation and notification delays themselves (only their continuations
    are modelled);
  - the page reload after a successful install;
  - the `alert` on a blank name.
- Display formatting: the `toFixed` strings and the numeric part of
  `formatSize`. The status views keep their numbers as integers, not
  formatted strings.
- Floating point: sizes and sums are exact thousandths. The percentage is
  rounded over exact rationals, so IEEE rounding artefacts of
  `Math.round` are not modelled.
- Text.ToLower: only the ASCII letters A-Z are lowered. Other Unicode case
  mappings of `toLowerCase` are not modelled.
- Events.EventBus.Emit: the callbacks' own effects are not modelled, including
  a callback that subscribes or unsubscribes during the emit.
- Event names that collide with `Object.prototype` members (such as
  "toString") are not modelled. The bus treats every name as absent until
  `on` is called.
- Suggested-model display sizes ("9.1GB" and so on) are labels only and are
  not modelled.
- All JSX, styling, tabs, dialogs and details views, plus the
  presentation-only components and configuration files.
