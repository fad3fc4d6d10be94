# orchestragent core, modelled in Dafny

orchestragent runs a planner, workers and a judge over a shared state directory. This project
models the bookkeeping those agents rely on:

- **the state store**: JSON and text files, with an optimistic-concurrency `update_json`, task
  ids from a counter, and status updates;
- **the file-lock manager**: one lock file per locked path, taken over when stale, plus the set of
  paths this process holds;
- **the scheduler**: picks ready pending tasks to run side by side, in priority order, with
  disjoint and unlocked file sets;
- **the data models**: tasks, task indexes, statistics, status, checkpoints, validation results,
  commits and intents, with their `to_dict`/`from_dict` conversions;
- **the intent store and the ADR (architecture decision record) manager**: a directory of YAML
  documents keyed by task id, and a directory of numbered Markdown records;
- **model-tier selection**: a complexity score and a threshold classification;
- **the exception hierarchy**, with its messages and `retryable` flags.

Files and directories are maps from file name to content. The clock, timestamps, the regular
expressions, Unicode case mapping and the order in which a directory is listed are parameters.
Another writer racing `update_json` is a per-attempt input (`Interference`).

| file | module | models |
|---|---|---|
| common.dfy | Common | Option/Result, Python exceptions, `str()`, `format(n, '0Nd')`, `zfill`, `strip`, `split`, `lower` |
| json.dfy | Json | decoded JSON values, truthiness, `dict.get` |
| exceptions.dfy | Exceptions | utils/exceptions.py |
| state_models.dfy | StateModels | src/orchestragent/models/state.py and the same classes in utils/models.py |
| task_models.dfy | TaskModels | src/orchestragent/models/task.py; utils/models.py (a textual copy plus `Task.get`, `__getitem__`, `__contains__`) |
| intent_models.dfy | IntentModels | src/orchestragent/models/intent.py and its copy in utils/models.py |
| state_store.dfy | StateStore | utils/state_manager.py |
| file_lock.dfy | FileLock | utils/file_lock.py |
| task_scheduler.dfy | TaskScheduler | utils/task_scheduler.py |
| model_selector.dfy | ModelSelector | utils/model_selector.py |
| intent_store.dfy | IntentStore | src/orchestragent/tracking/intent_manager.py |
| adr_store.dfy | AdrStore | src/orchestragent/tracking/adr_manager.py |

The two copies of the task, state and intent models are textually identical for the members they
share, so one Dafny module stands for both. The Model table cites the `src/` copy, and cites
`utils/models.py` for what exists only there.

## Model

| member | source | states |
|---|---|---|
| StateStore.LoadJsonFrom | utils/state_manager.py:26-44 | Loading a missing JSON file gives the empty document; an existing one gives its content. |
| StateStore.StateManager.constructor | utils/state_manager.py:13-24 | A manager starts over the directory's existing JSON and text files. |
| StateStore.StateManager.LoadJson | utils/state_manager.py:26-44 | `load_json` returns `{}` for a missing file and the stored document otherwise. |
| StateStore.StateManager.SaveJson | utils/state_manager.py:46-56 | `save_json` replaces only that document, and `load_json` then returns the saved data. |
| StateStore.StateManager.LoadText | utils/state_manager.py:58-73 | `load_text` returns "" for a missing file and the stored text otherwise. |
| StateStore.StateManager.SaveText | utils/state_manager.py:75-85 | `save_text` replaces only that text, and `load_text` then returns it. |
| StateStore.BumpVersion | utils/state_manager.py:110 | `version + 1` succeeds exactly for bool, int and float versions and raises its value by one; any other version raises TypeError. |
| StateStore.StateManager.UpdateJson | utils/state_manager.py:87-139 | The retry loop (at most 5 attempts) ends with the result and the directory that the attempt-by-attempt specification `UpdateSpec` gives; text files are untouched. |
| StateStore.UpdateStoresResult | utils/state_manager.py:102-132 | A successful update stores exactly the document it returns. That document is `update_func` applied to the document read at the deciding attempt (`Deciding`), with `version` set to that document's version + 1. A failure is the error of `update_func`, of the `+ 1`, or the RuntimeError of exhausted retries. |
| StateStore.DecidingAttempt | utils/state_manager.py:102-126 | The attempts from any starting one up to the deciding attempt give the same outcome. The directory read there is the starting one, or the one another writer wrote at an attempt in between. |
| StateStore.DecidingOutcome | utils/state_manager.py:104-132 | At the deciding attempt, the update succeeds exactly when `update_func` and the `+ 1` succeed and no conflict is left to retry. It then writes the stamped document over what the other writer left. When `update_func` raises, nothing is written and its error escapes. |
| StateStore.DecidingFixed | utils/state_manager.py:102-126 | The deciding attempt of the deciding attempt is itself. |
| StateStore.UpdateKeepsOthers | utils/state_manager.py:87-139 | `update_json` changes no file other than the one it updates. |
| StateStore.QuietUpdate | utils/state_manager.py:102-132 | At any attempt where no other writer acts, that attempt succeeds and decides, and the file holds `update_func(current)` with the version bumped. |
| StateStore.FirstWriteIsVersionOne | utils/state_manager.py:133-137 | An update of a file that does not exist writes version 1. |
| StateStore.ConflictStep | utils/state_manager.py:116-126 | An attempt that re-reads a different version writes nothing. It retries, or raises RuntimeError after the fifth attempt. |
| StateStore.ExhaustedRetriesWriteNothing | utils/state_manager.py:102-126 | After five conflicting attempts, RuntimeError is raised, and the file holds only what the other writer last wrote. |
| StateStore.TaskIdFor | utils/state_manager.py:174 | A task id is "task_" followed by the counter zero-padded to three digits. A string or float counter raises ValueError, and None, a list or a dict raises TypeError. |
| StateStore.AddTaskUpdateEffect | utils/state_manager.py:168-184 | `add_task`'s update appends exactly one pending task carrying the new id and keeps earlier tasks. It also advances the counter by one and keeps every other key. |
| StateStore.AddTaskValue | utils/state_manager.py:168-181 | The new store document is the old one with the task list and the counter replaced. |
| StateStore.FirstTaskId | utils/state_manager.py:169-180 | On an empty store the first task is "task_001", and the counter becomes 2. |
| StateStore.StoredTaskId | utils/state_manager.py:174-184 | Whichever attempt was stored, the last stored task carries an id starting with "task_". |
| StateStore.SuccessiveIdsDistinct | utils/state_manager.py:174-180 | Two tasks added one after the other get different ids. |
| StateStore.StatusUpdateEffect | utils/state_manager.py:145-152 | For any starting attempt, `update_status` stores its result in status.json. The result has the read document's keys plus the given ones and `last_updated`; it writes the given values and the time, keeps every other key, and sets the version to the read one + 1. It fails only with RuntimeError, or with TypeError when the read version is not a number. |
| StateStore.StatusStamped | utils/state_manager.py:145-152 | A document stamped by the status update holds exactly the merged keys, the time, the bumped version and the untouched other keys. |
| StateStore.StatusUpdateQuiet | utils/state_manager.py:145-152 | With no other writer and a numeric version, `update_status` succeeds at its first attempt, which decides. |
| StateStore.StateManager.GetStatus | utils/state_manager.py:141-143 | Reads status.json, `{}` when absent. |
| StateStore.StateManager.GetTasks | utils/state_manager.py:154-156 | Reads tasks.json, `{}` when absent. |
| StateStore.StateManager.UpdateStatus | utils/state_manager.py:145-152 | Runs `update_json` on status.json with the merge-and-stamp update; its exception, if any, escapes. |
| StateStore.StateManager.AddTask | utils/state_manager.py:158-184 | Returns the id of the last task in the stored document, which starts with "task_", or the exception of `update_json`. |
| StateStore.StateManager.GetPlan | utils/state_manager.py:186-188 | Reads plan.md, "" when absent. |
| StateStore.StateManager.SavePlan | utils/state_manager.py:190-192 | Replaces plan.md only; `get_plan` then returns the plan. |
| FileLock.NormalizeHasNoBackslash | utils/file_lock.py:163-167 | A normalised path never contains '\\'. |
| FileLock.LockName | utils/file_lock.py:40 | The lock name of a normalised path has no '/' and ends in ".lock". |
| FileLock.LockNameIsFlat | utils/file_lock.py:39-40 | The lock file name of any path contains neither '/' nor '\\'. |
| FileLock.NormalizeNotIdempotent | utils/file_lock.py:163-167 | Normalising twice differs from normalising once: "a\\" becomes "a/" and then "a". |
| FileLock.LockNameNotInjective | utils/file_lock.py:39-40 | "a/b" and "a_b" share the lock file "a_b.lock". |
| FileLock.StaleMonotone | utils/file_lock.py:169-186 | A stale lock stays stale as time passes; staleness is an age strictly above the timeout, or an unreadable mtime. |
| FileLock.OwnerLine | utils/file_lock.py:155-157 | The owner found is the text after the first '=' of a line starting "task_id=", and only such a line yields one. |
| FileLock.OwnerRoundTrip | utils/file_lock.py:50 | For a task id without a newline, the owner read back from the lock file `acquire_lock` writes is that task id. |
| FileLock.FileLockManager.constructor | utils/file_lock.py:15-24 | A manager starts holding no path, over the existing lock directory. |
| FileLock.FileLockManager.AcquireLock | utils/file_lock.py:26-72 | On success, the lock file is created with the owner text and the normalised path is held, before the timeout elapses; no other lock file changes. A lock another process wrote during the last sleep was stale when it was replaced. With no interference during the sleeps: there was no lock or only a stale one, and a failure changes nothing and comes after the timeout elapsed while a fresh lock was present. With interference: a failure ends with a lock file present, or with one removed during the last sleep, and an undisturbed one was fresh at the last probe. The owner is then readable and the path reads as locked. |
| FileLock.FileLockManager.ReleaseLock | utils/file_lock.py:74-89 | Deletes the path's lock file, if any, and stops holding the path. Otherwise it does nothing. Afterwards the path is not locked. |
| FileLock.FileLockManager.ReleaseAllLocks | utils/file_lock.py:91-94 | As written: `release_lock` on each held path, which normalises that already-normalised path again. |
| FileLock.ReleaseAllAsWrittenLeavesLock | utils/file_lock.py:91-94 | A held path "a/" (from "a\\") keeps its lock file "a_.lock" and stays held after `release_all_locks`. |
| FileLock.FileLockManager.ReleaseAllLocksByKey | utils/file_lock.py:91-94 | As intended: releasing every held path as stored leaves nothing held and no lock file of a held path. |
| FileLock.ReleaseAll | utils/file_lock.py:91-94 | The intended release holds nothing afterwards, removes every held path's lock, and keeps the other locks unchanged. |
| FileLock.ReleaseAllKeepsOthers | utils/file_lock.py:91-94 | The intended release keeps every lock file that belongs to no held path. |
| FileLock.FileLockManager.IsLocked | utils/file_lock.py:96-108 | A path is locked exactly when its lock file exists and is not stale at 30 s. |
| FileLock.FileLockManager.GetLockOwner | utils/file_lock.py:136-161 | None when there is no lock file; otherwise the task id the file names, if any. |
| FileLock.FreshLocks | utils/file_lock.py:188-210 | The kept locks are exactly the non-stale ones, unchanged. |
| FileLock.StaleNames | utils/file_lock.py:188-210 | The stale lock names are exactly the lock files that are stale. |
| FileLock.FileLockManager.CleanupStaleLocks | utils/file_lock.py:188-210 | Deletes exactly the stale lock files, keeps the rest, and returns how many it deleted. |
| FileLock.RemoveStale | utils/file_lock.py:201-210 | The loop keeps the non-stale locks, and its counter equals the number of stale ones. |
| TaskScheduler.FilterReady | utils/task_scheduler.py:73-103 | Keeps exactly the ready tasks, in their order. A task is ready when every dependency is found, non-empty and completed; a task without dependencies is ready. |
| TaskScheduler.FilterReadyTasks | utils/task_scheduler.py:73-103 | The loop returns exactly `FilterReady`. |
| TaskScheduler.AllCompleted | utils/task_scheduler.py:93-98 | The flag ends true exactly when every dependency is found, non-empty and has status "completed". |
| TaskScheduler.PriorityScore | utils/task_scheduler.py:105-117 | The score is 3 exactly for "high" and 1 exactly for "low"; anything else, including a missing priority, scores 2. |
| TaskScheduler.PriorityScoreOfTaskPriority | utils/task_scheduler.py:115-117 | The scores agree with `TaskPriority.to_score` on the values `to_dict` writes; "HIGH" scores 2 because the lookup is case-sensitive. |
| TaskScheduler.SortedByScore | utils/task_scheduler.py:44 | The sort by score, descending, leaves scores non-increasing. |
| TaskScheduler.SortIsPermutation | utils/task_scheduler.py:44 | The sort is a permutation of the ready tasks. |
| TaskScheduler.SortIsStable | utils/task_scheduler.py:44 | Tasks of equal score keep their relative order. |
| TaskScheduler.DedupFrom | utils/task_scheduler.py:155-163 | The dedup result has no empty name, no name already seen, and no duplicate. |
| TaskScheduler.DedupCovers | utils/task_scheduler.py:155-163 | Every non-empty name not seen before is kept, and nothing else is. |
| TaskScheduler.DedupAppend | utils/task_scheduler.py:155-163 | Deduplicating a concatenation keeps the first part's result first, unchanged. |
| TaskScheduler.TaskFilesSpec | utils/task_scheduler.py:119-163 | The extracted files have no duplicate and no empty name, and are exactly the non-empty cleaned candidates. The explicit `files` entries come first, and the files come in the order of their first occurrence among the candidates. |
| TaskScheduler.FirstIndex | utils/task_scheduler.py:157-161 | The position of a name's first occurrence. |
| TaskScheduler.DedupOrder | utils/task_scheduler.py:157-161 | Deduplication keeps names in the order of their first occurrence. |
| TaskScheduler.DedupFirstOccurrenceOrder | utils/task_scheduler.py:157-161 | Two kept names are in list order exactly when their first occurrences are. |
| TaskScheduler.ExtractTaskFiles | utils/task_scheduler.py:119-163 | The `seen`-set loop returns exactly the specified file list. |
| TaskScheduler.Select | utils/task_scheduler.py:50-69 | The greedy selection is a subsequence of the sorted tasks. It chooses at most max(max_workers, 1) tasks. |
| TaskScheduler.SelectIsFree | utils/task_scheduler.py:50-65 | No chosen task has a file that was claimed before it or is locked, and chosen tasks have pairwise disjoint files. |
| TaskScheduler.ParallelizableSpec | utils/task_scheduler.py:24-71 | Nothing is chosen for an empty pending list. Each chosen task is a ready pending task, at most max(max_workers, 1) are chosen, and their files are pairwise disjoint and unlocked. They come in non-increasing priority, and equal priorities keep pending-list order. Every ready task left out was excluded by the cap or conflicts with a chosen task's files or a lock. |
| TaskScheduler.FilesOfAll | utils/task_scheduler.py:60-62 | The files claimed by the chosen tasks include every chosen task's files. |
| TaskScheduler.SelectIsGreedy | utils/task_scheduler.py:50-69 | A sorted task that the selection skips was excluded by the cap or conflicts with what was claimed before it or chosen, or with a lock. |
| TaskScheduler.GetParallelizableTasks | utils/task_scheduler.py:24-71 | The method returns exactly the specified selection, with the lock manager's `is_locked` as the lock test. |
| TaskScheduler.SelectFreeTasks | utils/task_scheduler.py:50-69 | The selection loop, with its early break at the cap, returns exactly `Select` from an empty claimed set. |
| TaskScheduler.ConsiderTask | utils/task_scheduler.py:51-65 | A task is taken exactly when it has no conflict, and its files are then claimed. A conflicting task changes nothing. |
| TaskScheduler.AnyConflict | utils/task_scheduler.py:55-59 | The scan reports a conflict exactly when some file is already claimed or locked. |
| TaskScheduler.ClaimFiles | utils/task_scheduler.py:61-63 | The claimed set grows by exactly the task's files. |
| TaskScheduler.CanRunParallelSpec | utils/task_scheduler.py:165-193 | Two tasks can run side by side exactly when they share no file and neither id is among the other's dependencies. The test is symmetric. |
| TaskModels.ParseStatus | src/orchestragent/models/task.py:9-14 | `TaskStatus(s)` succeeds exactly for the four values, returns the member with that value, and raises ValueError otherwise. |
| TaskModels.ParseStatusValue | src/orchestragent/models/task.py:9-14 | Parsing a status's value gives the status back. |
| TaskModels.PostInitStatus | src/orchestragent/models/task.py:94-98 | `__post_init__` turns an unknown status string into PENDING instead of raising. |
| TaskModels.PriorityFromString | src/orchestragent/models/task.py:23-29 | `from_string` returns the member named by the lower-cased string, and MEDIUM for anything else. |
| TaskModels.PriorityValueRoundTrip | src/orchestragent/models/task.py:17-29 | `from_string(p.value) == p`. |
| TaskModels.PriorityFromStringIgnoresCase | src/orchestragent/models/task.py:23-29 | Any capitalisation of a value names the same member. |
| TaskModels.ToScore | src/orchestragent/models/task.py:31-38 | Scores lie between 1 and 3. |
| TaskModels.ScoreOrder | src/orchestragent/models/task.py:31-38 | HIGH > MEDIUM > LOW, and the score tells priorities apart. |
| TaskModels.NormalizeOpt | src/orchestragent/models/task.py:116-139 | What survives a round trip of an optional string: a non-empty value is kept; None and "" become None. |
| TaskModels.ResultFromDict | src/orchestragent/models/task.py:58-64 | Defaults: `report` "" and `success` True when missing. |
| TaskModels.ResultRoundTrip | src/orchestragent/models/task.py:48-64 | `TaskResult` round-trips, except that an empty error message reads back as None. `success` is written only when False. |
| TaskModels.NewTask | src/orchestragent/models/task.py:68-100 | Construction parses the priority with `from_string` and the status leniently, and stamps `created_at` when missing. |
| TaskModels.PriorityFromValue | src/orchestragent/models/task.py:155 | A priority that is not a string makes `from_dict` fail; a string one is parsed with `from_string`. |
| TaskModels.StatusFromValue | src/orchestragent/models/task.py:159 | `from_dict` accepts exactly the four status strings, giving the status whose value is that string, and raises ValueError for anything else. |
| TaskModels.FromDict | src/orchestragent/models/task.py:144-174 | Reads id and title with their defaults, and fails exactly when the priority is not a string or the status is unknown. |
| TaskModels.ToDictKeys | src/orchestragent/models/task.py:102-141 | `to_dict` always writes the six mandatory keys and, beside them, exactly the truthy optional fields. |
| TaskModels.ToDictAt | src/orchestragent/models/task.py:102-141 | A field is written exactly when it is mandatory or truthy, and then holds its rendering. |
| TaskModels.ToDictMandatory | src/orchestragent/models/task.py:104-112 | The mandatory keys hold the id, title, description, priority value, status value and creation time. |
| TaskModels.ToDictCollections | src/orchestragent/models/task.py:121-127 | `result` and `files` are written exactly when present or non-empty, with their renderings. |
| TaskModels.ToDictLists | src/orchestragent/models/task.py:124-131 | `dependencies` and `estimated_hours` are written exactly when non-empty or non-zero. |
| TaskModels.OptStrRoundTrip | src/orchestragent/models/task.py:113-174 | Every optional string field written by `to_dict` reads back through `data.get` as the field, with "" as None. |
| TaskModels.RoundTrip | src/orchestragent/models/task.py:102-174 | `from_dict(to_dict(t))` is `t` with empty optional strings normalised to None, whatever the clock says. |
| TaskModels.RoundTripHead | src/orchestragent/models/task.py:146-160 | The mandatory fields come back unchanged, so `from_dict` succeeds. |
| TaskModels.RoundTripOptional | src/orchestragent/models/task.py:161-174 | Each optional string comes back, an empty one as None. |
| TaskModels.RoundTripCollections | src/orchestragent/models/task.py:161-174 | The result, files, dependencies and estimate come back. |
| TaskModels.GetAttr | utils/models.py:192-213 | `Task.get` returns a field's rendering (value for enums, `to_dict()` for the result) and the default for a name that is not a field. |
| TaskModels.GetItem | utils/models.py:215-220 | `task[key]` raises KeyError exactly when `key` is not a field. |
| TaskModels.ContainsIffGetItem | utils/models.py:222-224 | `key in task` holds exactly when the field exists and is not None, and every key of `to_dict` is contained. |
| TaskModels.IndexFromDict | src/orchestragent/models/task.py:218-225 | `TaskIndex.from_dict` fails exactly on a non-string priority and stamps a missing `created_at`. |
| TaskModels.IndexRoundTrip | src/orchestragent/models/task.py:201-225 | `TaskIndex` round-trips through `to_dict`/`from_dict`. |
| TaskModels.IndexesRoundTrip | src/orchestragent/models/task.py:235-252 | A list of indexes round-trips entry by entry. |
| TaskModels.TasksFileFromDict | src/orchestragent/models/task.py:244-252 | Defaults: `next_task_id` 1, `version` 0 and `tasks` []. |
| TaskModels.TasksFileRoundTrip | src/orchestragent/models/task.py:235-252 | `TasksFile` round-trips through `to_dict`/`from_dict`. |
| TaskModels.FindIndex | src/orchestragent/models/task.py:254-259 | `get_task_index` finds the first entry with the id, or reports that none has it. |
| TaskModels.HasTaskIffIndexed | src/orchestragent/models/task.py:254-263 | `has_task(id)` holds exactly when `get_task_index(id)` is not None. |
| TaskModels.CountStatus | src/orchestragent/models/task.py:297-305 | A per-status count never exceeds the number of tasks. |
| TaskModels.StatisticsSum | src/orchestragent/models/task.py:297-305 | completed + failed + pending + in_progress == total. |
| TaskModels.StatisticsAppend | src/orchestragent/models/task.py:297-305 | One more task raises the total and its own status's count by one, and no other count. |
| TaskModels.StatisticsFromDict | src/orchestragent/models/task.py:286-294 | Each present count is taken as it is, and each missing count is 0. |
| TaskModels.StatisticsRoundTrip | src/orchestragent/models/task.py:275-294 | `TaskStatistics` round-trips through `to_dict`/`from_dict`. |
| StateModels.StatusFromDict | src/orchestragent/models/state.py:31-37 | Defaults: `version` 0, `current_phase` None, and `last_updated` stamped by `__post_init__`. |
| StateModels.StatusRoundTrip | src/orchestragent/models/state.py:15-37 | `Status` round-trips, except that an empty phase reads back as None. `current_phase` is written exactly when truthy. |
| StateModels.CheckpointFromDict | src/orchestragent/models/state.py:56-62 | A present name, time or file list is taken as it is. Missing names and times are "", and missing files are []. |
| StateModels.CheckpointRoundTrip | src/orchestragent/models/state.py:47-62 | `CheckpointMetadata` round-trips. |
| StateModels.ValidationResult.constructor | src/orchestragent/models/state.py:66-70 | A new result is valid with no errors and no warnings. |
| StateModels.ValidationResult.AddError | src/orchestragent/models/state.py:89-92 | Appends exactly one error, sets valid to False, and leaves the warnings alone. |
| StateModels.ValidationResult.AddWarning | src/orchestragent/models/state.py:94-96 | Appends exactly one warning and changes neither valid nor the errors. |
| StateModels.ApplyAllEffect | src/orchestragent/models/state.py:89-96 | After any sequence of calls, the result is valid exactly when it was valid and no error was added. Errors and warnings are the old lists plus the added ones, in order. |
| StateModels.InvalidStaysInvalid | src/orchestragent/models/state.py:89-96 | Once invalid, no sequence of `add_error`/`add_warning` makes the result valid again. |
| StateModels.ValidationFromDict | src/orchestragent/models/state.py:81-87 | Present `valid`, `errors` and `warnings` are taken as they are. The defaults are valid True and no errors or warnings. |
| StateModels.ValidationRoundTrip | src/orchestragent/models/state.py:72-87 | `ValidationResult` round-trips. |
| IntentModels.CommitFromDict | src/orchestragent/models/intent.py:29-35 | Missing hash reads as "", and a missing timestamp is stamped. |
| IntentModels.CommitRoundTrip | src/orchestragent/models/intent.py:20-35 | `Commit` round-trips. |
| IntentModels.IntentDataFromDict | src/orchestragent/models/intent.py:52-57 | A missing goal or rationale reads as "". |
| IntentModels.IntentDataRoundTrip | src/orchestragent/models/intent.py:44-57 | `IntentData` round-trips. |
| IntentModels.IntentFromDict | src/orchestragent/models/intent.py:91-109 | `task_id` defaults to "unknown"; a missing or non-dict `intent` gives an empty IntentData; a missing `created_at` is stamped. |
| IntentModels.IntentRoundTrip | src/orchestragent/models/intent.py:77-109 | `Intent` round-trips, except that an empty `related_adr` reads back as None. |
| IntentModels.AddCommit | src/orchestragent/models/intent.py:111-119 | A known hash returns False and changes nothing. A new hash returns True, appends exactly one commit at the end and stamps `updated_at`. |
| IntentModels.AddCommitKeepsDistinct | src/orchestragent/models/intent.py:111-119 | `add_commit` keeps commit hashes distinct, and the hash is recorded afterwards. |
| IntentModels.AddCommitsKeepDistinct | utils/models.py:536-544 | Across any sequence of `add_commit` calls, hashes stay distinct and earlier commits stay a prefix. |
| IntentModels.IntentObject.constructor | src/orchestragent/models/intent.py:61-75 | The object holds the given intent. |
| IntentModels.IntentObject.AddCommitTo | utils/models.py:536-544 | The in-place `add_commit` has exactly the effect and result of `AddCommit`. |
| IntentStore.FileNameInjective | src/orchestragent/tracking/intent_manager.py:34 | Different task ids never share an intent file. |
| IntentStore.FileNameMatches | src/orchestragent/tracking/intent_manager.py:78 | Every intent file is listed by the glob "intent_*.yaml". |
| IntentStore.Stamped | src/orchestragent/tracking/intent_manager.py:38 | Saving adds or overwrites `updated_at` only. |
| IntentStore.CommitList | src/orchestragent/tracking/intent_manager.py:112-116 | A missing commit list reads as empty. A list whose entries are not dicts raises. |
| IntentStore.WithCommitSpec | src/orchestragent/tracking/intent_manager.py:112-125 | A new commit grows the list by exactly that commit at its end, records its hash, keeps hashes distinct, and stamps `updated_at`. |
| IntentStore.SortDesc | src/orchestragent/tracking/intent_manager.py:88 | The sort is a permutation. |
| IntentStore.SortDescSorted | src/orchestragent/tracking/intent_manager.py:88 | The sort leaves `created_at` non-increasing (newest first). |
| IntentStore.Insert | src/orchestragent/tracking/intent_manager.py:88 | One insertion step of the stable sort is a permutation. |
| IntentStore.Collected | src/orchestragent/tracking/intent_manager.py:78-85 | Only truthy documents are collected. |
| IntentStore.CollectedMembers | src/orchestragent/tracking/intent_manager.py:78-85 | A document is collected exactly when a listed intent file holds it and it is truthy. |
| IntentStore.FirstNonDict | src/orchestragent/tracking/intent_manager.py:88 | Finds a document the sort key cannot read (not a dict), or reports that all are dicts. |
| IntentStore.AllIntentsSpec | src/orchestragent/tracking/intent_manager.py:70-89 | `get_all_intents` lists exactly the truthy documents of the intent files, newest first. |
| IntentStore.AllIntentsOfDirectory | src/orchestragent/tracking/intent_manager.py:70-89 | When the listing names exactly the directory's files, `get_all_intents` lists exactly the truthy documents of the directory's intent files. |
| IntentStore.FilterByAdr | src/orchestragent/tracking/intent_manager.py:211-214 | The filter keeps a subsequence of the intents. |
| IntentStore.FilterByAdrMembers | src/orchestragent/tracking/intent_manager.py:211-214 | An intent is kept exactly when its `related_adr` equals the number. |
| IntentStore.IntentsByAdrSpec | src/orchestragent/tracking/intent_manager.py:200-214 | `get_intents_by_adr` fails exactly when `get_all_intents` does. Otherwise it returns exactly the linked intents, in `get_all_intents` order. |
| IntentStore.SearchFrom | src/orchestragent/tracking/intent_manager.py:229-236 | The search keeps a subsequence of the intents. |
| IntentStore.MatchIntentSpec | src/orchestragent/tracking/intent_manager.py:231-235 | The test of one intent raises exactly when the intent or its `intent` entry is not a dict, its goal is not a string, or its goal does not match and its rationale is not a string: the rationale is not looked at once the goal matches. Otherwise it matches exactly when its goal or rationale contains the keyword, ignoring case. |
| IntentStore.SearchFromMembers | src/orchestragent/tracking/intent_manager.py:229-236 | The search succeeds exactly when the test of every intent succeeds (the four failure causes are those of `MatchIntentSpec`); it then keeps exactly the matching intents. |
| IntentStore.SearchIntentsSpec | src/orchestragent/tracking/intent_manager.py:216-238 | `search_intents` returns exactly the intents whose goal or rationale contains the keyword case-insensitively, in `get_all_intents` order. |
| IntentStore.IntentManager.constructor | src/orchestragent/tracking/intent_manager.py:12-21 | The intents directory is `state_dir/intents` with its existing files. |
| IntentStore.IntentManager.GetIntent | src/orchestragent/tracking/intent_manager.py:51-68 | None exactly when the task has no file; otherwise its document. |
| IntentStore.IntentManager.SaveIntent | src/orchestragent/tracking/intent_manager.py:23-49 | Writes the stamped dict under `intent_{task_id}.yaml`, with the id defaulting to "unknown", and returns that path. Every other task's intent is unchanged. |
| IntentStore.IntentManager.AddCommitToIntent | src/orchestragent/tracking/intent_manager.py:91-128 | False for a missing intent, and True without writing for a known hash. Otherwise it appends the commit, stamps the intent and saves it. Ill-shaped documents raise and write nothing. |
| IntentStore.IntentManager.LinkAdr | src/orchestragent/tracking/intent_manager.py:130-149 | False for a missing intent; otherwise it sets `related_adr`, stamps the intent and saves it. |
| IntentStore.IntentManager.UpdateIntentField | src/orchestragent/tracking/intent_manager.py:151-179 | False for a missing intent; otherwise it sets `intent[field]`, creating `intent` if absent, stamps the intent and saves it. |
| IntentStore.UpdatedFieldSpec | src/orchestragent/tracking/intent_manager.py:172-176 | Only `intent[field]` and `updated_at` change; every other entry keeps its value. |
| IntentStore.IntentManager.DeleteIntent | src/orchestragent/tracking/intent_manager.py:181-198 | Returns whether the file existed and removes it; `get_intent` then returns None. |
| AdrStore.NumberOf | src/orchestragent/tracking/adr_manager.py:12 | A number is read only from a name of four digits, '-', at least one character, then ".md". |
| AdrStore.MaxNumber | src/orchestragent/tracking/adr_manager.py:54-60 | The largest number read, or 0 when none is read. |
| AdrStore.AdrManager.GetNextNumber | src/orchestragent/tracking/adr_manager.py:52-60 | The loop returns 1 + the largest number read from the file names, or 1 when none is read. |
| AdrStore.NumberStrSpec | src/orchestragent/tracking/adr_manager.py:88 | `f"{n:04d}"` has at least four digits, exactly four up to 9999, and reads back as n. |
| AdrStore.CreatedFileIsListed | src/orchestragent/tracking/adr_manager.py:87-90 | The number `create_adr` returns finds the file it wrote through `get_adr`'s glob. |
| AdrStore.FreshUnlessEmptyOrWide | src/orchestragent/tracking/adr_manager.py:87-90 | With a non-empty slug and a number up to 9999, the new file name is not already taken. |
| AdrStore.AdrManager.constructor | src/orchestragent/tracking/adr_manager.py:14-50 | The directory has template.md, written when missing, whose name carries no record number. |
| AdrStore.AdrManager.CreateAdr | src/orchestragent/tracking/adr_manager.py:62-123 | Writes the record under "{number:04d}-{slug}.md" and returns the zero-padded number. Nothing else changes. |
| AdrStore.AdrContentShape | src/orchestragent/tracking/adr_manager.py:98-117 | A new record starts with its "# ADR-NNNN: title" heading and ends with its related-intent section. |
| AdrStore.IntentsTextLines | src/orchestragent/tracking/adr_manager.py:92-96 | The related-intent text has one "- id" line per task id, in order, or the single placeholder "- なし". |
| AdrStore.KeepSlugChars | src/orchestragent/tracking/adr_manager.py:313 | Keeps only word characters, whitespace and '-' of its input. |
| AdrStore.Collapse | src/orchestragent/tracking/adr_manager.py:314 | Each run of '-' and whitespace becomes a single '-'; the result has no "--". |
| AdrStore.Slugify | src/orchestragent/tracking/adr_manager.py:307-315 | A slug has at most 50 characters. |
| AdrStore.SlugifySpec | src/orchestragent/tracking/adr_manager.py:307-315 | A slug holds only '-' and word characters of the lower-cased title, with no whitespace, no "--" and no leading '-'. |
| AdrStore.SlugifyLowercase | src/orchestragent/tracking/adr_manager.py:311 | With ASCII lower-casing, a slug has no upper-case letter. |
| AdrStore.SlugHasNoNewline | src/orchestragent/tracking/adr_manager.py:307-315 | A slug never contains a newline. |
| AdrStore.KeepIntentsMembers | src/orchestragent/tracking/adr_manager.py:195-196 | The parsed related intents are exactly the stripped items other than "なし". |
| AdrStore.ParseAdr | src/orchestragent/tracking/adr_manager.py:142-209 | Parsed related intents never contain "なし". |
| AdrStore.FirstMatch | src/orchestragent/tracking/adr_manager.py:138 | The first listed file that matches: no earlier listed name is a matching file. None when no listed file matches. |
| AdrStore.GetAdr | src/orchestragent/tracking/adr_manager.py:125-211 | Returns the parsed record of the first listed file matching the zero-filled number's glob, or None when there is none. |
| AdrStore.GetAdrNormalises | src/orchestragent/tracking/adr_manager.py:136 | Numbers with or without leading zeros ("1", "01", "0001") find the same record. |
| AdrStore.WithStatusSpec | src/orchestragent/tracking/adr_manager.py:249-254 | Setting the status raises exactly when the status is not a valid `re.sub` template, whether or not the file has the section. Otherwise the expanded status becomes the status section's body and the rest of the file is kept, and a status without a backslash is written as it is. A file without the section is unchanged. |
| AdrStore.IndexOfChar | src/orchestragent/tracking/adr_manager.py:252 | The first position of a character, or none. |
| AdrStore.ParseTemplate | src/orchestragent/tracking/adr_manager.py:252 | A compiled replacement template refers only to groups the pattern has. |
| AdrStore.PlainTemplate | src/orchestragent/tracking/adr_manager.py:252 | A template without a backslash expands to itself. |
| AdrStore.EscapedTemplate | src/orchestragent/tracking/adr_manager.py:252 | A status with every backslash doubled expands to the status itself. |
| AdrStore.HeadingTemplate | src/orchestragent/tracking/adr_manager.py:252 | The template `\g<1>` + status fails when the status does, and otherwise expands to the heading followed by the expanded status. |
| AdrStore.NewlineEscape | src/orchestragent/tracking/adr_manager.py:252 | A `\n` in the status writes a line break. |
| AdrStore.OldStatusEscape | src/orchestragent/tracking/adr_manager.py:252 | A `\2` in the status writes the old status again. |
| AdrStore.MissingGroupEscape | src/orchestragent/tracking/adr_manager.py:252 | A `\3` raises: the pattern has two groups. |
| AdrStore.BadEscape | src/orchestragent/tracking/adr_manager.py:252 | A status such as `C:\docs` raises a bad-escape error. |
| AdrStore.AdrManager.UpdateAdrStatus | src/orchestragent/tracking/adr_manager.py:230-259 | False and no write for an unknown number. The `re.sub` error and no write for a status that is not a valid template. Otherwise the record is rewritten with the new status and True is returned. |
| AdrStore.SplicedSpec | src/orchestragent/tracking/adr_manager.py:290-300 | The splice keeps everything outside the section and ends the section with "- id". It replaces the placeholder or keeps the existing items before the new line, and appends the section when missing. |
| AdrStore.AdrManager.AddRelatedIntent | src/orchestragent/tracking/adr_manager.py:261-305 | False for an unknown number, and True without writing for a listed task. Otherwise the spliced record is written back. |
| AdrStore.EmptySlugNumberReused | src/orchestragent/tracking/adr_manager.py:87-90 | A title "???" gives "0001-.md", which ADR_PATTERN does not read, so the next number is 1 again. |
| AdrStore.FiveDigitNumberReused | src/orchestragent/tracking/adr_manager.py:12 | With records 9999 and 10000 present, the next number is 10000 again, and the new file can overwrite record 10000. |
| AdrStore.FixedNameIsFresh | src/orchestragent/tracking/adr_manager.py:52-60 | With the corrected pattern, the next record's file name is never an existing name. |
| ModelSelector.DefaultSelector | utils/model_selector.py:9-37 | The default selector is disabled, with the light threshold below the powerful one. |
| ModelSelector.CategoryName | utils/model_selector.py:106-126 | The category names are "light", "standard", "powerful" and "default". |
| ModelSelector.LenIfTruthy | utils/model_selector.py:51 | A falsy value counts 0, and a truthy sized value counts its positive length; a truthy unsized value raises. |
| ModelSelector.PriorityWeight | utils/model_selector.py:67-69 | The weight is 1 to 3; a priority that is not a string raises. |
| ModelSelector.ScoreErrors | utils/model_selector.py:49-74 | The score fails exactly when the description or files is truthy without a length, or the priority is not a string. An empty task scores 2. |
| ModelSelector.ScoreTerms | utils/model_selector.py:49-74 | score = len(description)/1000 + 2·files + 5·hours + priority weight. |
| ModelSelector.PriorityCaseInsensitive | utils/model_selector.py:69 | Priorities equal up to case give the same score. |
| ModelSelector.AddFileRaisesScore | utils/model_selector.py:55-57 | One more file raises the score by exactly 2, and a failing score keeps failing the same way. |
| ModelSelector.OrElse | utils/model_selector.py:96-102 | `a or b` returns `a` exactly when it is a non-empty name. |
| ModelSelector.CategorySpec | utils/model_selector.py:106-126 | Disabled gives "default" whatever the task. Enabled gives light below the light threshold, powerful from the powerful threshold on, and standard in between. |
| ModelSelector.SelectModelFollowsCategory | utils/model_selector.py:76-104 | Disabled gives model_default. Enabled gives the model of the category's tier, falling back to model_default when that model is None or empty. |
| ModelSelector.CategoryMonotone | utils/model_selector.py:93-104 | A higher score never selects a cheaper tier. |
| Exceptions.Message | utils/exceptions.py:63-66 | A TaskError's message starts with "Task {task_id}: ". |
| Exceptions.Retryable | utils/exceptions.py:30-57 | Timeout and rate-limit errors are always retryable; a corrupted state file never is. |
| Exceptions.RetryableDefaults | utils/exceptions.py:9-49 | AgentError, StateError and TaskError default to not retryable, and LLMError to retryable. The rate-limit default message is "Rate limit exceeded". |
| Exceptions.TaskMessageRecoversMessage | utils/exceptions.py:63-66 | With the task id known, a TaskError's message determines the original message. |
| Exceptions.TimeoutMessageInjective | utils/exceptions.py:33-35 | Distinct timeouts give distinct timeout messages. |
| Common.FormatZeroPaddedInjective | utils/state_manager.py:174 | Zero-padded renderings of distinct numbers differ. |
| Common.ZFillDigitsIsFormat | src/orchestragent/tracking/adr_manager.py:136 | `zfill(4)` on a digit string gives the four-digit rendering of its value. |

## Left out

- I/O: directories are maps; `mkdir`, file encodings and I/O failures are not modelled. Invalid
  JSON or YAML content is not modelled: a file holds an already-decoded document.
- Time: `time.time()`, `datetime.now()` and `time.sleep` are parameters. The lock clock is an
  integer number of milliseconds, and the 0.1 s sleep advances it by 100.
- Concurrency: no threads. The other writer in `update_json` acts once per attempt, between the
  read and the version re-read. The source's check-then-write is not atomic, and the model claims
  no compare-and-swap.
- StateStore.StateManager.UpdateJson: a version compared with Python `==` across containers
  (`PyEq`) is compared numerically for numbers and structurally otherwise.
- Typed requires: where the source would raise on an ill-typed field (a list where a string is
  expected, and so on), the conversions require a "typed" predicate. The error path is modelled
  only where the source handles or propagates it cheaply (priorities, statuses, versions, task ids).
- FileLock.FileLockManager.AcquireLock: lock timeouts are integers (ms), not floats. The "other
  errors return False" branch (utils/file_lock.py:68-70) is not modelled, because the directory map
  cannot fail. Other processes act only during the sleeps (`others`). A process that writes or
  removes the lock between the staleness check and `unlink` is not modelled; in the source, that
  `unlink` can then delete another process's fresh lock.
- FileLock.FileLockManager.CleanupStaleLocks: the lock map holds only the lock directory's
  "*.lock" files, which is what the source's glob lists (utils/file_lock.py:202). Other files in
  the directory are not modelled.
- `get_locked_files` (utils/file_lock.py:110-134) is not modelled: it only lists the map's keys
  through `glob` and re-reads each file.
- TaskScheduler.PriorityScore: an unhashable priority (a list or a dict) makes the source's
  `priority_map.get` raise TypeError; the model scores it 2.
- The description file extraction of `_extract_task_files` (regexes, utils/task_scheduler.py:136-152)
  is the parameter `mentions`; only the cleaning and deduplication around it are modelled.
- `get_pending_tasks` and `get_task_by_id` of the state manager are not part of this model. The
  scheduler takes the pending list and the lookup as parameters (`pending`, `lookup`).
- TaskModels.GetAttr: `hasattr` is also true for Task's method names; the model answers the
  default for them, as for any other name that is not a field.
- TaskModels.NewTask: `__post_init__` is modelled on string priorities and statuses only.
- Floating point: `estimated_hours` and model-selector scores are Dafny reals. No rounding is
  modelled.
- Unicode: `str.lower()` and the regex class `\w` in `_slugify` are parameters (`lower`,
  `isWord`); `Common.Lower` lower-cases ASCII letters only. Unicode digits, which `\d` accepts,
  are not modelled.
- IntentModels.IntentFromDict: commit entries that are not dicts (the source keeps them as they
  are) are excluded by the typed requires.
- IntentStore.AllIntentsSpec: the glob order is the parameter `listing`. A document that cannot
  be read is left out of `files`. Ill-typed `created_at` values make the model fail, where the
  source's comparison may or may not raise. The YAML dump/load round trip is taken to be the
  identity.
- IntentStore.IntentManager.SaveIntent: the source stamps `updated_at` into the caller's dict in
  place; the model's dict is a value, so the caller's own copy is not changed.
- Exceptions.AgentError: an `LLMTimeout` timeout is a whole number of seconds. The hint is
  `float`, and a float renders as "300.0" in the message; that rendering is not modelled.
- AdrStore: the section regexes of `get_adr` (`re.MULTILINE | re.DOTALL` with lookaheads) are the
  parameter `AdrSyntax`, a function from content to a section span. Glob metacharacters, '/' in
  the requested number, and titles with newlines in file names are not modelled.
- AdrStore.AdrManager.UpdateAdrStatus: `re.sub` replaces every status section; the model replaces
  the first span `AdrSyntax` gives, whose heading starts at `headingStart`.
- AdrStore.ParseTemplate: Python's template compiler, with the pattern's two unnamed groups.
  `str.isidentifier` and `str.isdecimal` take every non-ASCII character as a letter and only ASCII
  digits as decimal. Error messages are approximate.
- `get_all_adrs` (src/orchestragent/tracking/adr_manager.py:213-228) is not modelled: it only calls
  `get_adr` on each listed number and sorts the result.
- The dashboard, agents, LLM clients, intent parser, git helper, logger and startup code are not
  part of this model.

## Findings

| source | as written | input that shows it | evidently intended | confidence | as-written member | corrected member |
|---|---|---|---|---|---|---|
| utils/file_lock.py:91-94 | `release_all_locks` calls `release_lock` on each held path, which normalises the already-normalised path again | holding "a\\" (stored as "a/"): the release targets "a" and "a.lock", so "a_.lock" and "a/" remain | release each held path as stored, so nothing stays held and no held path's lock file remains | not executed | FileLock.ReleaseAllAsWrittenLeavesLock | FileLock.FileLockManager.ReleaseAllLocksByKey |
| src/orchestragent/tracking/adr_manager.py:87-90 | a title with no word character gives the empty slug and the file "NNNN-.md", which ADR_PATTERN (`.+` before ".md") does not read | `create_adr("???")` on an empty directory writes "0001-.md", and the next number is still 1 | every written record counts towards the next number | not executed | AdrStore.EmptySlugNumberReused | AdrStore.FixedNameIsFresh |
| src/orchestragent/tracking/adr_manager.py:12 | ADR_PATTERN reads exactly four digits, so numbers from 10000 on are not read | with "9999-a.md" and "10000-b.md" present, the next number is 10000 again, and a title with slug "b" overwrites record 10000 | numbers keep increasing past 9999 | not executed | AdrStore.FiveDigitNumberReused | AdrStore.FixedNameIsFresh |

`AdrStore.AdrManager.GetNextNumber` and `AdrStore.AdrManager.CreateAdr` take the name reader as a
parameter. With `AdrStore.NumberOfFixed` (the corrected pattern `^(\d{4,})-(.*)\.md$`) they never
reuse a file name.
