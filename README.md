# Project tracker: a verified model of its data layer and editors

The project tracker is a single-page web application for planning projects, ideas, events,
tasks and subtasks. A small Express server stores each collection as one JSON file. In the
browser, a data manager holds everything in a cache. It validates every write against a
per-collection schema, logs dangling references, runs the cascading deletes and guards the
forward-only subtask lifecycle Analyze, Development, Test, Production. Around it sit:

- an id generator that hands out `kind_NNN` ids;
- a subtask manager for stage moves and subtask creation;
- the task detail page with its eight-step status workflow;
- two editable grids, one for tasks and one for subtasks;
- a form handler that validates and serialises forms;
- the page navigator.

The Dafny project models these parts as follows.

- **Values and schema.** Records are maps from field names to JavaScript-like values
  (`values.dfy`). `schema.dfy` holds the allow-lists, the required, array, enum and date
  fields, and `validateSchema` with its checks in the source's order.
- **Data layer.** `repository.dfy` states each write of the data manager as a function over
  the five collections. `add`, `update` and `delete` are there, and so are the
  entity-specific defaults, the lifecycle guard, the reference-stripping loops, the
  cascading deletes and the relationship check. The class `DataManager`
  (`data_manager.dfy`) holds the cache and the last persisted state. Each of its methods,
  with the loops the source has, is proved to leave the cache exactly as the matching
  function says. `repository_laws.dfy` and `cascade_laws.dfy` prove what those functions
  guarantee.
- **Server.** `server.dfy` models the file server's three routes over a map from
  collection to file content.
- **Id generator.** `id_generator.dfy` models the counters and the id format, up to
  injectivity of ids.
- **Subtask manager.** `lifecycle.dfy` and `subtask_manager.dfy` hold the stage
  arithmetic, `advanceSubtask` and `createSubtask`.
- **Task detail page.** `task_detail.dfy` holds the workflow, the step marks and buttons,
  and the page's edits of the task it shows.
- **Grids.** `grid_lists.dfy` holds what both grids share. `task_grid.dfy` and
  `subtask_grid.dfy` are the grid classes.
- **Form handler.** `form_handler.dfy` holds the rules, `validateField`, `validateForm` and
  `serializeForm`.
- **Navigator.** `navigation.dfy` holds the navigator's state machine.

A recurring result is that several user-interface writes are always refused, because the
records they send carry fields that the data layer's allow-list refuses:

- the task grid sends `isNew`;
- the subtask grid and the task detail page send `status`, `updatedAt` and `createdAt`;
- `advanceSubtask` sends `lastAdvanced`.

The model proves for each case that the write fails and, since records are values here,
that the store is left as it was. In JavaScript the page has already edited the cache's own
record in place before the refused write (see "## Left out"). The model keeps the code's
behaviour, since the grids catch the error. The task grid's `saveTask` is reported under Findings, where its intent is
evident from its sibling in the subtask grid.

Points of the code a reader might not expect, which the model follows:

- The data manager assigns no timestamps.
- An update's patch may replace the `id` (the merge is a plain spread).
- Cascades run before the record itself is removed, so a missing id still strips
  references before it reports not-found.
- The lifecycle guard applies only to a truthy `taskType` on an existing subtask.
- Task statuses are the four legacy values, so the detail page's eight workflow statuses
  are refused by the schema.
- A deleted task is looked up with `find`, so only the first task with that id has its
  subtasks cascaded.

Foreign inputs become parameters:

- date parsing is a predicate `dateOk` fixed per data manager;
- the browser's email pattern, `Date.parse`, numeric coercion, `parseInt`, date comparison
  and `toLocaleDateString` are the fields of `FormHandler.Foreign`;
- the clock is a `now` argument;
- confirmation dialogs are a `confirmed` flag, and `history.back` throwing is a flag;
- parsed JSON arrives as `Server.Content`.

## Model

| member | source | states |
|---|---|---|
| Values.Without | js/data-manager.js:745 | the filtered list holds exactly the other ids, possibly fewer |
| Values.IndexOf | js/data-manager.js:760-761 | `indexOf` with strict equality: -1 exactly when the value is no listed string, else the first position holding it |
| Values.IndexOfDistinct | js/task-detail-manager.js:170 | in a list whose entry i does not occur earlier, `indexOf` finds it at i |
| Values.IndexFrom | js/data-manager.js:760-761 | searching from a position: the first later position holding the value, or -1 exactly when none does |
| Text.TrimEmptyIff | js/task-grid.js:71 | a string trims to the empty string exactly when all its characters are JavaScript whitespace |
| Text.Lower | js/task-grid.js:289-290 | case folding keeps the length and maps each character on its own |
| Text.TrimStart | js/task-grid.js:71 | the trimmed front is a suffix of the string, what it drops is all whitespace, and it starts with no whitespace |
| Text.TrimEnd | js/task-grid.js:71 | the trimmed back is a prefix of the string, what it drops is all whitespace, and it ends with no whitespace |
| Schema.ParseCollection | js/data-manager.js:419-422 | a type name denotes a collection exactly when it is one of the five names, and then that one |
| Schema.Extras | js/data-manager.js:424-429 | the reported extra keys are exactly the item's keys outside the allow-list |
| Schema.MissingOf | js/data-manager.js:431-445 | the reported missing fields are exactly the required fields that are absent, empty, null or undefined |
| Schema.ValidateSchema | js/data-manager.js:409-508 | the loop over the array fields, together with the other checks, gives the item and the error that `CheckSchema` specifies |
| Schema.InitArraysNoneIff | js/data-manager.js:447-463 | the array step fails exactly when some present array field does not hold an array |
| Schema.InitArraysFrame | js/data-manager.js:447-463 | the array step keeps every existing field and adds only array fields |
| Schema.InitArraysFills | js/data-manager.js:447-463 | after a passing array step, every absent array field holds `[]` |
| Schema.DateCheckNoneIff | js/data-manager.js:489-507 | the date step passes exactly when every truthy date field parses |
| Schema.InitArraysKeepsChecks | js/data-manager.js:447-507 | filling array fields changes neither the enum nor the date verdict |
| Schema.CheckSchemaAcceptsIff | js/data-manager.js:409-508 | validation accepts exactly the records that conform: allowed keys only, required fields present, array fields arrays, enums in their sets, dates parseable |
| Schema.CheckSchemaStores | js/data-manager.js:447-463 | an accepted record is stored with its absent array fields set to `[]` and nothing else changed |
| Schema.AcceptedKeysAllowed | js/data-manager.js:424-463 | every key of a stored record is on the collection's allow-list |
| Schema.AllowListFirst | js/data-manager.js:419-429 | an unknown type is refused first; a record with extra keys is refused next, naming all of them |
| Schema.MissingRequiredRejects | js/data-manager.js:431-445 | past the allow-list, a missing required field is refused and named, and the error names exactly the missing required fields |
| Schema.NoFieldIsBoth | js/data-manager.js:411-417 | no date field is also an array or enum field |
| Schema.ParseName | js/data-manager.js:411-422 | each collection's own name denotes that collection |
| Schema.ExtrasEmptyIff | js/data-manager.js:424-429 | there are no extra keys exactly when every key is allowed |
| Schema.MissingEmptyIff | js/data-manager.js:431-445 | nothing is missing exactly when every required field is present and non-empty |
| Schema.DateCheckAgrees | js/data-manager.js:489-507 | the date verdict depends only on the date fields' values |
| Repository.FindIndex | js/data-manager.js:356 | `findIndex` by id: the first matching position, or -1 exactly when no record has the id |
| Repository.Find | js/data-manager.js:661-664 | `find` by id: found exactly when some record has the id, and then the first one |
| Repository.RemoveId | js/data-manager.js:380 | the filtered collection holds exactly the records with other ids, and is shorter exactly when some record had the id |
| Repository.Dangling | js/data-manager.js:517-520 | the reported ids are exactly the referenced ids that no target record carries |
| RepositoryLaws.AddAppends | js/data-manager.js:335-349 | an unknown collection is refused; otherwise the write succeeds exactly when the record conforms, whatever the collection holds, and then the record with `[]` array defaults is appended; a refused write changes nothing |
| RepositoryLaws.UpdateMerges | js/data-manager.js:351-372 | a missing id is not-found and changes nothing; otherwise the update succeeds exactly when the shallow merge conforms, and it then replaces only the first record with the id, patch keys winning and old fields kept |
| RepositoryLaws.UpdateSetsField | js/data-manager.js:362 | a stored merge holds the patch's value for each patched field |
| RepositoryLaws.UpdateStored | js/data-manager.js:351-372 | a successful update stores its merge at the record's index; a failed one stores nothing |
| RepositoryLaws.MergeFields | js/data-manager.js:362 | the stored merge has the patch's fields, the prior fields not patched, and `[]` in new array fields, and nothing else |
| RepositoryLaws.UpdateUnknownType | js/data-manager.js:351-360 | an update on a name that is not a collection is always not-found and changes nothing |
| RepositoryLaws.DeleteRemovesAll | js/data-manager.js:374-407 | delete succeeds exactly when some record had the id, removes every such record and nothing else; otherwise it is not-found and changes nothing |
| RepositoryLaws.UpdateForeignKeyRejected | js/data-manager.js:424-429 | an update whose patch carries a key outside the allow-list is refused with that key named and changes nothing |
| RepositoryLaws.AddForeignKeyRejected | js/data-manager.js:424-429 | a new record carrying a key outside the allow-list is refused and changes nothing |
| RepositoryLaws.UpdateSubtaskForeignKeyRejected | js/data-manager.js:728-738 | `updateSubtask` with a key outside the subtask allow-list changes nothing and fails |
| RepositoryLaws.UpdateSubtaskForwardOnly | js/data-manager.js:728-738 | without a truthy `taskType`, or for a missing subtask, it is a plain update; a stored stage change never goes backwards and stores the new stage |
| RepositoryLaws.UpdateSubtaskGuardPasses | js/data-manager.js:728-738 | when the stage guard passes, `updateSubtask` is a plain update |
| RepositoryLaws.AdvanceGuards | js/data-manager.js:772-787 | a missing subtask is not-found, one at Production is refused as final, and one with an unknown stage fails too, all changing nothing |
| RepositoryLaws.AdvanceOneStage | js/data-manager.js:772-787 | a successful advance stores the subtask exactly one stage further on, at its index, and changes no other subtask |
| RepositoryLaws.SubtaskUpdateStores | js/data-manager.js:728-738 | a successful stage update stores the merge at the subtask's index |
| RepositoryLaws.FirstDanglingNoneIff | js/data-manager.js:510-572 | the check finds no dangling group exactly when every reference field resolves |
| RepositoryLaws.RelationshipWarningIff | js/data-manager.js:510-572 | no warning is logged exactly when every reference of the record resolves; a warning names only unresolved ids, never none |
| RepositoryLaws.FirstDanglingNames | js/data-manager.js:510-572 | a reported group is non-empty and lists only ids missing from its target |
| CascadeLaws.UpdateKeepsIds | js/data-manager.js:362-369 | an update whose patch has no `id` keeps every record's id and touches only its own collection |
| CascadeLaws.FindUnique | js/data-manager.js:356 | with unique ids, `findIndex` on a record's id finds that record |
| CascadeLaws.MergeKeepsId | js/data-manager.js:362 | a patch without `id` keeps the record's id through the merge and the array defaults |
| CascadeLaws.StripFrame | js/data-manager.js:742-748 | the stripping loop keeps the ids of the collection and changes no other collection |
| CascadeLaws.StripClearsFrom | js/data-manager.js:742-748 | the stripping loop's invariant: the records already passed no longer list the id |
| CascadeLaws.StripStep | js/data-manager.js:742-748 | one successful strip update replaces just that record, drops the id from its list and keeps ids unique |
| CascadeLaws.StripClears | js/data-manager.js:742-748 | a completed strip over a collection with unique ids leaves no record listing the id |
| CascadeLaws.DeleteSubtaskClears | js/data-manager.js:740-751 | a successful `deleteSubtask` had the subtask, removes it and leaves no task listing it (task ids unique); any outcome changes only task lists and subtasks |
| CascadeLaws.DeleteSubtasksFrame | js/data-manager.js:679-684 | deleting a list of subtasks changes only task reference lists and the subtask collection |
| CascadeLaws.DeleteSubtasksGone | js/data-manager.js:679-684 | on success every listed subtask existed, no id was listed twice, and none remains |
| CascadeLaws.DeleteTaskClears | js/data-manager.js:676-704 | a successful `deleteTask` had the task, removes it and its listed subtasks, and no idea's `taskIds` or project's `taskId` lists it (ids unique) |
| CascadeLaws.DeleteTasksLaw | js/data-manager.js:626-628 | deleting a list of tasks: on success every listed task existed and none remains |
| CascadeLaws.DeleteIdeaClears | js/data-manager.js:623-632 | a successful `deleteIdea` had the idea, removes it and every task it listed; with unique task ids every subtask those tasks listed is gone, and with unique idea (project) ids no idea's `taskIds` (project's `taskId`) names a deleted task |
| CascadeLaws.DeleteTaskKeepsUnique | js/data-manager.js:676-704 | `deleteTask` keeps task ids unique |
| CascadeLaws.DeleteTaskNarrowsIdeas | js/data-manager.js:685-692 | with unique idea ids, `deleteTask` only removes ids from ideas' `taskIds` |
| CascadeLaws.DeleteTaskNarrowsProjects | js/data-manager.js:694-701 | with unique project ids, `deleteTask` only removes ids from projects' `taskId` |
| CascadeLaws.DeleteTaskShrinks | js/data-manager.js:676-704 | with unique task ids, after `deleteTask(t0)` every id a task listed is still listed by that task (other than `t0`) or no longer a subtask |
| CascadeLaws.DeleteTasksNarrow | js/data-manager.js:626-628 | deleting a list of tasks keeps task ids unique and only removes ids from ideas' and projects' task lists |
| CascadeLaws.DeleteTasksSubtasksGone | js/data-manager.js:626-628 | with unique task ids, a successful deletion of a list of tasks leaves none of their subtasks |
| CascadeLaws.DeleteTasksRefsClear | js/data-manager.js:626-628 | a successful deletion of a list of tasks leaves no idea or project naming one of them (ids unique) |
| CascadeLaws.StripNarrows | js/data-manager.js:742-748 | with unique ids, a strip loop only removes the stripped id from each record's list and keeps every other id |
| CascadeLaws.RemoveIdFind | js/data-manager.js:380 | removing one id keeps the first record with any other id |
| CascadeLaws.RemoveIdUnique | js/data-manager.js:380 | removing an id keeps ids unique |
| RepositoryLaws.RemoveIdAppend | js/data-manager.js:380 | the delete filter keeps order: filtering a concatenation filters each part |
| DataLayer.DataManager.constructor | js/data-manager.js:2-14 | the cache starts as the stored files, equal to what was persisted, with no warnings |
| DataLayer.DataManager.GetData | js/data-manager.js:328-333 | a collection's records, and `[]` for a name that is not a collection |
| DataLayer.DataManager.GetRecord | js/data-manager.js:579-582 | the first record with the id, found exactly when some record has it |
| DataLayer.DataManager.SaveDataFile | js/data-manager.js:57-104 | the persisted copy of the collection becomes the cache's, and nothing else changes |
| DataLayer.DataManager.AddData | js/data-manager.js:335-349 | the new cache and result are `AddSpec`'s, the change is persisted, and a warning is logged exactly when the stored record has a dangling reference |
| DataLayer.DataManager.UpdateData | js/data-manager.js:351-372 | the new cache and result are `UpdateSpec`'s, persisted, with the relationship warning logged |
| DataLayer.DataManager.DeleteData | js/data-manager.js:374-407 | the new cache and result are `DeleteSpec`'s, persisted; no warning is logged |
| DataLayer.DataManager.SaveProject | js/data-manager.js:584-592 | the four reference arrays default to `[]`, then the project is added, logging what `addData` logs |
| DataLayer.DataManager.SaveIdea | js/data-manager.js:612-617 | `keywords` and `taskIds` default to `[]`, then the idea is added, logging what `addData` logs |
| DataLayer.DataManager.SaveEvent | js/data-manager.js:644-646 | the event is added as given, logging what `addData` logs |
| DataLayer.DataManager.SaveTask | js/data-manager.js:666-670 | `subtaskIds` defaults to `[]`, then the task is added, logging what `addData` logs |
| DataLayer.DataManager.SaveSubtask | js/data-manager.js:721-726 | `taskType` defaults to Analyze, then the subtask is added, logging what `addData` logs |
| DataLayer.DataManager.Update | js/data-manager.js:594-596 | `updateProject`, `updateIdea`, `updateEvent`, `updateTask`: the collection's update, persisted, logging the stored record's relationship warning |
| DataLayer.DataManager.Delete | js/data-manager.js:598-600 | `deleteProject`, `deleteEvent`: a delete without cascade, persisted; no warning is logged |
| DataLayer.DataManager.UpdateSubtask | js/data-manager.js:728-738 | the stage guard, then the update, as `UpdateSubtaskSpec` says; a successful one logs the stored subtask's relationship warning |
| DataLayer.DataManager.AdvanceSubtaskStage | js/data-manager.js:772-787 | the new cache and result are `AdvanceSpec`'s; a successful one logs the stored subtask's relationship warning |
| DataLayer.DataManager.StripRefs | js/data-manager.js:742-748 | the loop over a snapshot, stopping at the first failed update, as `Strip` says; the warning log only grows at its end |
| DataLayer.DataManager.DeleteSubtask | js/data-manager.js:740-751 | the strip and the delete, as `DeleteSubtaskSpec` says; the warning log only grows at its end |
| DataLayer.DataManager.DeleteTask | js/data-manager.js:676-704 | the subtask loop, the two strips and the delete, as `DeleteTaskSpec` says; the warning log only grows at its end |
| DataLayer.DataManager.DeleteIdea | js/data-manager.js:623-632 | the task loop and the delete, as `DeleteIdeaSpec` says; the warning log only grows at its end |
| Statistics.CountValue | js/data-manager.js:903-907 | a status count never exceeds the number of records |
| Statistics.CountOther | js/data-manager.js:901-920 | the records outside the listed values never exceed the number of records |
| Statistics.CountWithSubtasks | js/data-manager.js:908 | the count of tasks with subtasks never exceeds the number of tasks |
| Statistics.FourBuckets | js/data-manager.js:901-920 | four distinct values and the rest partition the records |
| Statistics.NoOtherIff | js/data-manager.js:901-920 | no record falls outside the values exactly when each holds one of them |
| Statistics.TaskBuckets | js/data-manager.js:901-910 | the four status counts add up to at most `total`, and to `total` exactly when every task has a schema status; `withSubtasks` is at most `total` |
| Statistics.SubtaskBuckets | js/data-manager.js:912-920 | the four stage counts add up to `total` exactly when every subtask is at a lifecycle stage |
| Lifecycle.ValidateSubtaskProgression | js/data-manager.js:758-770 | the guard passes exactly for two stages not going backwards; between two stages it reports a regression |
| Lifecycle.ProgressionOrder | js/data-manager.js:758-770 | every ordered pair of stages passes exactly when the second is not earlier |
| Lifecycle.StageIndexOfStage | js/data-manager.js:760-761 | each stage's index is its position in the lifecycle |
| Server.Status | server.js:62-137 | each response has status 200, 400, 404 or 500; 400 is the bad-type answer and 404 the not-found answer |
| Server.EnsureFile | server.js:24-32 | a missing file is created holding `[]`; other files are left as they are |
| Server.ReadJsonFile | server.js:35-44 | an unreadable file reads as `[]`; any other content reads as it is |
| Server.FileServer.constructor | server.js:15-21 | the server starts on the given files |
| Server.FileServer.ReadCollection | server.js:35-44 | creating the file if needed and reading it, as the two helpers say |
| Server.FileServer.HandleGet | server.js:62-75 | the new files and response are `ServeGet`'s |
| Server.FileServer.HandlePost | server.js:78-113 | the new files and response are `ServePost`'s |
| Server.FileServer.HandleDelete | server.js:116-137 | the new files and response are `ServeDelete`'s |
| Server.TypeGuard | server.js:65-67 | every route answers 400 exactly for a name outside the five collections, and then touches no file |
| Server.ReadFailureIsEmpty | server.js:35-44 | an unreadable or missing file is served as `[]`; a missing one is created |
| Server.PostArrayReplaces | server.js:92-93 | an array body replaces the collection's file and leaves every other file as it was |
| Server.UpsertLaws | server.js:95-105 | the object replaces the first element with its id, or is appended when there is none; other elements are kept, and a lookup by its id finds it |
| Server.UpsertIdempotent | server.js:95-105 | posting the same object twice leaves the file as posting it once |
| Server.FirstMatchAfterReplace | server.js:96-100 | after replacing the first match, the first match is still at that position |
| Server.FirstMatchAppended | server.js:101-104 | an object appended under a new id is found last |
| Server.PostThenGet | server.js:78-113 | after a successful object post, reading the collection finds the object under its id |
| Server.DeleteLaws | server.js:116-137 | 500 for a file that is not an array, 404 and no write exactly when no element has the id; otherwise the file holds the filter of the old elements by the id, so it keeps, in order, exactly the elements with other ids |
| Ids.Decimal | js/id-generator.js:20 | `String(n)` is a non-empty run of digits with no leading zero for positive n |
| Ids.PadStart | js/id-generator.js:20 | `padStart` keeps the string at the end, fills the front with the pad character, and reaches the width |
| Ids.ParseDecimalOfDecimal | js/id-generator.js:20 | the decimal digits read back give the number |
| Ids.DigitRoundTrip | js/id-generator.js:20 | each digit's character reads back as the digit |
| Ids.CounterOfDigits | js/id-generator.js:20 | the counter can be read back from the padded digits of an id |
| Ids.KindHasNoSeparator | js/id-generator.js:2-13 | no id kind contains `_` |
| Ids.SplitAtSeparator | js/id-generator.js:20 | two ids whose kinds have no `_` are equal only with equal kinds and equal rests |
| Ids.FormatIdInjective | js/id-generator.js:20 | two ids of known kinds with positive counters are equal exactly when kind and counter are |
| Ids.IssueNext | js/id-generator.js:15-24 | handing out the next id of a kind gives a new id and keeps every issued id below its kind's counter |
| Ids.ClampCounter | js/id-generator.js:74 | the stored counter is at least 1, the parsed value when it is at least 1, and 1 otherwise |
| Ids.IdGenerator.constructor | js/id-generator.js:2-13 | every counter starts at 1 and nothing has been issued |
| Ids.IdGenerator.GetNextId | js/id-generator.js:63-68 | an unknown kind is an error; otherwise it is the id the next `generateId` returns |
| Ids.IdGenerator.GenerateId | js/id-generator.js:15-24 | an unknown kind is an error and changes nothing; otherwise the id is `kind_NNN` from the current counter, never issued before, and only that counter goes up by one |
| Ids.IdGenerator.SetCounter | js/id-generator.js:70-76 | an unknown kind is an error and changes nothing; otherwise only that counter is set, to the clamped value |
| Ids.IdGenerator.ResetCounters | js/id-generator.js:50-61 | every counter is back to 1 |
| Ids.IdGenerator.GetAllCounters | js/id-generator.js:78-80 | one counter per kind, each the current one and at least 1 |
| Ids.NewId | js/id-generator.js:15-24 | for a known kind, the fresh id and the single bumped counter |
| SubtaskManager.ValidateStageProgression | js/subtask-manager.js:18-35 | passes exactly for two stages not going backwards; otherwise an unknown current stage, then an unknown new stage, then a regression is reported |
| SubtaskManager.GetNextStage | js/subtask-manager.js:37-49 | an unknown stage is an error, Production has no next stage, any other stage has the one after it |
| SubtaskManager.StagesPartition | js/subtask-manager.js:51-59 | the earlier and the available stages together are the whole lifecycle; for a known stage the available ones start at it, for an unknown one only Production is available |
| SubtaskManager.AccessibleIffForward | js/subtask-manager.js:61-66 | between known stages accessibility is the progression check; from an unknown stage everything is accessible, and an unknown target never is from a known stage |
| SubtaskManager.GuardsAgree | js/subtask-manager.js:18-35 | the manager's check and the data layer's check accept the same stage changes |
| SubtaskManager.NextStageIsForward | js/subtask-manager.js:37-49 | the proposed next stage always passes the data layer's guard and is one step on |
| SubtaskManager.AdvanceSubtaskRejected | js/subtask-manager.js:68-92 | advancing never changes the data: a missing subtask is not-found, Production is final, and any other stage's write is refused for its `lastAdvanced` key |
| SubtaskManager.TimestampNotAllowed | js/subtask-manager.js:82 | `lastAdvanced` is not a subtask field |
| SubtaskManager.AdvanceRejectedAt | js/subtask-manager.js:76-83 | for a subtask with a next stage, the write is refused naming `lastAdvanced`, and nothing changes |
| SubtaskManager.ForwardWriteRejected | js/data-manager.js:728-738 | a forward stage change carrying a key outside the subtask fields is refused naming it, and nothing changes |
| SubtaskManager.RelayUpdate | js/subtask-manager.js:80-91 | the data layer's `updateSubtask`, its error wrapped, as `Relay` says |
| SubtaskManager.AdvanceSubtask | js/subtask-manager.js:68-92 | the lookup, the next-stage step and the write, as `AdvanceSubtaskSpec` says |
| SubtaskManager.CreateSubtaskAppends | js/subtask-manager.js:94-119 | a created subtask is stored last at Analyze; when the parent task exists and its update succeeds, the parent's list is the old list with the new id at the end |
| SubtaskManager.LinkAppends | js/subtask-manager.js:108-116 | after a failed save or parent update nothing more changes; otherwise the parent, when it exists, gains the id at the end of its list |
| SubtaskManager.CreateSaves | js/subtask-manager.js:96-106 | the built subtask is at Analyze already, and saving appends it unchanged |
| SubtaskManager.CreateSubtask | js/subtask-manager.js:94-119 | one fresh subtask id, then the save and the link, as `CreateSubtaskSpec` says |
| SubtaskManager.SaveAndLink | js/subtask-manager.js:106-116 | the save and the link, as `CreateSubtaskSpec` says |
| SubtaskManager.LinkSaved | js/subtask-manager.js:108-116 | after the save, the parent update, as `LinkToTask` says |
| TaskDetail.NextStatusOf | js/task-detail-manager.js:169-177 | the following workflow entry; `ready_to_analyze` for a status outside the workflow; nothing at `production_done` |
| TaskDetail.WorkflowDistinct | js/task-detail-manager.js:5-14 | the eight workflow statuses are distinct |
| TaskDetail.WorkflowIndexOf | js/task-detail-manager.js:170 | each status's workflow index is its position |
| TaskDetail.PreviousStatusOf | js/task-detail-manager.js:179-187 | the entry before; nothing at the first entry or outside the workflow |
| TaskDetail.StepsInverse | js/task-detail-manager.js:169-187 | a step forward then back, or back then forward, returns to the entry left |
| TaskDetail.MarksShape | js/task-detail-manager.js:62-83 | the steps before the current one are completed, it is the one current step, the rest are upcoming; all are upcoming for a status outside the workflow |
| TaskDetail.ButtonsMatchMoves | js/task-detail-manager.js:89-100 | a button is disabled exactly when its move would change nothing; the next button reads completed exactly at `production_done` |
| TaskDetail.WithSubtaskIdAppends | js/task-detail-manager.js:296-299 | the id goes to the end of the list and every other field stays; a truthy non-array list cannot be pushed to |
| TaskDetail.WithoutSubtaskIdRemoves | js/task-detail-manager.js:326-328 | no occurrence of the id is left, the other ids stay, and so do the other fields |
| TaskDetail.StatusWriteRejected | js/task-detail-manager.js:189-204 | a status write is always refused, since the task carries `updatedAt`; in the model, where records are values, the store is left as it was |
| TaskDetail.WorkflowOutsideEnum | js/task-detail-manager.js:5-14 | every workflow status lies outside the task schema's `doneStatus` enum |
| TaskDetail.DetailCreateRejected | js/task-detail-manager.js:277-311 | the subtask the page builds is always refused, so neither the data nor the shown task changes |
| TaskDetail.ForeignSubtaskRejected | js/task-detail-manager.js:282-294 | a subtask carrying `status` is refused and nothing changes |
| TaskDetail.DetailDeleteOutcome | js/task-detail-manager.js:318-339 | unconfirmed, nothing happens; confirmed, the cascade's result is what is stored, the page reports failure, and after a successful cascade the shown list has lost the id |
| TaskDetail.TaskDetailManager.constructor | js/task-detail-manager.js:2-25 | no task is shown |
| TaskDetail.TaskDetailManager.Init | js/task-detail-manager.js:27-46 | the shown task is the first one with the id, and a missing one is reported |
| TaskDetail.TaskDetailManager.UpdateTaskStatus | js/task-detail-manager.js:189-204 | without a task nothing changes; otherwise the shown task gets the status and stamp, and the store is what updating it gives |
| TaskDetail.TaskDetailManager.NextStatus | js/task-detail-manager.js:169-177 | at `production_done` or without a task nothing changes; otherwise the status moves one entry on, and the notice says whether the write succeeded |
| TaskDetail.TaskDetailManager.PreviousStatus | js/task-detail-manager.js:179-187 | at the first entry, outside the workflow or without a task nothing changes; otherwise the status moves one entry back, and the notice says whether the write succeeded |
| TaskDetail.TaskDetailManager.HandleCreateSubtask | js/task-detail-manager.js:277-311 | one fresh subtask id, the trimmed fields, then the save and the link, as `CreateFromDetail` says |
| TaskDetail.TaskDetailManager.SaveAndLink | js/task-detail-manager.js:288-310 | the save and the parent edit, as `CreateFromDetail` says |
| TaskDetail.TaskDetailManager.LinkSaved | js/task-detail-manager.js:296-310 | after the save, the shown task's edit and write, as `LinkFromDetail` says |
| TaskDetail.TaskDetailManager.DeleteSubtask | js/task-detail-manager.js:318-339 | the confirmation, the cascade, then the edit and the write of the shown task, as `DeleteFromDetail` says |
| GridLists.BlankNameUnnamed | js/subtask-grid.js:318 | a row whose name is the empty string has no name |
| GridLists.FilterMembers | js/task-grid.js:226-228 | the kept rows are exactly the rows passing the test |
| GridLists.IdsOf | js/task-grid.js:222-224 | the id of each row, position by position |
| GridLists.FilterAppend | js/task-grid.js:287-304 | filtering keeps list order: filtering a concatenation filters each part |
| GridLists.FilterAll | js/task-grid.js:287-304 | a filter drops nothing exactly when every row passes it; filtering twice is filtering once |
| GridLists.NamedAmongSaved | js/subtask-grid.js:313-319 | the named saved rows are the named rows among the saved ones |
| GridLists.NamedIdsAmongSaved | js/subtask-grid.js:313-319 | each id of a named saved row is among the saved ids |
| GridLists.EmptyQueryKeepsAll | js/task-grid.js:287-304 | the empty query keeps every row |
| GridLists.AppendedRecord | js/task-grid.js:29-49 | a row appended under a fresh id is what a lookup finds, and removing the id restores the list |
| GridLists.CancelKeepsSaved | js/task-grid.js:102-113 | cancelling drops rows only when the edited row is a draft, and then every row with its id and nothing else |
| GridLists.CancelAppendedDraft | js/task-grid.js:102-113 | a draft appended under a fresh id is what cancelling removes |
| GridLists.TallyStep | js/task-grid.js:253-269 | one more saved row raises exactly its own bucket by one; a draft changes nothing |
| GridLists.TallyCounts | js/task-grid.js:253-269 | every bucket ends at its start plus the number of saved rows in it, and the buckets are the start's keys plus those of the saved rows |
| TaskGrid.TaskGrid.constructor | js/task-grid.js:2-8 | no rows and no edited row |
| TaskGrid.TaskGrid.AddNewTask | js/task-grid.js:29-49 | a fresh draft under a new task id is appended and becomes the edited row |
| TaskGrid.TaskGrid.CancelEdit | js/task-grid.js:102-113 | the edited row is dropped only while it is a draft; nothing is edited afterwards |
| TaskGrid.TaskGrid.SaveTask | js/task-grid.js:62-100 | without a row or with a blank name nothing changes; otherwise the row's task is edited in place, sent whole to `updateTask`, and editing ends |
| TaskGrid.TaskGrid.SaveTaskFixed | js/task-grid.js:62-100 | as above, but a former draft is saved as new and `isNew` is not sent |
| TaskGrid.TaskGrid.StoreRow | js/task-grid.js:76-99 | the edit and the write of the row, as `SaveRow` says |
| TaskGrid.TaskGrid.StoreRowFixed | js/task-grid.js:76-99 | the corrected edit and write, as `SaveRowFixed` says |
| TaskGrid.TaskGrid.DeleteTask | js/task-grid.js:115-127 | unconfirmed, nothing changes; confirmed, every row with the id goes and the store is what the cascading delete leaves |
| TaskGrid.TaskGrid.GetAllTasks | js/task-grid.js:226-228 | exactly the saved rows |
| TaskGrid.TaskGrid.GetAllTaskIds | js/task-grid.js:222-224 | the saved rows' ids, in order; every saved row's id is among them |
| TaskGrid.TaskGrid.GetTaskStats | js/task-grid.js:253-269 | the loop's result is the tally of the rows' statuses from the start object |
| TaskGrid.TaskGrid.UpdateTaskStatus | js/task-grid.js:271-285 | the first row with the id gets the status; only a saved row is written to the store |
| TaskGrid.TaskGrid.ImportTasks | js/task-grid.js:338-351 | an array is appended after the rows and reported; anything else changes nothing |
| TaskGrid.TaskGrid.SearchTasks | js/task-grid.js:287-304 | the rows become those whose name and notes mention the query; the old rows are returned for restoring |
| TaskGrid.TaskGrid.FilterByStatus | js/task-grid.js:306-325 | `all` changes nothing; any other status keeps the rows with that status and returns the old rows |
| TaskGrid.TaskGrid.Restore | js/task-grid.js:298-301 | the rows become the saved list again |
| TaskGrid.DraftTaskShape | js/task-grid.js:29-49 | the draft is new, pending, unnamed, without subtasks, under the generated id |
| TaskGrid.AddThenCancel | js/task-grid.js:29-113 | adding a draft and cancelling it leaves the list as before |
| TaskGrid.EditedTaskFields | js/task-grid.js:76-90 | a save stores the inputs, clears `isNew` and keeps every other field |
| TaskGrid.SaveNeverStores | js/task-grid.js:84-95 | the row sent always carries `isNew`, so the update is refused and, in the model, the store is left as it was; a draft is not even found |
| TaskGrid.FixedSaveCreatesDraft | js/task-grid.js:84-95 | with the fix, a draft that conforms to the task schema is appended to the store |
| TaskGrid.FixedSaveSendsNoFlag | js/task-grid.js:84-95 | with the fix, the record sent has no `isNew` and only the row's own and edited fields |
| TaskGrid.TaskStatsCounts | js/task-grid.js:253-269 | `total` counts the saved rows, plus any whose status is literally `total`; every other bucket counts the saved rows with that status |
| TaskGrid.StartBuckets | js/task-grid.js:254-260 | the start object holds `total` and the four statuses at 0 |
| TaskGrid.StatusWriteStores | js/task-grid.js:271-285 | a status write is stored only for a status of the task enum, and the stored task then has it; a failed write changes nothing |
| TaskGrid.ConformingStatus | js/data-manager.js:465-487 | a task the schema accepts has a status from the enum |
| SubtaskGrid.SubtaskData | js/subtask-grid.js:93-104 | the record sent holds exactly the copied fields, `status` among them |
| SubtaskGrid.SaveRejected | js/subtask-grid.js:106-114 | a subtask record carrying `status` is refused by `saveSubtask` and nothing changes |
| SubtaskGrid.UpdateRejected | js/subtask-grid.js:106-114 | a patch carrying `status` is refused by `updateSubtask` and nothing changes |
| SubtaskGrid.StampedTaskRejected | js/subtask-grid.js:207-213 | a task write carrying `updatedAt` is refused and nothing changes |
| SubtaskGrid.StatusIsForeign | js/data-manager.js:416 | `status` is not a subtask field |
| SubtaskGrid.PersistSubtask | js/subtask-grid.js:106-114 | whichever of save and update is tried, the write fails and the store is unchanged |
| SubtaskGrid.UnlinkFromParent | js/subtask-grid.js:204-215 | the open task loses the id from its list and its write is refused; in the model, where the open task is a value, the store is left as it was |
| SubtaskGrid.SubtaskGrid.constructor | js/subtask-grid.js:2-24 | no rows, no edited row, the given parent task |
| SubtaskGrid.SubtaskGrid.AddNewSubtask | js/subtask-grid.js:31-52 | a fresh draft of the parent task under a new subtask id is appended and becomes the edited row |
| SubtaskGrid.SubtaskGrid.CancelEdit | js/subtask-grid.js:184-195 | the edited row is dropped only while it is a draft; nothing is edited afterwards |
| SubtaskGrid.SubtaskGrid.SaveSubtask | js/subtask-grid.js:65-182 | without a row or with a blank name nothing changes; otherwise the row is edited in place, the write fails so the edited row stays, and in the model, where rows are values, the store stays as it was |
| SubtaskGrid.SubtaskGrid.StoreRow | js/subtask-grid.js:76-114 | the edit of the row, the store unchanged in the model (rows are values), and the row stays edited when it exists |
| SubtaskGrid.SubtaskGrid.DeleteSubtask | js/subtask-grid.js:197-219 | unconfirmed, nothing changes; confirmed, the rows with the id go, the store is what the cascade leaves, and the open parent task loses the id after a successful cascade |
| SubtaskGrid.SubtaskGrid.GetAllSubtasks | js/subtask-grid.js:358-360 | exactly the saved rows |
| SubtaskGrid.SubtaskGrid.GetAllSubtaskIds | js/subtask-grid.js:313-315 | the saved rows' ids, in order |
| SubtaskGrid.SubtaskGrid.GetSavedSubtaskIds | js/subtask-grid.js:317-319 | the ids of the named saved rows, one per such row in list order: each is a saved id and belongs to a named saved row, and every named saved row's id is there |
| SubtaskGrid.SubtaskGrid.GetSubtaskStats | js/subtask-grid.js:385-399 | the loop's result is the tally of the rows' statuses from the start object |
| SubtaskGrid.SubtaskGrid.UpdateSubtaskStatus | js/subtask-grid.js:401-415 | the first row with the id gets the status; only a saved row is written |
| SubtaskGrid.SubtaskGrid.SearchSubtasks | js/subtask-grid.js:417-434 | the rows become those whose name and description mention the query; the old rows are returned |
| SubtaskGrid.SubtaskGrid.FilterByStatus | js/subtask-grid.js:436-455 | `all` changes nothing; any other status keeps the rows with that status and returns the old rows |
| SubtaskGrid.SubtaskGrid.Restore | js/subtask-grid.js:428-431 | the rows become the saved list again |
| SubtaskGrid.DraftSubtaskShape | js/subtask-grid.js:31-52 | the draft is new, under the generated id, in the parent task |
| SubtaskGrid.DraftSubtaskEmpty | js/subtask-grid.js:31-52 | the draft starts at `start`, unnamed, with no comments or efforts |
| SubtaskGrid.AddThenCancel | js/subtask-grid.js:31-195 | adding a draft and cancelling it leaves the list as before |
| SubtaskGrid.EditedSubtaskStamps | js/subtask-grid.js:78-91 | `createdAt` is set only for a former draft, `updatedAt` always, `isNew` is cleared, the subtask joins the parent, and unedited fields stay |
| SubtaskGrid.ParentLosesId | js/subtask-grid.js:204-215 | the parent's list loses every occurrence of the id and keeps the other ids |
| SubtaskGrid.SubtaskStatsCounts | js/subtask-grid.js:385-399 | `total` counts the saved rows, plus any whose status is literally `total`; every other bucket counts the saved rows with that status |
| SubtaskGrid.StartBuckets | js/subtask-grid.js:386-390 | the start object holds `total`, `start` and `done`, the last two at 0 |
| FormHandler.ValidateField | js/form-handler.js:32-78 | the pushed messages are the field's errors as `FieldErrors` defines them |
| FormHandler.CheckRules | js/form-handler.js:46-75 | the type and attribute checks push exactly the failing rules' messages, in order |
| FormHandler.RequiredIsNotBlank | js/form-handler.js:4 | the required rule passes exactly for a value that does not trim to nothing |
| FormHandler.MessagesDistinct | js/form-handler.js:38-75 | no two rules share a message, and none is the required message |
| FormHandler.ErrorsNameTheirRules | js/form-handler.js:32-78 | the required message appears exactly for a required blank value, and then alone; an empty optional field has no errors; a rule's message appears exactly when the value is non-empty, the required test passed, and the rule fails |
| FormHandler.RuleMessageIff | js/form-handler.js:46-75 | with distinct messages, a rule's message is pushed exactly when the rule fails |
| FormHandler.LengthBounds | js/form-handler.js:8-9 | for a non-empty value, a length bound passes exactly when it is absent or parses to a number the length meets |
| FormHandler.Reports | js/form-handler.js:17-19 | each field's key and its errors, in document order |
| FormHandler.CollectOnlyFailing | js/form-handler.js:18-26 | each key in the errors object holds the errors of the last failing field with that key |
| FormHandler.CollectReportsFailing | js/form-handler.js:18-26 | every failing field's key is in the errors object |
| FormHandler.ValidateForm | js/form-handler.js:13-30 | the loop builds the collected errors; the form is valid exactly when no field has errors, and exactly when the errors object is empty |
| FormHandler.ValidIffNoErrors | js/form-handler.js:13-30 | every field passes exactly when the collected errors are empty |
| FormHandler.SerializeForm | js/form-handler.js:116-134 | the loop builds the object `Serialized` defines |
| FormHandler.SerializedGroups | js/form-handler.js:116-134 | there is a property exactly for each key in the entries, and it is determined by that key's values alone |
| FormHandler.SerializeShapes | js/form-handler.js:116-134 | a key seen once is a string; seen several times with a non-empty first value, the array of all its values in order; an empty first value is overwritten, not grouped |
| Navigation.NavigateRecordsOrigin | js/navigation.js:45-64 | before `init`, or for the current page without parameters, nothing changes; any other move makes the old page the previous one and records it, the clock and every parameter, parameters winning |
| Navigation.NavigateIdempotent | js/navigation.js:45-64 | moving again to the page just reached without parameters changes nothing |
| Navigation.BackUndoesNavigate | js/navigation.js:77-91 | after a move, going back returns to the page the move left |
| Navigation.TwoBacksReturn | js/navigation.js:77-91 | with a recorded way back, two backs in a row return to the starting page and previous page |
| Navigation.BackWithoutOrigin | js/navigation.js:77-91 | without a recorded way back, a working history leaves the fields alone and a throwing one goes home |
| Navigation.BackTextNamesPage | js/navigation.js:93-109 | the button names the previous page exactly when it is one of the six named pages, with different texts for different pages |
| Navigation.Navigation.constructor | js/navigation.js:2-16 | home, no previous page, empty context, not initialized |
| Navigation.Navigation.Init | js/navigation.js:18-31 | with the content area the navigator becomes ready; without it nothing changes |
| Navigation.Navigation.NavigateTo | js/navigation.js:45-64 | the fields become what `Navigate` gives |
| Navigation.Navigation.NavigateBack | js/navigation.js:77-91 | the fields become what `Back` gives |
| Navigation.Navigation.GetBackButtonText | js/navigation.js:93-109 | the generic text exactly when the previous page is not a named page; otherwise `← Back to` and its name |

## Left out

- Record aliasing is not modelled. Records are values, so the grids' rows and the objects
  `getTask` returns are not shared with the cache's records. In JavaScript `getData` copies
  only the array (js/data-manager.js:332), so `getTask`, `getTasksByIds` and
  `getSubtasksByIds` hand out the cache's own records. `updateTaskStatus` (task detail page)
  and `saveTask` (task grid) edit such a record in place before their write is refused.
  Those edits stay in the cache and reach the tasks file on the next successful save of
  that collection; after that, every update of that task is refused for its `updatedAt` or
  `isNew`. The model does not capture this: where it says a refused write leaves the store
  as it was, that holds for the model's value records only.
- DataLayer.DataManager.StripRefs, DeleteSubtask, DeleteTask and DeleteIdea state only that
  the warning log grows at its end. Which relationship warnings their updates log is not
  modelled.
- Schema.Extras is a set, so the order of the unknown-field names in the `Unknown fields`
  message, which JavaScript joins in key order, is not modelled.
- Counters are unbounded. JavaScript numbers lose integer precision past 2^53, so a counter
  that large would stop producing new ids there; the model leaves this out.
- Deleting an idea or an event leaves projects' `ideaId` and `eventId` lists naming it, as the
  code does; relationship validation only warns about such ids. The model proves nothing
  about these lists across a delete.
- Object-prototype keys are not modelled: keys such as `constructor` or `__proto__` in the
  statistics buckets, in `serializeForm`'s object, in the page-name table or in the
  server's type table. Every map here behaves as a plain dictionary.
- JSON values inside a collection are all records. An array element that is not an object
  is not modelled.
- Reference fields that are strings rather than arrays count as holding no references.
  JavaScript would test them by substring, and the cascades' `for…of` loops over a string
  (js/data-manager.js:626 and 680) would visit its characters and delete records whose ids
  are one character long.
- SubtaskGrid.SubtaskGrid.GetSavedSubtaskIds assumes names are strings. A truthy non-string
  name, on which `trim` throws, is treated as unnamed.
- Text.Lower folds only ASCII letters, because full Unicode case mapping is out of scope.
- String lengths in the length rules count characters, not UTF-16 code units.
- `FormData` file values are not modelled. Entries are pairs of strings.
- The form handler's error-element management is left out, because it only touches the
  DOM: `showFieldError`, `clearFieldError`, `clearAllErrors`. So are `populateForm`,
  `resetForm`, `addRealTimeValidation`, `setupFormSubmission`, `formatFormData` and
  `createFormField`.
- The navigator's retry of `navigateTo` through `setTimeout` before `init` is left out.
  Before `init`, a move changes nothing.
- The `DOMContentLoaded` timing is left out. `Init` is a separate step.
- `loadPage`, `updateActiveLink`, `bindEvents` and the page renderers are left out, because
  they are DOM work.
- The relationship warning's console output is reduced to the logged warning value.
- Data files are persisted through an abstract write that always succeeds. The model
  leaves out the persistence channels and their one-way fallback: fetch to the server,
  file download, copying to the clipboard, and localStorage. It also leaves out server
  write failures (a 500 after a failed `fs.writeFile`).
- Dates are not modelled: parsing is a parameter, timestamps are strings passed in, and
  the upcoming and overdue derivations of `getStatistics` are out. So are the idea
  completion percentages, which need floating point.
- Left out from the data manager: `exportAllData`, `importAllData`, `clearAllData`,
  `migrateFromLocalStorage`, `getStatistics` (beyond the task and subtask reducers),
  `getTasksByIds` and `getSubtasksByIds`. They are bulk I/O or read-only filters outside
  the write path.
- Left out from the id generator: `generateUniqueId`, which uses the clock and randomness,
  and `loadCounters`/`saveCounters`, which use localStorage. Counters start at 1.
- Left out from the grids: `loadTasks`, `loadSubtasks`, `clearAllTasks`,
  `clearAllSubtasks`, `editTask`, `editSubtask` and `exportTasks`, along with the row
  renderers. They load through I/O or only render.
- In `saveSubtask`, linking the saved subtask to its parent task (lines 116-170) can never
  run, because every earlier write fails. It is left out.
- The subtask detail manager, the template manager, the task manager and the application
  bootstrap are not part of this model.
- Concurrency is left out. All calls run one after another, as the single-client design
  assumes.

## Findings

| source | as written | input that shows it | evidently intended | confidence | as-written member | corrected member |
|---|---|---|---|---|---|---|
| js/task-grid.js:84-95 | `saveTask` sets `isNew` to false before it tests `isNew`, so it always calls `updateTask`. It also sends the whole row, `isNew` included, which is not a task field. | Add a task row, type a name, save. The draft is not in the store, so the update is not-found. A saved row's update is refused because `isNew` is an unknown field. Either way the write fails, and no draft is ever added. | Test whether the row was new before clearing the flag, then save a new row and update an old one. Send only the task fields, as `saveSubtask` in js/subtask-grid.js does with `wasNew` and its copied data. | not executed | TaskGrid.TaskGrid.SaveTask, TaskGrid.SaveNeverStores | TaskGrid.TaskGrid.SaveTaskFixed, TaskGrid.FixedSaveCreatesDraft, TaskGrid.FixedSaveSendsNoFlag |
