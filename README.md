# Mail store reconciliation and remaining-time formatting

This project models two parts of a web mail client's front end:

- The mail store reducer. It keeps two caches and reconciles them whenever the server answers or pushes messages:
  - a **message map**: message id → message record;
  - a **folder map**: folder name → the cached first page of that folder. A page holds the ordered list of message ids, the server's total count, a dirty flag, a not-first-page flag and an offset.
- The `remainingTime` pipe. It renders a number of seconds (or hours) as `HH:MM`, `1day HH:MM` or `<n>days HH:MM`, or as `progress` when the count is negative.

Modules, in dependency order:

- `Collections` (collections.dfy): `Option`, duplicate-free sequences, the filters `Without`/`Within`, and `Truncate` (JavaScript `slice(0, limit)`).
- `MailModel` (mail_model.dfy): the records:
  - `Folder`, `Mail`, `ChildrenInfo` (the thread summary `children_folder_info`) and `FolderInfo` (`FolderState`);
  - the counters are `nat` and are floored at zero by `ClampedSub`.
- `MailMerge` (mail_merge.dfy): `updateMailMap`, `filterAndMergeMailIDs` and `getUpdatesFolderMap`.
  - The id merge is a function (`MergeIds`) with the source's loops as methods proved equal to it.
  - It is the merge of a batch into a cached page: de-duplication, thread collapsing (a reply is replaced by its cached parent), the page cut, and the merged total.
- `MailSort` (mail_sort.dfy): `sortByDueDateWithID`, a stable sort, newest update first.
- `UnreadCount` (unread_count.dfy): `getTotalUnreadCount` over the counter object's entries, in key order.
- `MailView` (mail_view.dfy): `prepareMails`, the display list with each thread's `thread_count`.
- `MailUpdates` (mail_updates.dfy): the per-record rewrites the reducer cases apply to the message map, and the thread-summary bookkeeping of move, undo and delete.
- `MailFolders` (mail_folders.dfy): one function per reducer case giving the new folder map from the old one, with lemmas stating each case's effect folder by folder.
- `MailReducer` (mail_reducer.dfy): the class `MailStore`, which holds the reducer state.
  - Each modelled action is a method that updates the fields in place.
  - Each method is specified by the functions of the modules above.
  - The source's loops over folders and records are methods with loop invariants.
- `MailScenarios` (mail_scenarios.dfy): worked examples on small concrete states.
- `RemainingTime` (remaining_time.dfy): `transform`, `getTimeRemainingFromHours`, `getFormattedTime` and `padLeft`.
  - The padding loop and the step-by-step decomposition are methods.
  - The rendered string is proved to read back as the days, hours and minutes.

Ids are integers. The comma-separated id lists of the payloads are taken already parsed into `seq<int>`. The current time, for the pipe's date path, is a parameter.

## Model

| member | source | states |
|---|---|---|
| Collections.Truncate | src/app/store/reducers/mail.reducers.ts:100-102 | `slice(0, limit)` gives a prefix of the list of length `min(limit, length)`, and leaves a list within the limit unchanged |
| Collections.Without | src/app/store/reducers/mail.reducers.ts:90 | the filter keeps exactly the ids not excluded and never lengthens the list |
| MailModel.ClampedSub | src/app/store/reducers/mail.reducers.ts:396-399 | the counter decrement is exact when the counter is large enough and 0 otherwise, never below 0 |
| MailMerge.IdsOf | src/app/store/reducers/mail.reducers.ts:260 | the mapped list holds each mail's id at that mail's position |
| MailMerge.UnreadOf | src/app/store/reducers/mail.reducers.ts:84 | the unread filter keeps exactly the batch mails that are not read |
| MailMerge.BatchIds | src/app/store/reducers/mail.reducers.ts:84 | an id is listed iff some batch mail carries it and, with `checkUnread`, is unread |
| MailMerge.BatchMap | src/app/store/reducers/mail.reducers.ts:85-88 | the batch map's keys are exactly the batch ids, each key mapping to a mail with that id |
| MailMerge.BatchMapLatest | src/app/store/reducers/mail.reducers.ts:85-88 | each id maps to the last mail of the batch that carries it |
| MailMerge.BuildBatchMap | src/app/store/reducers/mail.reducers.ts:85-88 | the overwriting loop builds exactly the batch map |
| MailMerge.UpdateMailMap | src/app/store/reducers/mail.reducers.ts:67-76 | the upsert's keys are the old keys plus the batch ids, untouched entries stay as they were, and the map stays keyed by id |
| MailMerge.UpdateMailMapLatest | src/app/store/reducers/mail.reducers.ts:67-76 | after the upsert each batch id maps to the last batch mail carrying it |
| MailMerge.UpdateMailMapIdempotent | src/app/store/reducers/mail.reducers.ts:67-76 | upserting the same batch twice gives the map one upsert gives |
| MailMerge.MergeIds | src/app/store/reducers/mail.reducers.ts:78-106 | with a cached page the merged list is never longer than the limit; with nothing cached it is the batch ids, untruncated |
| MailMerge.CollapseLoop | src/app/store/reducers/mail.reducers.ts:91-98 | the id-substituting map over the batch ids computes thread collapsing over the surviving old ids |
| MailMerge.FilterAndMergeMailIDs | src/app/store/reducers/mail.reducers.ts:78-106 | the step-by-step merge returns the merged list (thread collapsing on) |
| MailMerge.CollapseStep | src/app/store/reducers/mail.reducers.ts:137-142 | one callback call appends exactly one id after those emitted so far and never adds to the old part |
| MailMerge.CollapseThreads | src/app/store/reducers/mail.reducers.ts:135-144 | the callback run over the batch ids emits one id per batch id, after those emitted before, and never adds to the old part |
| MailMerge.Merge | src/app/store/reducers/mail.reducers.ts:124-146 | the merge emits one id per batch id, and what remains of the old part is cached ids not in the batch |
| MailMerge.GetUpdatesFolderMap | src/app/store/reducers/mail.reducers.ts:108-173 | the list is the merged list; with nothing cached the total is the number of batch ids |
| MailMerge.CollapsePositions | src/app/store/reducers/mail.reducers.ts:135-144 | the id emitted for each batch id is its mail's parent exactly when that parent is still in the old part and was not emitted for an earlier batch id, and the batch id itself otherwise |
| MailMerge.CollapseStepPosition | src/app/store/reducers/mail.reducers.ts:137-142 | one callback call appends the mail's parent, removing it from the old part, when the parent is still there, and otherwise appends the mail's own id and leaves the old part as it was |
| MailMerge.CollapseParents | src/app/store/reducers/mail.reducers.ts:135-144 | collapsed parents come from the old part and are emitted among the ids; the old part loses exactly them |
| MailMerge.CollapseStepParents | src/app/store/reducers/mail.reducers.ts:137-142 | one callback call keeps `parentWithChild` disjoint from the old part and within the emitted ids |
| MailMerge.CollapseDistinct | src/app/store/reducers/mail.reducers.ts:135-146 | with duplicate-free, disjoint inputs, collapsing never emits an id twice, old part included |
| MailMerge.CollapseCount | src/app/store/reducers/mail.reducers.ts:135-144 | each collapsed parent moves from the old part to `parentWithChild`, one for one |
| MailMerge.CollapseStepCount | src/app/store/reducers/mail.reducers.ts:137-142 | one callback call moves at most one id to the parents, keeping both lists duplicate-free |
| MailMerge.MergeOrder | src/app/store/reducers/mail.reducers.ts:122-152 | merged list = batch ids, each replaced by its mail's parent exactly when that parent is cached, not itself in the batch and not emitted for an earlier batch id, followed by the cached ids neither re-sent nor collapsed, in cached order, then cut to the limit |
| MailMerge.MergeNoDuplicates | src/app/store/reducers/mail.reducers.ts:124-146 | duplicate-free batch ids and cached ids give a duplicate-free merged list, with or without conversation view |
| MailMerge.MergedTotalTracksRows | src/app/store/reducers/mail.reducers.ts:153-172 | with a duplicate-free cache the new total is the old total plus the change in listed rows (before the cut), floored at 0; with nothing cached it is the number of batch ids |
| MailSort.InsertNewestFirst | src/app/store/reducers/mail.reducers.ts:29-34 | inserting adds exactly the one id |
| MailSort.InsertKeepsOrder | src/app/store/reducers/mail.reducers.ts:29-34 | inserting into a newest-first list keeps it newest first |
| MailSort.SortNewestFirst | src/app/store/reducers/mail.reducers.ts:29-34 | the sort is a permutation of its input |
| MailSort.SortIsNewestFirst | src/app/store/reducers/mail.reducers.ts:29-34 | the sorted list is ordered by `updated` descending, a missing `updated` counting as 0 |
| MailSort.SortIsStable | src/app/store/reducers/mail.reducers.ts:29-34 | ids with an equal timestamp keep their input order |
| MailSort.SortByDueDateWithID | src/app/store/reducers/mail.reducers.ts:21-38 | the result holds exactly the input ids present in the message map (as a multiset) and is newest first |
| MailSort.SortByDueDateIsStable | src/app/store/reducers/mail.reducers.ts:21-38 | among the known ids, those with an equal timestamp keep their input order |
| UnreadCount.GetTotalUnreadCount | src/app/store/reducers/mail.reducers.ts:40-65 | absent data gives 0; otherwise the loop's running total is the sum over the counted keys |
| UnreadCount.UnreadSum | src/app/store/reducers/mail.reducers.ts:42-59 | entries that are all excluded keys or NaN values add up to 0 |
| UnreadCount.UnreadSumAppend | src/app/store/reducers/mail.reducers.ts:42-59 | the total over two runs of keys is the sum of their totals |
| UnreadCount.IgnoredEntry | src/app/store/reducers/mail.reducers.ts:43-58 | an excluded key, or a value for which `Number.isNaN` holds, leaves the total unchanged wherever it sits |
| UnreadCount.TotalIsStable | src/app/store/reducers/mail.reducers.ts:351-365 | storing the total under `total_unread_count` and summing again gives the same total |
| UnreadCount.UnreadSumBounds | src/app/store/reducers/mail.reducers.ts:40-65 | with non-negative counters the total is non-negative and at least every counted value |
| MailView.ThreadCount | src/app/store/reducers/mail.reducers.ts:181-194 | the trash view counts trashed replies, other views the replies outside the trash, plus one when the message lies on the view's side |
| MailView.Prepared | src/app/store/reducers/mail.reducers.ts:181-194 | preparing changes only `thread_count`, and nothing without a thread summary |
| MailView.PrepareList | src/app/store/reducers/mail.reducers.ts:177-199 | one prepared record per listed id the message map knows, in list order, unknown ids skipped |
| MailView.PrepareMails | src/app/store/reducers/mail.reducers.ts:175-203 | an uncached (or no) folder gives an empty list; otherwise the prepared records of its known ids in folder order |
| MailView.PrepareListIds | src/app/store/reducers/mail.reducers.ts:177-199 | the display list shows exactly the known listed ids, in order |
| MailUpdates.ApplyUpdate | src/app/store/reducers/mail.reducers.ts:431-456 | no record rewrite changes a record's id |
| MailUpdates.Rewrite | src/app/store/reducers/mail.reducers.ts:429-457 | the rewrite keeps every key and keeps the map keyed by id |
| MailUpdates.RewriteAll | src/app/store/reducers/mail.reducers.ts:429-457 | the loop over `Object.keys(mailMap)` rewrites every record once |
| MailUpdates.MoveRecords | src/app/store/reducers/mail.reducers.ts:431-456 | listed records take the target folder; a parent moved to the trash with children has all of them trashed; a parent moved out of the trash has none trashed; unlisted records are untouched |
| MailUpdates.MoveToTrashAndBack | src/app/store/reducers/mail.reducers.ts:434-455 | moving a parent into the trash and back out leaves all its children counted outside the trash |
| MailUpdates.FlagRecords | src/app/store/reducers/mail.reducers.ts:587-654 | read and star rewrite only the listed keys and only their flags; `has_starred_children` is `!(!starred && withChildren)` |
| MailUpdates.AdoptRecords | src/app/store/reducers/mail.reducers.ts:972-990 | adopting a reply adds one to the parent's child counter and to its count outside the trash; nothing else changes |
| MailUpdates.MovedMails | src/app/store/reducers/mail.reducers.ts:406-408 | the records of the listed ids the map knows, in list order |
| MailUpdates.TrashOne | src/app/store/reducers/mail.reducers.ts:461-473 | one reply moved to the trash changes no entry but its parent's; a cached parent with a summary counts one more reply in the trash and one fewer outside, floored at 0; the keys are kept |
| MailUpdates.TrashLoneChildren | src/app/store/reducers/mail.reducers.ts:460-474 | the loop over the moved records keeps the keys |
| MailUpdates.TrashLoneChildrenCount | src/app/store/reducers/mail.reducers.ts:460-474 | moving to the trash shifts each summarised parent once per moved reply naming it, its outside count floored at 0; other moves change nothing |
| MailUpdates.TrashLoneChildrenKeyed | src/app/store/reducers/mail.reducers.ts:460-474 | the reply bookkeeping keeps the map keyed by id |
| MailUpdates.RestoreOne | src/app/store/reducers/mail.reducers.ts:537-549 | one undone message changes no entry but its own; undone back into the trash, a cached parent with children has all of them counted in the trash; the keys are kept |
| MailUpdates.RestoreChildren | src/app/store/reducers/mail.reducers.ts:536-550 | the undo loop keeps the keys |
| MailUpdates.RestoreChildrenEffect | src/app/store/reducers/mail.reducers.ts:536-550 | undoing back into the trash marks every undone parent's children all trashed; nothing else changes |
| MailUpdates.RestoreChildrenKeyed | src/app/store/reducers/mail.reducers.ts:536-550 | the undo bookkeeping keeps the map keyed by id |
| MailUpdates.UndoRestoresTrashedThread | src/app/store/reducers/mail.reducers.ts:536-550 | a fully trashed thread moved out of the trash and then undone is fully trashed again |
| MailUpdates.DraftRepair | src/app/store/reducers/mail.reducers.ts:762-775 | corrected draft repair: the keys are kept and a record without a thread summary is unchanged |
| MailUpdates.DraftRepairAsWritten | src/app/store/reducers/mail.reducers.ts:762-773 | the repair as written, walking every message of the map: the keys are kept and a record without a thread summary is unchanged |
| MailUpdates.DraftRepairOnlyDeletedParents | src/app/store/reducers/mail.reducers.ts:762-775 | a parent none of whose replies was deleted keeps its record; a summarised parent is shifted once per deleted reply |
| MailUpdates.DraftRepairAsWrittenShifts | src/app/store/reducers/mail.reducers.ts:762-775 | as written, every summarised parent is shifted once per reply anywhere in the map |
| MailUpdates.DraftRepairAsWrittenCounterexample | src/app/store/reducers/mail.reducers.ts:762-775 | deleting one of two replies, as written, leaves the parent with both replies counted as trashed |
| MailUpdates.DraftRepairCorrectedExample | src/app/store/reducers/mail.reducers.ts:762-775 | the corrected repair leaves that parent with one reply trashed and one outside |
| MailFolders.FetchFolders | src/app/store/reducers/mail.reducers.ts:253-304 | the folder map after a fetch |
| MailFolders.FetchTarget | src/app/store/reducers/mail.reducers.ts:253-271 | the fetched folder takes the total sent and is clean; a direct fetch lists the batch ids in server order with the page flag sent; a push keeps the cached page flag and a later page's list, and cuts a non-empty cached first page to a non-negative limit |
| MailFolders.MergeSatellite | src/app/store/reducers/mail.reducers.ts:273-304 | a satellite merge changes only the satellite's list and total, and changes nothing unless the batch was pushed for another folder than the satellite and spam |
| MailFolders.SatelliteEffects | src/app/store/reducers/mail.reducers.ts:273-304 | the Unread or All-mails merge touches only that folder, only for a pushed batch not for itself or spam |
| MailFolders.FetchDirect | src/app/store/reducers/mail.reducers.ts:253-271 | a direct fetch installs the batch ids in server order, clean, with the server's total and page flags; nothing else changes |
| MailFolders.FetchPushTarget | src/app/store/reducers/mail.reducers.ts:253-271 | a push merges into the cached first page (within the limit), leaves a later page's list, takes the server total, and changes no other folder than Unread and All-mails |
| MailFolders.FetchPushSatellites | src/app/store/reducers/mail.reducers.ts:273-304 | a push for another folder (not spam) merges into cached Unread (unread mails only) and All-mails |
| MailFolders.FetchIdempotent | src/app/store/reducers/mail.reducers.ts:249-304 | re-applying the same direct fetch changes neither map |
| MailFolders.AfterSource | src/app/store/reducers/mail.reducers.ts:393-401 | the source step keeps the folder keys |
| MailFolders.AfterTarget | src/app/store/reducers/mail.reducers.ts:403-416 | the target step keeps the folder keys |
| MailFolders.MoveTarget | src/app/store/reducers/mail.reducers.ts:403-416 | the target's new list holds exactly the merged ids the message map knows, newest first; only its list and total change |
| MailFolders.MarkOthersDirty | src/app/store/reducers/mail.reducers.ts:418-427 | marking keeps the folder keys |
| MailFolders.MarkDirty | src/app/store/reducers/mail.reducers.ts:418-427 | the loop empties and marks dirty exactly the folders outside the kept set |
| MailFolders.MoveFolders | src/app/store/reducers/mail.reducers.ts:391-427 | a move never adds or drops a folder |
| MailFolders.MoveSource | src/app/store/reducers/mail.reducers.ts:393-401 | the cached source loses every moved id, keeps the rest in order, and its total drops by the number of ids, floored at 0 |
| MailFolders.MoveTargetEffects | src/app/store/reducers/mail.reducers.ts:403-416 | the cached target holds the known moved records merged in, re-sorted newest first, with the merged total |
| MailFolders.MoveOthers | src/app/store/reducers/mail.reducers.ts:418-427 | every other cached folder but the current one is emptied and marked dirty; the current one is untouched |
| MailFolders.MovedMailEffects | src/app/store/reducers/mail.reducers.ts:429-474 | each moved record takes the target folder; the map stays keyed by id; outside a move to the trash, unmoved records are untouched |
| MailFolders.MovedMailMap | src/app/store/reducers/mail.reducers.ts:429-474 | the message map after a move keeps its keys and stays keyed by id; outside a move to the trash it is the record rewrite alone |
| MailFolders.UndoFolders | src/app/store/reducers/mail.reducers.ts:521-534 | an undo never adds or drops a folder |
| MailFolders.UndoFolderEffects | src/app/store/reducers/mail.reducers.ts:521-534 | the original folder gets the merged list re-sorted newest first as a clean first page; the folder moved from is emptied and dirty; nothing else changes |
| MailFolders.RemoveListed | src/app/store/reducers/mail.reducers.ts:604-611 | the counting filter keeps the unlisted ids (when active) and counts exactly what it drops |
| MailFolders.Listed | src/app/store/reducers/mail.reducers.ts:603-619 | the current folder keeps exactly its ids not listed (all of them when the change does not remove), only its list and total change, and the total never grows |
| MailFolders.ListedFolder | src/app/store/reducers/mail.reducers.ts:594-620 | read and star never add or drop a folder |
| MailFolders.ListedFolderEffects | src/app/store/reducers/mail.reducers.ts:594-620 | a non-current Unread/Starred folder is only marked dirty; the current one loses the listed ids and its total drops by their number, floored at 0; no other folder changes |
| MailFolders.DeleteFrom | src/app/store/reducers/mail.reducers.ts:750-756 | one folder's cleanup keeps the keys |
| MailFolders.Deleted | src/app/store/reducers/mail.reducers.ts:750-755 | a cleaned folder keeps exactly its ids not deleted, is marked dirty, and its total drops by 1, floored at 0 |
| MailFolders.DeleteAll | src/app/store/reducers/mail.reducers.ts:749-757 | the cleanup loop keeps the keys |
| MailFolders.DeleteAllEffects | src/app/store/reducers/mail.reducers.ts:749-757 | each listed cached folder is cleaned once; the others are untouched |
| MailFolders.DeleteEffects | src/app/store/reducers/mail.reducers.ts:747-757 | cached drafts, trash and spam lose the ids, are marked dirty, and drop exactly 1 from their total (floored at 0) however many ids were deleted; no other folder changes |
| MailFolders.UpsertFolders | src/app/store/reducers/mail.reducers.ts:992-997 | storing a message never adds or drops a folder |
| MailFolders.UpsertMailMap | src/app/store/reducers/mail.reducers.ts:971-991 | the message is stored under its id and the map stays keyed by id |
| MailFolders.ReplyGrowsThread | src/app/store/reducers/mail.reducers.ts:972-990 | a new reply to a cached parent outside the trash adds one child and one to the thread count shown outside the trash |
| MailFolders.NewMailOnTop | src/app/store/reducers/mail.reducers.ts:992-997 | a new message not continuing a cached thread goes on top of the page (cut to the limit) and adds one to the total |
| MailFolders.ReplyMovesThreadUp | src/app/store/reducers/mail.reducers.ts:992-997 | a new reply to a thread on the page moves that thread to the top and leaves the total unchanged |
| MailFolders.SingleMerge | src/app/store/reducers/mail.reducers.ts:122-146 | merging one new message: absent from the cache, it either collapses into its cached parent or goes in front |
| MailFolders.EmptyFolders | src/app/store/reducers/mail.reducers.ts:1016-1021 | emptying drops exactly that folder's entry |
| MailReducer.FetchFolderMap | src/app/store/reducers/mail.reducers.ts:253-304 | the fetch case's folder steps compute `FetchFolders` |
| MailReducer.MoveFolderMap | src/app/store/reducers/mail.reducers.ts:391-427 | the move case's folder steps compute `MoveFolders` |
| MailReducer.TrashIncomes | src/app/store/reducers/mail.reducers.ts:460-474 | the `forEach` over the moved records computes the reply bookkeeping |
| MailReducer.RestoreAll | src/app/store/reducers/mail.reducers.ts:536-550 | the `forEach` over the undone records computes the undo bookkeeping |
| MailReducer.UpsertMail | src/app/store/reducers/mail.reducers.ts:971-991 | the upsert and adoption loop compute `UpsertMailMap` |
| MailReducer.ListCurrent | src/app/store/reducers/mail.reducers.ts:603-619 | the counting filter and the floored decrement give the current folder's new state |
| MailReducer.ListFolderMap | src/app/store/reducers/mail.reducers.ts:594-620 | the read/star folder steps compute `ListedFolder` |
| MailReducer.DeleteFromTargets | src/app/store/reducers/mail.reducers.ts:748-757 | the loop over drafts, trash and spam computes `DeleteAll` |
| MailReducer.MailStore.constructor | src/app/store/reducers/mail.reducers.ts:210-229 | the initial state: empty maps, no folder, page limit 20, not loaded |
| MailReducer.MailStore.ShowCurrent | src/app/store/reducers/mail.reducers.ts:475-477 | the display list and total are recomputed from the maps; nothing else changes |
| MailReducer.MailStore.ShowView | src/app/store/reducers/mail.reducers.ts:475 | the display list is `prepareMails` of the current folder |
| MailReducer.MailStore.ShowTotal | src/app/store/reducers/mail.reducers.ts:476-477 | the shown total is the current folder's cached total, or 0 |
| MailReducer.MailStore.GetMailsSuccess | src/app/store/reducers/mail.reducers.ts:249-326 | the fetch upserts the batch, updates the folders, refreshes the view, takes the page limit, sets loaded and keeps the map keyed by id |
| MailReducer.MailStore.MoveMail | src/app/store/reducers/mail.reducers.ts:378-380 | a move is in progress and not yet done; nothing else changes |
| MailReducer.MailStore.RevertMailsMoved | src/app/store/reducers/mail.reducers.ts:382-384 | only the moved flag is cleared |
| MailReducer.MailStore.MoveMailSuccess | src/app/store/reducers/mail.reducers.ts:386-514 | the move's folder and message-map effects, the refreshed view, and the moved flag |
| MailReducer.MailStore.UndoDeleteMailSuccess | src/app/store/reducers/mail.reducers.ts:516-581 | the undo's folder and summary effects; the view refreshed only when the original folder is current |
| MailReducer.MailStore.ReadMailSuccess | src/app/store/reducers/mail.reducers.ts:583-637 | read flags rewritten, the Unread folder updated, the view refreshed |
| MailReducer.MailStore.StarMailSuccess | src/app/store/reducers/mail.reducers.ts:639-741 | star flags rewritten, the Starred folder updated (unstarring removes), the view refreshed |
| MailReducer.MailStore.DeleteMailSuccess | src/app/store/reducers/mail.reducers.ts:743-796 | drafts, trash and spam cleaned; a draft delete applies the corrected repair (`DraftRepair`, see Findings) to the deleted replies' parents rather than the walk over every message; the view refreshed |
| MailReducer.MailStore.UpdateCurrentFolder | src/app/store/reducers/mail.reducers.ts:966-1010 | the message stored and its folder merged; the total refreshed only when a folder is current |
| MailReducer.MailStore.EmptyFolderSuccess | src/app/store/reducers/mail.reducers.ts:1016-1021 | the folder's entry dropped and the display list cleared |
| MailReducer.MailStore.EmptyOnlyFolder | src/app/store/reducers/mail.reducers.ts:1031-1036 | the folder's entry dropped, the display list kept |
| MailReducer.MailStore.SetCurrentFolder | src/app/store/reducers/mail.reducers.ts:912-934 | the folder becomes current, every mark is cleared (the shown records too), and the view and total are that folder's |
| MailScenarios.NewMessageScenario | src/app/store/reducers/mail.reducers.ts:992-997 | page [5,4,3] of 10 with limit 3 and a new message 6 becomes [6,5,4] of 11 |
| MailScenarios.ReplyScenario | src/app/store/reducers/mail.reducers.ts:992-997 | a reply 7 to the cached 5 leaves [5,4,3] of 10 as it is |
| MailScenarios.DeleteDraftScenario | src/app/store/reducers/mail.reducers.ts:747-757 | deleting 4 from drafts [5,4,3] of 10 gives [5,3] of 9, dirty |
| MailScenarios.ReadScenario | src/app/store/reducers/mail.reducers.ts:594-620 | reading 3 in the current Unread [5,4,3] of 3 gives [5,4] of 2; with Inbox current Unread is only marked dirty |
| RemainingTime.Digit | src/app/shared/pipes/remaining-time.pipe.ts:48 | the character is the decimal digit of its value |
| RemainingTime.Decimal | src/app/shared/pipes/remaining-time.pipe.ts:48 | `${number}` is a non-empty string of digits, one digit exactly below 10, two from 10 to 99 |
| RemainingTime.DecimalRoundTrip | src/app/shared/pipes/remaining-time.pipe.ts:48 | the digits read back as the number |
| RemainingTime.DecimalCanonical | src/app/shared/pipes/remaining-time.pipe.ts:48 | the digits start with '0' exactly for 0 |
| RemainingTime.PadLeft | src/app/shared/pipes/remaining-time.pipe.ts:47-53 | the `while` loop grows the string to the padded form |
| RemainingTime.Padded | src/app/shared/pipes/remaining-time.pipe.ts:47-53 | the padded number is all digits and at least as long as the size and as the number's digits |
| RemainingTime.PaddedShape | src/app/shared/pipes/remaining-time.pipe.ts:47-53 | padding is as long as the size or the digits, whichever is longer: zeros, then the digits; a long number is unchanged |
| RemainingTime.PaddedValue | src/app/shared/pipes/remaining-time.pipe.ts:47-53 | a padded number is all digits and still denotes the number |
| RemainingTime.TwoDigits | src/app/shared/pipes/remaining-time.pipe.ts:44 | a field below 100 pads to exactly two characters |
| RemainingTime.Decompose | src/app/shared/pipes/remaining-time.pipe.ts:38-42 | hours are 0..23 and minutes 0..59, and the parts account for the seconds to within one minute |
| RemainingTime.FormattedTime | src/app/shared/pipes/remaining-time.pipe.ts:34-45 | a negative count renders as 'progress'; any other count renders with a ':' third from the end; the result is never shorter than five characters |
| RemainingTime.GetFormattedTime | src/app/shared/pipes/remaining-time.pipe.ts:34-45 | the step-by-step method returns the formatted time |
| RemainingTime.ProgressIffNegative | src/app/shared/pipes/remaining-time.pipe.ts:35-37 | the output is 'progress' if and only if the count is negative |
| RemainingTime.FormatLayout | src/app/shared/pipes/remaining-time.pipe.ts:44 | `HH:MM` below a day, `1day HH:MM` for one day, `<n>days HH:MM` beyond |
| RemainingTime.ClockReadsBack | src/app/shared/pipes/remaining-time.pipe.ts:44 | the last five characters are digits, a ':' and digits reading back as the hours and minutes |
| RemainingTime.FormatReadsBack | src/app/shared/pipes/remaining-time.pipe.ts:38-44 | the rendered string reads back as the decomposition's hours, minutes and day count |
| RemainingTime.TimeRemainingFromHours | src/app/shared/pipes/remaining-time.pipe.ts:20-23 | the hours render as 'progress' exactly when they are negative, and are never shorter than five characters |
| RemainingTime.Transform | src/app/shared/pipes/remaining-time.pipe.ts:8-18 | the output is empty exactly for a falsy value; otherwise it is 'progress' exactly when the hours (hours-only) or the seconds to the date are negative |
| RemainingTime.HoursOnly | src/app/shared/pipes/remaining-time.pipe.ts:8-23 | positive hours show whole days and the remaining hours with minutes 00; negative hours show 'progress'; zero or no value shows '' |

## Left out

- Message detail bookkeeping (`mailDetail` and its `children` in the move, undo, star and delete cases): every case is modelled for a store with no open detail view.
- PGP decryption, attachments and decrypted subjects (`UPDATE_PGP_DECRYPTED_CONTENT`, `SET_ATTACHMENTS_FOR_PGP_MIME`, `GET_MAIL_DETAIL_SUCCESS`, `transformFilename`, the subject copy in the fetch and folder cases): they copy opaque content that comes from code not part of this model.
- `receiver_list`: a display string joined from the receivers; it holds no state the reconciliation reads.
- The reducer cases outside the reconciliation core (composer, tabs, contacts and the other flag-only cases): each only sets flags.
- `noUnreadCountChange`, `loaded` on `GET_MAILS` and the other view flags beyond `loaded`, `inProgress` and `isMailsMoved`: flags with no effect on the two maps.
- Aliasing between the display list and the stored records: the source writes `thread_count` into the stored records while preparing, and clears `marked` on records the list shares. The model keeps values: the stored records do not carry the last view's `thread_count`, and `SetCurrentFolder` shows the cleared marks directly.
- Folder names and ids as strings: folders are a datatype; ids are integers compared directly rather than through `toString()`.
- The truthiness of id 0 and of absent fields: a parent is `Some` or `None`, a missing `updated` is 0, absent counters are 0, and `withChildren` is a boolean. In the move case it stands for `withChildren !== false`, so an absent flag counts as true. In the star case it stands for the flag's truthiness, so an absent flag counts as false.
- The folder names the unread count skips (`sent`, `trash`, `draft`, `outbox`, `spam` and `starred`) stand for `MailFolderType` values. The `MailFolderType` enum is not part of this model, so these strings are taken to be its values.
- Counter values that are neither numbers nor NaN (strings, objects): the unread count takes each value as a number or as NaN.
- MailReducer.MailStore.ReadMailSuccess: when Unread is current but not cached, the source dereferences a missing folder state and throws; the model requires that folder to be cached.
- MailReducer.MailStore.StarMailSuccess: when Starred is current but not cached, the source throws likewise; the model requires that folder to be cached.
- MailReducer.MailStore.DeleteMailSuccess: on a delete from drafts it applies the corrected thread repair of the Findings table, not the code as written. The source walks every message of the map and shifts the parent of each reply, deleted or not. On the Findings input the source gives parent 1 (2 trashed, 0 outside) and the model gives (1, 1). The code as written is `MailUpdates.DraftRepairAsWritten`.
- MailReducer.MailStore.UndoDeleteMailSuccess: like the source, the undo does not reset the undone messages' `folder` field in the message map.
- MailReducer.MailStore.UpdateCurrentFolder: the push that brings a new message is taken as one message at a time, as the case receives it; the socket service is not part of this model.
- Fractional seconds and hours in the pipe: the model works on whole numbers; `padLeft` of a fractional field and floating-point `Math.floor` are not modelled.
- `getTimeRemaining` and the clock: the distance from now to the date, computed with moment-timezone, is a parameter.
- `getFormattedTime`'s last `seconds -= hrs * 3600` subtracts the hours a second time; the variable is never read again, so the model repeats it without effect.

## Findings

| source | as written | input that shows it | evidently intended | confidence | as-written member | corrected member |
|---|---|---|---|---|---|---|
| src/app/store/reducers/mail.reducers.ts:762-775 | on deleting drafts, the thread repair walks every message of the map (`Object.values(mailMap)`) and shifts the parent of each one, not only of the deleted drafts | parent 1 with summary (0 trashed, 2 outside) and replies 2 (inbox) and 3 (draft); deleting draft 3 shifts parent 1 twice, to (2, 0) | shift the parent of each deleted draft once per deleted reply, giving (1, 1) | not executed | MailUpdates.DraftRepairAsWrittenCounterexample | MailUpdates.DraftRepairCorrectedExample |
