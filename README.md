# Download-manager list bookkeeping

This project models the core of the download manager's list, from
`windows/manager/table.ts`, and proves its properties in Dafny. The model covers four parts.

- **The records (`DownloadItem`).** Each record is updated in place by the background's snapshots.
  - `updateDownload` refuses a snapshot whose position disagrees with the record's and asks for a full resync. Otherwise it copies the fields that are present.
  - On a state change it clears the sample log and reports the change to the table.
  - `adoptSize` clamps the byte counts.
  - `updateStats` takes one throughput sample.
- **The table (`DownloadTable`).** The table keeps the `sids` identity map, the `running` set, the `finished` count and the sampling timer. Its operations are:
  - `updatedState`, `updateItems`, `setItems` and `removedItems`;
  - `updatedDownload`;
  - `updateRunning`, with its global log of per-tick sums.
- **Actions.** `selectionChanged` ORs the selected states and tests the result against the capability masks. `getSelectedSids` filters the selection by a mask. The resume, pause and cancel actions post only a non-empty list. The open-file and open-directory actions are guarded by the focused row.
- **Display and removal.** `percent` and `getCellProgress` compute the progress column. The bulk removals choose records by state, domain, batch or filter, and a filter menu entry's id is parsed back to its filter.

How the model is built:
- Code that changes state is imperative Dafny.
  - `DownloadItem` and `DownloadTable` are classes. They carry the fields the core reads or updates; the fields it only displays are left out (see Left out).
  - The JavaScript `Set` of running records is a duplicate-free `seq`, in insertion order.
  - The identity map is a `map`.
  - The port to the background is a `Port` object whose `sent` log records every posted message.
- Each method is proved against a value-level specification.
  - The registry is specified by `Registry` and `Transition` (module `Bookkeeping`), and sampling by `Sampler` and `Sample` (module `Sampling`).
  - The read-only rules are functions over `ItemView` values: `Eligibility`, `Display` and `Removal`.
- The table's invariant `Valid()` says the registry agrees with the records:
  - `finished` is the number of DONE records;
  - `running` holds each RUNNING record once and nothing else;
  - the timer is on when something runs;
  - `sids` maps exactly the listed session ids to their records.
- **States.** They are distinct single-bit `bv32` flags (module `DownloadStates`). The module that fixes their values is not part of this model.
- **Capability masks.** RESUMABLE, PAUSABLE, CANCELABLE and FORCABLE are left abstract in a `Masks` value, and every property holds for all masks.
- **Inputs.** The results of asynchronous calls are parameters:
  - `downloads.search` is a `SearchOutcome`;
  - `downloads.open` and `downloads.show` are a success flag;
  - a removal dialog is a `confirmed` flag;
  - the registered filters are a `map` from id to `Filter`.
- **Opaque functions.** The average of a sample log (`avgOf`) and a URL's domain (`domainOf`) are fixed when the table is created.

Where the code and its description differ, the model follows the code:
- **Open file.** It needs only the focused row to be a DONE record with a manager id. A multi-row selection does not disable it.
- **Failed search.** A search that fails, or a record without a manager id, adds a sample of 0. The tick then returns the new average rather than a sentinel.
- **After the await.** The sampler does not re-check the record's state once the search settles.
- **State change.** A state change clears the sample log but leaves `lastWritten` as it was.
- **`removedItems`.** It never stops the timer, even when the last running record goes.
- **`setItems`.** It never stops the timer: afterwards the timer is on exactly when it was on before or a new record is RUNNING. It also keeps `finished` (see Findings).
- **Force.** The force action is enabled by the FORCABLE mask, but `resumeDownloads(forced)` selects records by RESUMABLE.

## Model

| member | source | states |
|---|---|---|
| Sampling.Max0 | windows/manager/table.ts:233-234 | `Math.max(0, x)` is at least 0 and at least `x`, and is one of the two |
| Sampling.AdoptedSize | windows/manager/table.ts:227-235 | `written` becomes max(0, bytesReceived). `totalSize` becomes `fileSize` when that is not negative, otherwise max(0, totalBytes). Both are never negative |
| Sampling.AdoptIdempotent | windows/manager/table.ts:227-235 | adopting the sizes that adoption produced gives the same sizes back |
| Sampling.Sample | windows/manager/table.ts:237-262 | A record that is not RUNNING is untouched and yields -1. A tick that adds no sample yields -1 and keeps the log. A tick that samples appends one non-negative sample and yields the new average. `lastWritten` stays non-negative |
| Sampling.FirstSamplePrimes | windows/manager/table.ts:241-248 | with a zero `lastWritten` the tick adopts the sizes, sets `lastWritten` to the written bytes, adds nothing and yields -1 |
| Sampling.LaterSampleAddsDelta | windows/manager/table.ts:241-253 | otherwise the sample added is max(0, written - lastWritten), and `lastWritten` becomes the clamped written bytes |
| Sampling.FailedSearchAddsZero | windows/manager/table.ts:240-261 | a failed search or a missing manager id adds a sample of 0 and yields the average |
| Sampling.SamplesAddUp | windows/manager/table.ts:237-262 | over reports that never shrink, the samples added sum exactly to the growth of `lastWritten`, and the older log is kept as a prefix |
| Sampling.TotalAppend | windows/manager/table.ts:557-562 | the running sum of `updateRunning` grows by a value exactly when the value is not negative |
| Sampling.TotalSkipsSentinel | windows/manager/table.ts:558-561 | a tick that yields -1 leaves the sum unchanged |
| Bookkeeping.Without | windows/manager/table.ts:930 | `Set.delete` removes exactly the element and keeps the set free of duplicates |
| Bookkeeping.With | windows/manager/table.ts:943 | `Set.add` adds exactly the element, keeps the set free of duplicates, and appends when it is new |
| Bookkeeping.TransitionKeepsConsistent | windows/manager/table.ts:926-959 | a state change whose old state is right keeps the registry consistent with the records |
| Bookkeeping.AdmitKeepsConsistent | windows/manager/table.ts:125-133 | a new record, reported with an undefined old state, keeps the registry consistent with the records plus that record |
| Bookkeeping.TransitionKeepsTimerExact | windows/manager/table.ts:926-959 | transitions keep the timer on exactly while something runs |
| Bookkeeping.EvictKeepsConsistent | windows/manager/table.ts:962-976 | dropping one record keeps the registry consistent with the remaining records |
| Bookkeeping.EvictLeavesTimerOn | windows/manager/table.ts:962-976 | removing the last running record leaves the timer on, so the timer no longer says whether anything runs |
| Bookkeeping.ResyncCountsTwice | windows/manager/table.ts:602-612 | a resync that keeps `finished` counts a re-sent DONE record twice: 2 against one DONE record |
| Bookkeeping.ResyncFromZero | windows/manager/table.ts:602-612 | the same resync starting the count from zero accounts for the record correctly |
| Eligibility.SelectedRows | windows/manager/table.ts:614-617 | the selected records are at most as many as the selection, and exactly as many when every selected row is in the view |
| Eligibility.SelectedRowsExact | windows/manager/table.ts:614-617 | a record is among the selected ones exactly when some selected row in the view holds it |
| Eligibility.OrStatesExact | windows/manager/table.ts:643 | the OR of the selected states meets a mask exactly when some selected record's state does |
| Eligibility.SidsAllowedExact | windows/manager/table.ts:619-625 | the filtered ids hold exactly the ids of records whose state meets the allowed mask |
| Eligibility.SidsAllowedNonEmpty | windows/manager/table.ts:667-689 | something is posted exactly when the OR of the selected states meets the mask |
| Eligibility.SelectedSidsExact | windows/manager/table.ts:619-625 | `getSelectedSids(m)` holds an id exactly when a selected row in the view holds a record with that id whose state meets `m` |
| Eligibility.SelectionIdsExact | windows/manager/table.ts:725-731 | the ids collected from the selection are exactly those of the selected rows in the view |
| Eligibility.DisableSetCoversAll | windows/manager/table.ts:486-497 | the disable set holds every one of the ten actions |
| Eligibility.BulkActionEligibility | windows/manager/table.ts:627-657 | resume, force, pause and cancel are enabled exactly when the selection is not empty and some selected record's state is in the action's mask |
| Eligibility.EnabledExactlyWhenSomethingToPost | windows/manager/table.ts:627-689 | resume, pause and cancel are enabled exactly when invoking them would post a non-empty list |
| Eligibility.MovesFollowSelection | windows/manager/table.ts:627-640 | the move actions are disabled exactly when the selection is empty |
| Eligibility.OpenActionsFollowFocus | windows/manager/table.ts:659-664 | open file and open directory are enabled exactly when the selection is not empty and the focused record passes that action's guard |
| Eligibility.MixedSelection | windows/manager/table.ts:627-664 | For a QUEUED and a DONE record selected together, one eligible record enables resume and cancel. Open file follows the focus alone. Only the QUEUED id is resumed |
| Display.Percent | windows/manager/table.ts:148-156 | 1 for DONE, 0 for an unknown total, otherwise `written / totalSize`; within [0, 1] for sizes that make sense |
| Display.ProgressFollowsPercent | windows/manager/table.ts:1049-1061 | QUEUED shows the percentage. RUNNING and PAUSED show it unless it is zero |
| Display.ProgressFull | windows/manager/table.ts:1063-1070 | FINISHING, DONE and CANCELED draw a full bar |
| Display.ProgressInRange | windows/manager/table.ts:1049-1076 | a row shows either the indeterminate bar or a fraction in [0, 1] |
| Display.ProgressIndeterminate | windows/manager/table.ts:1049-1076 | the bar is indeterminate exactly for a missing row, an undrawn state, or a RUNNING or PAUSED record with nothing to show |
| Display.ProgressExamples | windows/manager/table.ts:1049-1076 | a half-written QUEUED record shows 0.5; a fresh RUNNING one and a MISSING one show -1 |
| Removal.SidsWhereEmpty | windows/manager/table.ts:746-748 | nothing is chosen exactly when no record passes the test |
| Removal.ByState | windows/manager/table.ts:738-750 | An id is chosen exactly when its record is in exactly `state`. With `selectionOnly`, the record must also be a filtered row at a selected position |
| Removal.SelectedByStateExact | windows/manager/table.ts:739-745 | over the filtered view, removal from the selection chooses exactly the records in `state` at selected rows |
| Removal.ByDomain | windows/manager/table.ts:816-822 | an id is chosen exactly when its record has the domain, and is DONE if `complete` |
| Removal.ByBatch | windows/manager/table.ts:846-852 | an id is chosen exactly when its record has the batch, and is DONE if `complete` |
| Removal.ByFilter | windows/manager/table.ts:887-892 | an id is chosen exactly when the filter matches its record's name, and the record is DONE unless `all` |
| Removal.SplitTwo | windows/manager/table.ts:861 | `split("--", 2)` gives the text before the first separator and, if there is one, the separator-free text after it |
| Removal.ParseFilterEvent | windows/manager/table.ts:860-879 | an event parses only when both pieces are non-empty and the prefix names a filter removal. The prefix says whether all matching records go or only DONE ones |
| Removal.MenuEntryRoundTrip | windows/manager/table.ts:579-597 | every entry id that the context menu builds for a filter whose id is non-empty and free of "--" parses back to that filter. Under "ctx-remove" it removes all matching records, under "ctx-remove-complete" only the DONE ones |
| Removal.PlainEntriesIgnored | windows/manager/table.ts:860-879 | the plain "remove all" entry, and an event with an empty prefix, are ignored |
| Manager.NewIdsExact | windows/manager/table.ts:902-917 | the new records' ids are free of duplicates, and are exactly the incoming ids the identity map does not know |
| Manager.SurvivingExact | windows/manager/table.ts:962-976 | the kept records are exactly the listed ones whose id is not removed |
| Manager.RemovalAccounts | windows/manager/table.ts:962-976 | evicting along the list keeps the registry consistent with exactly the surviving records |
| Manager.RemovalSids | windows/manager/table.ts:962-976 | the identity map loses exactly the removed ids, and still agrees with the surviving records |
| Manager.DownloadItem.constructor | windows/manager/table.ts:125-133 | A new record copies the snapshot, with absent fields as 0 or empty. It takes the saved sample log or a fresh one and has `lastWritten` 0. It is admitted to the registry with an undefined old state |
| Manager.DownloadItem.UpdateDownload | windows/manager/table.ts:206-225 | A position mismatch posts exactly one resync and changes nothing else. Otherwise every present field is copied. A state change clears the log and makes exactly one registry transition; an unchanged state makes none. The collection is asked to recalculate the record and an update event is emitted. The registry stays consistent |
| Manager.DownloadItem.AdoptSize | windows/manager/table.ts:227-235 | the record's sizes become the adopted sizes |
| Manager.DownloadItem.UpdateStats | windows/manager/table.ts:237-262 | the record's sampling state and the value returned are the tick's, and a sampling event is emitted exactly when a sample was added |
| Manager.DownloadTable.constructor | windows/manager/table.ts:315-321 | an empty table: nothing running, nothing finished, the timer off, an empty identity map, every action disabled, and the invariant holding |
| Manager.DownloadTable.UpdatedState | windows/manager/table.ts:926-959 | the registry makes the transition, and the action flags then show the selection |
| Manager.DownloadTable.SelectionChanged | windows/manager/table.ts:627-665 | every action flag becomes what the selection, the focus and the masks say |
| Manager.DownloadTable.SetAll | windows/manager/table.ts:629-638 | every flag of the disable set takes the given value |
| Manager.DownloadTable.DisableIneligible | windows/manager/table.ts:642-664 | with every flag cleared, each flag ends as the OR of the selected states and the focused record say |
| Manager.DownloadTable.SelectedSids | windows/manager/table.ts:619-625 | at most one id per selected row, and exactly the ids of selected rows in the view whose state meets the mask |
| Manager.DownloadTable.SelectionSids | windows/manager/table.ts:726-731 | at most one id per selected row, and exactly the ids of the selected rows in the view |
| Manager.DownloadTable.EnabledExactlyWhenPosting | windows/manager/table.ts:627-689 | with the flags `selectionChanged` set, resume, pause and cancel are enabled exactly when invoking them posts something |
| Manager.DownloadTable.ResumeDownloads | windows/manager/table.ts:667-673 | the resumable selected ids are posted, with the force flag, exactly when there are some |
| Manager.DownloadTable.PauseDownloads | windows/manager/table.ts:675-681 | the pausable selected ids are posted exactly when there are some |
| Manager.DownloadTable.CancelDownloads | windows/manager/table.ts:683-689 | the cancelable selected ids are posted exactly when there are some |
| Manager.DownloadTable.OpenFile | windows/manager/table.ts:691-706 | only a focused, in-view, DONE record with a manager id is opened, and a failure posts it as missing |
| Manager.DownloadTable.OpenDirectory | windows/manager/table.ts:708-723 | only a focused, in-view record with a manager id is shown, and a failure posts it as missing |
| Manager.DownloadTable.RemoveDownloadsInternal | windows/manager/table.ts:725-736 | the given list, or if none is given the selection's ids, is posted for removal exactly when it is non-empty |
| Manager.DownloadTable.RemoveDownloadsByState | windows/manager/table.ts:738-750 | the records chosen by exact state are posted for removal exactly when there are some |
| Manager.DownloadTable.RemoveDomainDownloads | windows/manager/table.ts:800-828 | without a focused record in the view, or without confirmation, nothing is posted. Otherwise the domain's records are posted exactly when there are some |
| Manager.DownloadTable.RemoveBatchDownloads | windows/manager/table.ts:830-858 | without a focused record in the view, or without confirmation, nothing is posted. Otherwise the batch's records are posted exactly when there are some |
| Manager.DownloadTable.HandleFilterRemove | windows/manager/table.ts:860-900 | an entry that parses, names a known filter and is confirmed posts the records the filter chooses, exactly when there are some. Any other entry posts nothing |
| Manager.DownloadTable.UpdateItems | windows/manager/table.ts:902-917 | Known ids keep their records in the identity map, and those records are updated in place. Records that no snapshot names are outside the method's frame, so they stay as they were. Unknown ids make fresh records, one per new id in order of first occurrence, appended to the collection even when there are none. The identity map gains exactly the incoming ids. Only resync requests are posted, at most one per snapshot. The invariant is kept. When no two snapshots share an id, the new records hold, in order, the fields the constructor takes from the snapshots with a new id |
| Manager.DownloadTable.UpdatedDownload | windows/manager/table.ts:919-924 | the collection is asked to recalculate exactly that record |
| Manager.DownloadTable.RemovedItems | windows/manager/table.ts:962-976 | Exactly the records whose id is not removed are kept, in order. Their ids leave the identity map, the timer is left as it was, and the invariant is kept |
| Manager.DownloadTable.UpdateRunning | windows/manager/table.ts:555-565 | each running record takes one tick in the running set's order, and the global log gains the sum of the non-negative values |
| Manager.DownloadTable.SetItemsAsWritten | windows/manager/table.ts:602-612 | Every snapshot becomes a fresh record, in order, whose fields are the ones the constructor takes from that snapshot, with its saved log if it was running. The identity map agrees with the new list. `finished` is its old value plus the number of DONE snapshots, so a non-zero old count breaks the invariant. The timer is on exactly when it was on or some snapshot is RUNNING |
| Manager.DownloadTable.SetItems | windows/manager/table.ts:602-612 | the same resync with the count restarted: the records' fields are the snapshots', `finished` is the number of DONE snapshots, the timer is on exactly when it was on or some snapshot is RUNNING, and the invariant holds |
| Bookkeeping.TransitionEffect | windows/manager/table.ts:926-959 | A state change moves `finished` down for a DONE old state and up for a DONE new state. It takes the record out of `running` when its old state is RUNNING, and puts it in when its new state is RUNNING. `running` stays free of duplicates. The timer starts on entering RUNNING and stops when the last running record leaves; otherwise it is left alone |
| Bookkeeping.AdmitTimer | windows/manager/table.ts:942-951 | admitting a record leaves the timer on exactly when it was on or the record is RUNNING |
| Bookkeeping.EvictEffect | windows/manager/table.ts:968-972 | removing one record takes it out of `running`, lowers `finished` if it was DONE, and leaves the timer |
| Sampling.TickAll | windows/manager/table.ts:557-562 | one tick per running record, in order, each being that record's own tick on its own search outcome |
| Sampling.Total | windows/manager/table.ts:556-562 | the per-tick sum is never negative |
| Display.CellProgress | windows/manager/table.ts:1049-1076 | a missing row gives -1. Every result is -1, a full bar, or the record's percentage. FINISHING, DONE and CANCELED give a full bar |
| Eligibility.OrStates | windows/manager/table.ts:643 | the OR of no states is 0, and every selected state is contained in the OR |
| Eligibility.SidsAllowed | windows/manager/table.ts:619-625 | at most one id per record |
| Eligibility.FlagsFollow | windows/manager/table.ts:642-664 | the flags `selectionChanged` sets are, action by action, what the OR of the states and the focused record say |
| Eligibility.ShowsSelected | windows/manager/table.ts:627-664 | for a non-empty selection those flags are what the selection shows |
| Eligibility.DisabledByMask | windows/manager/table.ts:642-657 | a bulk action is disabled exactly when the OR of the selected states misses its mask |
| Manager.Initials | windows/manager/table.ts:125-133 | one set of record fields per snapshot, taken from that snapshot: absent fields as 0 or empty, the domain of its URL, `lastWritten` 0, and one URL event |
| Manager.SavedStats | windows/manager/table.ts:603-604 | the saved logs are keyed by exactly the running records' ids, each holding the log of a running record with that id |
| Manager.NewIdsCover | windows/manager/table.ts:902-917 | the new records' ids are free of duplicates, and with the known ids they make up exactly the known ids plus every incoming id |
| Manager.Collection.Set | windows/manager/table.ts:975 | `set` replaces the records, shows the view's rows, and is logged |
| Manager.Collection.Add | windows/manager/table.ts:914-916 | `add` appends the records, shows the view's rows, and is logged |
| Manager.Collection.RecalculateItem | windows/manager/table.ts:920 | each `recalculateItem` is logged with the record's id |
| Manager.DownloadItem.ApplySnapshot | windows/manager/table.ts:212-224 | `position`, `lastWritten` and `filteredPosition` are kept. Each present field is copied, and the domain is re-derived when a non-empty URL arrives. A state change clears the log and makes one transition. A recalculation is requested, and a URL event (when due) and an update event are emitted |
| Manager.DownloadItem.Assign | windows/manager/table.ts:215-218 | `Object.assign` of the present fields, with the URL's domain and event when a non-empty URL is given |
| Manager.DownloadItem.ReportState | windows/manager/table.ts:219-222 | a changed state clears the log and makes exactly one registry transition; an unchanged one changes nothing |
| Manager.DownloadTable.ReceiveAll | windows/manager/table.ts:903-913 | The loop of `updateItems` leaves the collection's records alone. Every id it knew keeps its record. The fresh records are exactly the new ids in order. The map gains exactly their ids, and only resyncs are posted, at most one per snapshot. The bookkeeping covers the old and new records. When no two snapshots share an id, the fresh records hold the constructor's fields for the snapshots with a new id, index by index |
| Manager.DownloadTable.Receive | windows/manager/table.ts:905-912 | one snapshot: a known id updates only its own record; the batch grows by one fresh record exactly when the id is unknown, and that record holds the constructor's fields for the snapshot. The records made earlier in the batch keep their fields when they are not the one named, and the loop's facts carry over to the next snapshot |
| Manager.DownloadTable.ReceiveStep | windows/manager/table.ts:905-912 | one turn of the loop: `Receive`'s facts, with the fields of the records made so far grown by the new record's initial fields exactly when its id is new |
| Manager.DownloadTable.Refresh | windows/manager/table.ts:912 | the named record changes only as `UpdateDownload` says, while the map and the list of records stay, the batch's other new records are unchanged, and at most one resync is posted |
| Manager.DownloadTable.Admit | windows/manager/table.ts:907-908 | a fresh record with the snapshot's id, holding the fields the constructor takes from the snapshot, enters the map, and the bookkeeping covers it; the batch's other new records keep their fields |
| Manager.DownloadTable.Publish | windows/manager/table.ts:914-916 | the new records are appended and the invariant holds, with the map and the port untouched and the new records' fields unchanged |
| Manager.NewSnapshots | windows/manager/table.ts:903-910 | the snapshots that make new records are those whose ids are exactly the new ids, in order of first occurrence |
| Manager.DistinctMeans | windows/manager/table.ts:903-913 | a batch has no repeated id exactly when its list of ids is free of duplicates |
| Manager.DistinctAt | windows/manager/table.ts:903-913 | in a batch without repeated ids, no snapshot's id occurs earlier in the batch |
| Manager.RepeatFree | windows/manager/table.ts:905-912 | in a batch without repeated ids, a snapshot's record is never one made earlier in the same batch |
| Manager.ExtendFields | windows/manager/table.ts:905-910 | one snapshot extends the initial fields of the new records by its own exactly when its id is new |
| Manager.MadeStep | windows/manager/table.ts:905-910 | one snapshot keeps the description of the new records' fields true, with the new record's fields appended when its id is new |
| Manager.DownloadTable.Sweep | windows/manager/table.ts:963-974 | the filter loop of `removedItems` keeps, evicts and unmaps exactly as the value-level sweep does, and leaves the timer |
| Manager.DownloadTable.Install | windows/manager/table.ts:975 | the kept records become the collection and the invariant holds |
| Manager.DownloadTable.SampleRunning | windows/manager/table.ts:556-562 | each running record's sampling state becomes its tick's, in order, and the sum is that of the ticks' non-negative values |
| Manager.DownloadTable.SampleOne | windows/manager/table.ts:557-562 | one record sampled: earlier ones keep their new state, later ones their old, and the running sum grows by its value |
| Manager.DownloadTable.AppendGlobal | windows/manager/table.ts:563 | the global log gains exactly the sum, and the running records' sampling state is untouched |
| Manager.DownloadTable.RecreateAll | windows/manager/table.ts:607-611 | the `map` of `setItems` makes one fresh record per snapshot, in order, each with the snapshot's fields and its saved log, mapped by id and counted |
| Manager.DownloadTable.RecreateStep | windows/manager/table.ts:607-611 | one more snapshot turned into a record keeps that description true |
| Manager.DownloadTable.Recreate | windows/manager/table.ts:608-609 | one record made from a snapshot and its saved log, with the timer on exactly when it was on or the snapshot is RUNNING |
| Manager.DownloadTable.Make | windows/manager/table.ts:608-609 | the new record holds the constructor's fields for the snapshot and enters the identity map, and earlier new records are untouched |
| Manager.DownloadTable.Replace | windows/manager/table.ts:607 | `downloads.set` installs the new records without changing the bookkeeping |
| Manager.DownloadTable.RebuiltAll | windows/manager/table.ts:602-612 | after the whole batch: the records' ids and fields are the snapshots', `finished` grew by the DONE snapshots, and the timer is on exactly when it was on or some snapshot is RUNNING |

## Left out

- `isFiltered` (table.ts:144-146) only guards `invalidateRow`, a redraw. It has no counterpart here.
- The dialog wrappers `removeDownloads`, `removeAllDownloads`, `removeCompleteDownloads`, `removeFailedDownloads`, `removePausedDownloads` and `removeMissingDownloads` (table.ts:752-798) are not modelled. Each awaits a dialog and then calls `RemoveDownloadsInternal` or `RemoveDownloadsByState` with fixed arguments.
- `updateURL` (table.ts:264-268) is URL parsing. A record's domain is the opaque `domainOf` of its URL, and a missing URL reads as the empty string. `new URL` throws on a missing or malformed URL, which aborts the constructor before it reports the record's state (table.ts:127-130) and stops `updateItems` or `setItems` midway. That failure path is not modelled: `domainOf` is total.
- Only the snapshot keys the core reads are modelled: session id, position, state, url, written and total bytes, manager id, batch, usable name and error. `Object.assign` (table.ts:127, 215) copies every key a snapshot carries. The display-only fields `finalName`, `description`, `mask`, `destFull`, `startDate` and `uURL` are not modelled.
- `FilteredCollection` is not part of this model. In the model:
  - `Collection` keeps `items`;
  - its `filtered` view is the projection of `items` through a caller-given list of positions;
  - its `set`, `add` and `recalculateItem` calls are logged as requests.
- A record's `position` is set at creation and never changed afterwards, as in table.ts, where `updateDownload` deletes the snapshot's position before copying (table.ts:212). The filtered collection resequences positions when rows are moved; that collection is not part of this model, so the mismatch test compares against the creation-time position.
- A record's `filteredPosition` field is not maintained. The one rule that reads it, removal from the selection, reads each filtered row's position as its index in the view (`Removal.Positioned`). That index is what the collection keeps in sync.
- The `Stats` class is a plain log of samples. Its average is the opaque `avgOf`, and its ring-buffer bound is not modelled.
- The timer is a boolean.
  - `setInterval` and `clearInterval` are not modelled.
  - The call to `updateRunning` that `updatedState` makes when it starts the timer is not modelled either. `UpdateRunning` is a separate operation.
- These are not modelled:
  - the DOM, `updateCounts`, `document.title` and the status texts;
  - the context menu's construction;
  - the tooltips, the icons and the `fmt*` getters.
- `await` points are not modelled. Each asynchronous call is a parameter holding its settled result, and the operations run without interleaving.
- Manager.DownloadTable.SelectedSids skips a selected row outside the filtered view. The source would throw a `TypeError` on `filtered[i].state`. `SelectionSids` and `SelectedRows` skip such rows in the same way.
- Manager.DownloadTable.UpdateRunning requires as many settled search outcomes as there are running records. It does not model a record whose state changes while its search is in flight.
- Manager.DownloadTable.UpdateItems states the frame, the identity map and the resync log. It does not restate each existing record's new fields; `UpdateDownload` states those, and `UpdateItems` calls it once per snapshot with a known id.
- Manager.DownloadTable.Refresh, for the same reason, does not restate what the named record holds afterwards. It calls `UpdateDownload` on that record, and only that record is in its frame. So the record takes the snapshot's fields, or is left as it was on a position mismatch, exactly as `UpdateDownload`'s contract says. Refresh's own ensures do not repeat it.
- Manager.DownloadTable.UpdateItems gives the new records' fields only for a batch without repeated ids. When an id occurs twice, its second snapshot updates the record the first one made, through `UpdateDownload`, so that record's fields are no longer the constructor's. `ReceiveAll` states the fields under the same condition, and `Receive` and `Admit` state each new record's fields without it.
- Manager.DownloadTable.ReceiveAll states the fresh records' fields only for a batch without repeated ids, for the reason given for `UpdateItems`.
- Manager.DownloadItem.UpdateStats gives its value as a `real` and leaves the average opaque, so the floating-point arithmetic of `Stats.avg` is not modelled.
- Display.Percent divides exactly over the reals, where `written / totalSize` is a floating-point division. Its equation `r * totalSize == written` holds exactly only over the reals; the DONE, zero-total and [0, 1] range facts hold for doubles as well.

## Findings

| source | as written | input that shows it | evidently intended | confidence | as-written member | corrected member |
|---|---|---|---|---|---|---|
| windows/manager/table.ts:602-612 | `setItems` clears `running` and `sids` but not `finished`, and each new record's `updatedState(item, undefined, DONE)` increments it again | The table holds one DONE record (`finished == 1`). The background resends the full list with that same record. Afterwards `finished == 2`, but there is one DONE record | `finished` restarts from 0, so that it counts the DONE records of the new list | medium, not executed | Manager.DownloadTable.SetItemsAsWritten, Bookkeeping.ResyncCountsTwice | Manager.DownloadTable.SetItems, Bookkeeping.ResyncFromZero |
