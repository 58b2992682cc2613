# Task manager: a verified model of its state and handlers

The program is a single-page task manager. Tasks have a priority, dates, a
description, a checklist and time tracking, and are kept in the browser's
`localStorage`. It exists in two versions. `script.js` is the earlier one.
`script-bkp.js` is the later one: it adds archiving, a search box, completion
fields, a focus score, a rich-text description and a checklist that can be
reordered by dragging.

This project models the page's logic:

- the state it keeps: the `tasks` array, `currentViewId` (the task shown in
  the detail view), the `checklistBuffer` of the task form, and what storage
  holds;
- the event handlers that change that state: start and pause a timer,
  delete, tick a checklist box, save the form in both versions, reorder the
  cards by priority list, and add, remove and drag-reorder checklist items in
  the form;
- `loadTasks` in both versions: the migration of stored records, and in the
  later version the archive filter and the search;
- the pure helpers: `calculateProgress`, the checklist display order with
  its `realIndex` mapping, `formatTime` and `escapeHtml`.

Layout:

| file | module | contents |
|---|---|---|
| `js.dfy` | `Js` | missing/null properties, the or-default idiom, `trim`, ASCII `toLowerCase`, `includes`, loose `== false` |
| `seqs.dfy` | `Seqs` | `filter` and `map` on sequences |
| `records.dfy` | `Records` | the stored record and the in-memory task, `find` by id and by running timer |
| `migration.dfy` | `Migration` | the per-record `map` of both `loadTasks` versions |
| `loading.dfy` | `Loading` | `loadTasks` as a function of storage, archive filter and search |
| `checklist.dfy` | `Checklist` | progress, display order and `realIndex`, the form's checklist buffer |
| `format.dfy` | `Format` | `formatTime` with a reader for its labels, `escapeHtml` with an entity decoder |
| `timer.dfy` | `Timer` | start, pause and the live total |
| `board.dfy` | `Board` | `rebuildStateFromDOM` as a loop over the three card lists |
| `editor.dfy` | `Editor` | the save button in both versions |
| `session.dfy` | `Handlers` | the page state as the class `Session`, one method per handler |

The handlers are methods of `Handlers.Session`. Each one updates the fields
in place and states the new state through a function of the old state. The
collection-level properties are lemmas about those functions:

- which tasks change;
- that at most one timer runs;
- round trips through storage;
- ordering and permutations.

The clock (`Date.now()`), `toLocaleString`, the confirmation dialog, the
form's fields, the order of cards and checklist rows after a drag, and the
browser's HTML decoder `unescapeHtml` are parameters.

Some behaviours of the code are modelled as written:

- A pause adds `now - start` without clamping, so a clock that went back
  adds a negative amount.
- Saving an edit of a task that no longer exists changes no task, but still
  writes storage.
- In the later version, a stored `isArchive` that is missing or `null`
  drops the record from the list, because `undefined == false` is false.
- `calculateProgress` rounds 199 done items out of 200 up to 100.
- Tasks that share an id are not repaired. A reorder that reaches one task
  through two cards yields two entries for that one object, both with the
  priority written last. In the page these two entries stay one object;
  the model holds them as two equal values (see `## Left out`).

## Model

| member | source | states |
|---|---|---|
| Js.TrimIsSlice | script.js:309 | `trim` returns a slice of its input; everything cut off either end is ECMAScript white space; the result neither starts nor ends with white space |
| Js.TrimAt | script.js:336 | the text kept by `trim` starts after the leading white space and is exactly the slice between the two white-space runs |
| Js.TrimStartDrops | script.js:309 | the leading part `trim` drops is all white space and the kept suffix starts with a non-space |
| Js.TrimEndDrops | script.js:309 | the trailing part `trim` drops is all white space and the kept prefix ends with a non-space |
| Js.TrimEmptyIff | script.js:338 | the trimmed text is empty exactly when the input is all white space |
| Js.Includes | script-bkp.js:83 | `includes` holds exactly when the query occurs at some position of the text |
| Js.IncludesEmpty | script-bkp.js:83 | every text includes the empty query |
| Js.LooseEqualsFalseExamples | script-bkp.js:74 | `false`, `0` and `""` are loosely equal to false; `true`, `1`, `undefined` and `null` are not |
| Js.LooseEqualsFalsePaddedZero | script-bkp.js:74 | the string `" 0 "` is loosely equal to false (white space around a zero numeral) |
| Js.LooseEqualsFalseOne | script-bkp.js:74 | the string `"1"` is not loosely equal to false |
| Seqs.Filter | script.js:279 | `filter` keeps only elements that pass, keeps every element that passes, and never grows |
| Seqs.FilterConcat | script.js:279 | `filter` distributes over concatenation, so the kept elements keep their order |
| Seqs.FilterKeepsAll | script.js:279 | a filter every element passes returns its input unchanged |
| Seqs.FilterSplitsMultiset | script.js:279 | what a filter keeps and what it drops together are the input, as a multiset |
| Seqs.MapConcat | script.js:54 | `map` distributes over concatenation |
| Seqs.MapPreservesPermutation | script-bkp.js:34-42 | mapping two rearrangements of the same elements gives two rearrangements of the same images |
| Records.Persist | script.js:42-44 | storage receives one record per task |
| Records.FindById | script.js:149 | `find` by id returns the first position holding the id, and nothing exactly when no task has it |
| Records.FirstRunning | script.js:73 | `find` on `isTimerRunning` returns the first running task, and nothing exactly when none runs |
| Migration.Migrate | script.js:54-70 | the per-record `map` of the earlier `loadTasks`; its contract is stated by `MigrateFields`, `MigrateRoundTrip` and `MigrateIdempotent` |
| Migration.MigrateFields | script.js:54-70 | id, name, priority, dates and description are kept as stored; each defaulted field keeps a truthy value and becomes `[]`, `''`, `0`, `false` or `null` when falsy |
| Migration.MigrateEmptyRecord | script.js:54-70 | a record with no properties migrates to the all-defaults task |
| Migration.MigrateRoundTrip | script.js:54-70 | saving a task and migrating it back returns the same task exactly when it has no later-version fields and no session start of 0 |
| Migration.MigrateIsEarlyShaped | script.js:54-70 | every task the earlier migration produces has that shape |
| Migration.MigrateIdempotent | script.js:54-70 | migrating the saved output of a migration changes nothing |
| Migration.MigrateAllIdempotent | script.js:42-70 | saving the loaded collection and loading it again reproduces it |
| Migration.MigrateExt | script-bkp.js:90-113 | the per-record `map` of the later `loadTasks`; its contract is stated by `MigrateExtFields`, `MigrateExtRoundTrip` and `MigrateExtIdempotent` |
| Migration.MigrateExtFields | script-bkp.js:90-113 | falsy `isCompleted` and `isArchive` become false and a falsy `focusScore` becomes 0, with truthy values kept; the description is the decoder applied to `String(description)`; every other field is as in the earlier migration |
| Migration.MigrateExtRoundTrip | script-bkp.js:90-113 | saving and migrating back with the later migration is the identity exactly on the tasks it produces |
| Migration.MigrateExtIdempotent | script-bkp.js:102 | the later migration is idempotent when the decoder is idempotent on the decoded description |
| Loading.Kept | script-bkp.js:74-85 | the archive filter and the search of the later `loadTasks`; its contract is stated by `KeptIff`, `KeptConcat` and `KeptSingle` |
| Loading.LoadedFilteredMembers | script-bkp.js:69-113 | the later load gives no task for empty or corrupt storage; otherwise a task is loaded exactly when it is the migration of a stored record that is not archived and matches the query |
| Loading.MigratedMembers | script-bkp.js:90-113 | a task comes out of the later migration exactly when it is the migration of one of the kept records |
| Loading.ViewAfterLoad | script.js:73-77 | after loading, the shown task is the first running one when one runs, and the previous selection otherwise |
| Loading.KeptIff | script-bkp.js:74-85 | a record is kept exactly when it is stored, its `isArchive` is loosely equal to false, and one of the six columns, lower-cased, includes the lower-cased query |
| Loading.KeptConcat | script-bkp.js:74-85 | the kept records keep their storage order |
| Loading.KeptSingle | script-bkp.js:74-85 | a single record is kept as itself or dropped |
| Loading.EmptyQueryMatches | script-bkp.js:83 | every record matches the empty query |
| Loading.EmptyQueryKeepsAll | script-bkp.js:69-85 | with an empty query every non-archived record is kept in storage order, and all of them when none is archived |
| Loading.LowerIdempotent | script-bkp.js:83 | lower-casing twice is lower-casing once |
| Loading.MatchIgnoresQueryCase | script-bkp.js:83 | a query matches exactly when its lower-cased form does |
| Loading.MissingDescriptionMatchesUndefined | script-bkp.js:83 | a missing description is searched as the text "undefined" |
| Loading.ArchiveFlagDecides | script-bkp.js:74 | a missing, null or true `isArchive` drops the record; false, 0 and "" keep it |
| Checklist.DoneCount | script.js:129 | the number of done items is at most the length |
| Checklist.DoneCountFull | script.js:129 | the done count equals the length exactly when every item is done |
| Checklist.RoundedPercent | script.js:130 | the percentage is the nearest integer to `100 * done / total`, halves rounded up, and at most 100 |
| Checklist.Progress | script.js:127-131 | an empty checklist gives 0; otherwise the rounded done percentage, within 0..100 |
| Checklist.ProgressFull | script.js:127-131 | progress is 100 exactly when the undone items are at most half a percent of the list; below 200 items, exactly when all are done |
| Checklist.ProgressRoundsUpNearlyFull | script.js:130 | 199 done out of 200 rounds to 100 |
| Checklist.ProgressTwoOfThree | script.js:127-131 | two done items out of three give 67 |
| Checklist.PositionsWith | script.js:210 | the positions of the items with a given flag, in increasing order |
| Checklist.PositionsCover | script.js:210 | undone and done positions together number as many as the items |
| Checklist.Flagged | script.js:210 | the items with a flag never outnumber the list |
| Checklist.FlaggedSplit | script.js:210 | undone and done items together are the list, as a multiset |
| Checklist.PositionsPickFlagged | script.js:212-213 | the items at those positions are the items with that flag, in storage order |
| Checklist.DisplayOrder | script.js:210-213 | each row's `realIndex` is a distinct storage position; every undone row precedes every done row; rows with the same flag keep storage order |
| Checklist.SortedChecklist | script.js:210 | the sorted copy has as many items as the list |
| Checklist.RealIndexPointsToItem | script.js:212-213 | each displayed row's `realIndex` holds that very item in storage |
| Checklist.SortedIsPermutation | script.js:210 | the displayed checklist is a rearrangement of the stored one |
| Checklist.SetDone | script.js:294 | setting `done` at an index changes that item's flag only and keeps every other item |
| Checklist.ToggleHitsDisplayedItem | script.js:290-298 | ticking displayed row `k` sets the flag of the item shown in that row and changes no other item |
| Checklist.WithItemAdded | script.js:308-315 | the buffer after the add button; its contract is stated by `ItemAdded` |
| Checklist.ItemAdded | script.js:308-315 | a blank input leaves the buffer unchanged; any other input appends exactly one undone item holding the trimmed text |
| Checklist.SpliceStart | script.js:319 | `splice` starts within the list: a negative index counts from the end, and both ends are clamped |
| Checklist.SpliceOne | script.js:317-321 | the buffer after `splice(idx, 1)`; its contract is stated by `SpliceRemovesOne` and `SpliceEdges` |
| Checklist.SpliceRemovesOne | script.js:317-321 | removing a valid index drops exactly that item and keeps the others in order |
| Checklist.SpliceEdges | script.js:319 | an index at or past the end removes nothing; -1 removes the last item |
| Checklist.FirstWithText | script-bkp.js:37 | `find` by text returns the first item with that text, and nothing exactly when none has it |
| Checklist.Rebuilt | script-bkp.js:33-43 | the drag rebuild succeeds exactly when every row's text is in the buffer, and then gives one entry per row, in row order, with the row's text |
| Checklist.RebuiltTakesFirstMatch | script-bkp.js:37-41 | each rebuilt entry equals the first buffer item with its text |
| Checklist.RebuiltDuplicatesShareDone | script-bkp.js:37-41 | two items with the same text both come out with the first one's `done` |
| Checklist.RebuiltIsPermutation | script-bkp.js:33-43 | with distinct texts and rows that show each text once, the rebuilt buffer is a rearrangement of the old one |
| Format.Decimal | script-bkp.js:58-59 | `${n}` is a non-empty run of decimal digits |
| Format.DecimalRoundTrip | script-bkp.js:58-59 | the digits of `${n}` read back as `n` |
| Format.FormatTime | script-bkp.js:51-61 | `formatTime`; its contract is stated by `FormatTimeUnderAMinute`, `FormatTimeIsLabel` and `FormatTimeRoundTrip` |
| Format.FormatTimeUnderAMinute | script-bkp.js:52-54 | every zero or negative value gives "0m"; every value from 1 to 59999 gives "< 1m" |
| Format.FormatTimeIsLabel | script-bkp.js:53-60 | from a minute on, the text is the label of `floor(minutes / 60)` hours and `minutes % 60` minutes |
| Format.MinutesLabelForms | script-bkp.js:57-60 | the label is "Hh Mm", "Hh" on a whole hour, or "Mm" under an hour; a zero component is omitted and the trailing space trimmed |
| Format.MinutesLabelRoundTrip | script-bkp.js:57-60 | every label reads back as `60 * hours + minutes` |
| Format.FormatTimeRoundTrip | script-bkp.js:51-61 | from a minute on, the text reads back as the whole number of minutes in the value: only the seconds are lost |
| Format.FormatTimeHourExample | script-bkp.js:51-61 | 3600000 ms gives "1h" |
| Format.FormatTimeQuarterExample | script-bkp.js:51-61 | 4500000 ms gives "1h 15m" |
| Format.TrimDropsOneSpace | script-bkp.js:60 | the `trim` strips the space a whole-hour label ends with |
| Format.ReplaceAllConcat | script-bkp.js:20 | a global one-character `replace` works piece by piece |
| Format.ReplaceAllAbsent | script-bkp.js:20 | a `replace` whose character does not occur changes nothing |
| Format.ApplyRulesChar | script-bkp.js:19-24 | when no step writes a character a later step searches for, one character becomes what the first step matching it writes |
| Format.EscapeRulesSpare | script-bkp.js:20-24 | because `&` is replaced first, no entity a step writes is searched for by a later step |
| Format.EscapeChainIsPerChar | script-bkp.js:19-24 | the chained replacements equal escaping each character on its own, so nothing is escaped twice |
| Format.EscapedHasNoMarkup | script-bkp.js:19-24 | the escaped text holds no `<`, `>`, `"` or `'` |
| Format.DecodeEscapedChar | script-bkp.js:19-24 | the entity written for a character decodes back to that character |
| Format.EscapeEachRoundTrip | script-bkp.js:19-24 | escaping character by character loses nothing |
| Format.EscapeRoundTrip | script-bkp.js:17-25 | decoding the escaped text gives back the original |
| Format.EscapeHtml | script-bkp.js:17-25 | `escapeHtml`; its contract is stated by `EscapeRoundTrip`, `EscapeHtmlHasNoMarkup` and `EscapeFalsy` |
| Format.EscapeHtmlHasNoMarkup | script-bkp.js:17-25 | `escapeHtml` output holds none of the four markup characters |
| Format.EscapeFalsy | script-bkp.js:18 | missing, null and empty texts escape to "" |
| Timer.Start | script.js:382-391 | the start button; its contract is stated by `StartSpec` and `StartBlockedWhileRunning` |
| Timer.Pause | script.js:394-405 | the pause button; its contract is stated by `PauseSpec` and `PauseStopsAll` |
| Timer.LiveTotal | script.js:411-417 | the ticker's value; its contract is stated by `LiveTotalIsWhatPauseCommits` and `LiveTotalHidden` |
| Timer.StartSpec | script.js:382-391 | start acts exactly when the shown task exists and no task runs; it then marks only that task running from `now`, and afterwards exactly one task runs |
| Timer.StartBlockedWhileRunning | script.js:384 | no timer starts while any task runs, the shown one included |
| Timer.PauseSpec | script.js:394-405 | pause acts exactly when the shown task exists and runs; it then adds `now - start` (unclamped) to its time, stops it, clears its start, and changes nothing else |
| Timer.PauseStopsAll | script.js:394-405 | pausing keeps the single-timer invariant, and with it no task runs afterwards |
| Timer.StartThenPause | script.js:382-405 | a start at `t0` and a pause at `t1` add `t1 - t0` to the task's time and otherwise restore the collection |
| Timer.PauseOfStarted | script.js:394-405 | pausing a just-started task commits exactly the session since its start |
| Timer.LiveTotalIsWhatPauseCommits | script.js:411-417 | with distinct ids, the total the ticker shows is the time a pause at that moment commits |
| Timer.LiveTotalHidden | script.js:412-413 | nothing is shown while no task runs or while the first running task is not the shown one |
| Board.Resolve | script.js:147-153 | the positions a list's cards reach are tasks whose ids are among the cards, at most one per card |
| Board.Relabel | script.js:151 | a position reached by a card gets the list's priority and every other task is unchanged |
| Board.ProcessList | script.js:146-155 | the loop over one list writes its priority into the tasks its cards reach and appends those positions in card order |
| Board.RebuildState | script.js:144-159 | processing the three lists in order yields the reordered collection |
| Board.Reorder | script.js:144-159 | `rebuildStateFromDOM` as a value; its contract is stated by `ReorderEntries`, `ReorderIds` and `ReorderDropsUncarded` |
| Board.ResolveMember | script.js:149 | a position is reached exactly when it holds the first task for one of the list's ids |
| Board.ResolveIds | script.js:149-152 | the reached tasks carry, in order, the card ids that match a task |
| Board.ResolveConcat | script.js:147-153 | resolving works card by card over any split of a list |
| Board.RelabelledAt | script.js:151 | a task reached by some card ends with the priority of the last list holding its id |
| Board.RefsAt | script.js:149 | each entry refers to the first task for one of the card ids |
| Board.EntryAt | script.js:144-159 | each new entry is an old task with only its priority replaced by its list's name |
| Board.ReorderEntries | script.js:144-159 | the new collection follows the reached positions, and every entry is the old task with only its priority changed |
| Board.ReorderIds | script-bkp.js:199-202 | the ids of the new collection are the card ids of the three lists, in order, with unmatched ids dropped |
| Board.ReorderFollowsCards | script-bkp.js:199-202 | when every card matches a task, the new ids are exactly the three card lists concatenated |
| Board.ReorderDropsUncarded | script-bkp.js:193-195 | a task without a card is not in the new collection |
| Board.ReorderBuckets | script-bkp.js:199-201 | with disjoint lists, the super, important and not-important entries hold those priorities, in that order |
| Board.BucketAt | script-bkp.js:199-201 | with disjoint lists, an entry's priority is that of the list it came from |
| Board.ReorderSharesObject | script.js:151-152 | two entries for the same id are the same task, priority included |
| Board.ReorderKeepsOneRunning | script.js:144-159 | with distinct card ids, the reorder keeps the single-timer invariant |
| Board.ReorderIsRearrangement | script.js:144-159 | when the cards show each task id once, the new collection has the same length and the same ids |
| Editor.Existing | script.js:343 | the existing task is found exactly when the form has an id that a task holds, and it is the first such task |
| Editor.FormTask | script.js:345-362 | the record the earlier save builds; its contract is stated by `SaveCreates` and `SaveEdits` |
| Editor.FormTaskExt | script-bkp.js:423-447 | the record the later save builds; its contract is stated by `SaveExtCreates`, `SaveExtEdits` and `SaveExtEscapesDescription` |
| Editor.Upsert | script.js:364-369 | replace at the found index or append; its contract is stated by `SaveEdits`, `SaveEditOfMissing` and `UpsertKeepsOneRunning` |
| Editor.Save | script.js:336-369 | the earlier save button; its contract is stated by `SaveRejects`, `SaveCreates`, `SaveEdits` and `SaveKeepsOneRunning` |
| Editor.SaveExt | script-bkp.js:414-454 | the later save button; its contract is stated by `SaveRejects`, `SaveExtCreates`, `SaveExtEdits` and `SaveVariantsAgree` |
| Editor.SaveRejects | script.js:336-341 | both save handlers reject exactly the forms with a blank trimmed name or no priority |
| Editor.SaveCreates | script.js:345-369 | a new task is appended with the clock as id, the trimmed name, the buffer as checklist, no time spent and no timer |
| Editor.SaveEdits | script.js:359-366 | an edit replaces the task at its position, keeps its time spent, timer flag and start, and changes no other task |
| Editor.SaveEditOfMissing | script.js:364-366 | an edit of an id no longer present changes no task, in both versions |
| Editor.UpsertKeepsOneRunning | script.js:359-369 | replacing or appending a task whose timer flag is carried over keeps the single-timer invariant |
| Editor.SaveKeepsOneRunning | script.js:359-361 | both save handlers keep the single-timer invariant |
| Editor.SaveExtEdits | script-bkp.js:420-451 | an edit keeps the creation time when truthy or stamps the local time; time spent and timer flag carry over; a start of 0 becomes null; no other task changes |
| Editor.SaveExtCreates | script-bkp.js:423-453 | a new task gets the clock as id, the 16-character local time as creation time, the archive checkbox, and no time, timer or start |
| Editor.SaveVariantsAgree | script-bkp.js:423-447 | the two handlers give collections of one length, whose entries differ only in the later-version fields, the description and a start of 0 |
| Editor.SaveExtEscapesDescription | script-bkp.js:432 | the saved description decodes back to the editor's HTML and holds no markup characters |
| Handlers.WithoutId | script.js:279 | the collection after deleting an id; its contract is stated by `DeleteRemovesExactly`, `DeleteKeepsOrder` and `DeleteKeepsOneRunning` |
| Handlers.Toggled | script.js:290-298 | the collection after ticking a checklist box; its contract is stated by `ToggleSpec` and `ToggleDisplayedRow` |
| Handlers.DeleteRemovesExactly | script.js:279 | deleting keeps exactly the tasks without that id, and is the identity when no task has it |
| Handlers.DeleteKeepsOrder | script.js:279 | the remaining tasks keep their order |
| Handlers.DeleteKeepsOneRunning | script.js:279 | deleting keeps the single-timer invariant, and adds no running task |
| Handlers.ToggleSpec | script-bkp.js:364-372 | the toggle acts exactly when a task is shown, exists and has an item at the index; it then sets only that item's flag, and nothing else in any task changes |
| Handlers.ToggleDisplayedRow | script.js:290-298 | ticking the box of displayed row `k` sets the flag of the item that row shows |
| Handlers.SaveThenLoad | script.js:42-70 | what the earlier page saves it loads back unchanged, provided no task has a session start of 0 |
| Handlers.Session.constructor | script.js:4-6 | the page starts with no tasks, no shown task and an empty buffer |
| Handlers.Session.SaveToStorage | script.js:42-44 | storage holds the current collection and nothing else changes |
| Handlers.Session.View | script.js:164-171 | the shown task becomes the requested one when it exists and is unchanged otherwise |
| Handlers.Session.LoadTasks | script.js:46-84 | the collection becomes the loaded one, and the first running task becomes the shown one |
| Handlers.Session.LoadTasksFiltered | script-bkp.js:69-127 | the collection becomes the filtered, migrated one, and the first running task becomes the shown one |
| Handlers.Session.ShowFirstRunning | script.js:73-77 | the shown task becomes the first running one, if any |
| Handlers.Session.OpenCreateForm | script.js:227-234 | the form's checklist starts empty and nothing else changes |
| Handlers.Session.OpenEditForm | script.js:236-258 | the form's checklist becomes a copy of the edited task's checklist |
| Handlers.Session.DeleteTask | script.js:275-288 | after confirmation the tasks with the id are removed and saved; the shown task is cleared exactly when it was the deleted id; without confirmation nothing changes |
| Handlers.Session.ToggleChecklistItem | script.js:290-298 | the collection becomes the toggled one and is saved, or nothing changes when the handler stops or fails |
| Handlers.Session.AddBufferItem | script.js:308-315 | the buffer gets the trimmed item when the input is not blank |
| Handlers.Session.RemoveBufferItem | script.js:317-321 | the buffer loses the item `splice(idx, 1)` removes |
| Handlers.Session.RebuildBufferFromRows | script-bkp.js:33-43 | the loop builds the text-matched buffer in row order, and a missing text stops it with the buffer unchanged |
| Handlers.Session.SaveTask | script.js:335-377 | the form is accepted exactly when the trimmed name and the priority are non-empty; the collection becomes the saved one and is stored |
| Handlers.Session.SaveTaskExt | script-bkp.js:413-462 | as the earlier save, with the later version's record |
| Handlers.Session.Upsert | script.js:364-370 | the edited task replaces the one with its id, or a new one is appended, and the collection is stored |
| Handlers.Session.StartTimer | script.js:382-391 | the collection becomes the started one and is stored, or nothing changes |
| Handlers.Session.PauseTimer | script.js:394-405 | the collection becomes the paused one and is stored, or nothing changes |
| Handlers.Session.Tick | script.js:411-417 | the ticker shows time spent plus the current session of the first running task, when that task is the shown one |
| Handlers.Session.ReorderFromBuckets | script.js:144-162 | the collection becomes the reordered one and is stored |

## Left out

- Rendering: `renderSidebar`, the HTML of `renderDetailView` and
  `renderModalChecklist`, the jQuery `sortable` and `modal` widgets, and the
  focus slider's label. They only draw the state. The model keeps the
  checklist sort with its `realIndex` and a shown-task update for
  `renderDetailView`.
- Storage transport: `localStorage` and `JSON.parse`/`JSON.stringify`.
  Storage is a value: nothing, unparsable text, or a list of records. A
  saved task becomes a record whose missing properties stay missing.
- Stored values of an unexpected type, such as a name that is a number, an
  `id` that is a string, or a record that is not an object. Each stored
  property is taken to have the type the page writes, or to be missing or
  null. `isArchive` and `focusScore` may also be a number or a string.
- The `setInterval` ticker. Only one tick's value is modelled (`Tick`).
- `Date.now()`, `new Date().toLocaleString('sv-SE')` and `confirm`. They are
  parameters. `alert` is the rejected result of a save.
- `unescapeHtml`, which uses the browser's `DOMParser`, is a parameter of
  the later load. `execCmd`, `addLink` and `resetEditor` drive
  `document.execCommand` and are not modelled.
- Form population in the edit handlers: the form values the save reads are
  its parameter `Form`. The `#btn-edit-task` handler is the edit handler
  applied to the shown task.
- `parseInt` is taken as done. The form's id and time estimate arrive as
  numbers or as "no number", so a non-numeric id in the hidden field is not
  modelled.
- Js.ToLower: lower-cases only the ASCII letters, because Unicode case
  mapping is not modelled.
- Checklist.RoundedPercent: rounds the exact quotient, because floating
  point is not modelled. `calculateProgress` divides in floating point
  before `Math.round`.
- Format.EscapeHtml: takes only a text, missing or null, because the later
  save always passes it the editor's HTML, which is a string.
- Handlers.Session.ReorderFromBuckets: the two entries a reorder makes for
  a task reached through two cards are one object in the page but two
  equal values in the model. A later start, pause or checklist tick writes
  through `tasks.find`, so the page changes both entries and then stores
  two records, for example two running timers; the model changes only the
  first entry. `Timer.StartSpec`'s single running task therefore holds of
  the page only while no two entries are one object. Object identity
  across entries is not modelled.
- The checklist buffer is held by value. In the page, the saved task and
  the buffer share one array until the form is opened again, which resets
  the buffer, so the sharing is not observable through the handlers
  modelled here.
- After a search in the later version, the collection holds only the
  matching records. The next save then writes only those and drops the
  rest from storage. The model has this behaviour (`LoadTasksFiltered`
  followed by `SaveToStorage`), but no lemma is stated about it.
