# LifeOL core, modelled in Dafny

LifeOL ("life online") is a life-tracking app. Users record events that earn experience in six
attributes: intelligence `int`, strength `str`, vitality `vit`, charisma `cha`, emotional
intelligence `eq` and creativity `cre`. Users also keep project tasks and an item inventory, and
they unlock achievements and titles. This project models the rules behind it:

- **`dirlist.py`**: the repository's snapshot tool. It walks a directory tree and writes a report
  with one tree line per kept entry. It filters by exact name and by file extension, sorts each
  directory, and inlines each kept file's text between markers. The file system is a value tree
  (`DirList.Entry`, `DirList.Listing`). The output file is a `Sink` object whose `Write` appends
  one line. The recursive writer is an imperative method proved against a rendering function.
- **`useTasks.ts`**: the project-task updaters: add, edit, update progress with a change log,
  complete, reset and delete. They are pure functions on the task list.
- **`useItems.ts`**: the inventory updaters: add, edit, use, and undo a use within two hours.
- **`achievements.ts`**: `checkAchievements`, which unlocks the achievements earned now, and
  `getAvailableTitles`, which buckets the unlocked titles by attribute. Both are loops with
  invariants, proved against functions that also model the exceptions the code can throw.
- **`AchievementSystem.tsx`**: title selection capped at two titles, the category and tab
  filter, and the counters.
- **`StatusPanel.tsx`**: title selection with one title per attribute.
- **`SevenDaySummaryBadge.tsx`**: the seven-day statistics and the badge selection rule.

Supporting modules:

- `Lists`: the JavaScript array operations.
- `PyText`: the Python string built-ins (`endswith`, the `<` string order, `strip`, `splitlines`).
- `Wrappers`: `Option` and `Result`.

Modelling conventions:

- **Clock and ids.** The clock and generated ids are parameters (`now`, `id`, `createdAt`,
  `timestamp`).
- **Null fields.** A JavaScript field that may be `undefined` or `null` is an `Option`.
- **Exceptions.** An exception that the code can throw is a `Result` failure that carries the
  TypeError message.
- **Promise.** Each operation's contract is stated against an independent description of what
  it promises, and lemmas connect the two.

## Model

| member | source | states |
|---|---|---|
| DirList.Kept | dirlist.py:70-90 | the extension rule (directories always, other non-files never, files unless excluded and, with an allow list, only when allowed); see `DirListFacts.DirectoriesListed`, `DefaultPolicyDropsImages`, `DefaultPolicyKeepsSources` |
| DirList.KeptNames | dirlist.py:66-90 | the names surviving the extension rule, in listing order; see `DirListFacts.KeptNamesMembers`, `KeptDistinct` |
| DirList.ListedNames | dirlist.py:60-93 | the sorted survivors of a directory; see `DirListFacts.ListedNamesMembers`, `ListedIff`, `IgnoredNeverListed`, `ListedStrictlyAscending` |
| DirList.RenderListing | dirlist.py:57-131 | the lines written for a directory; see `DirListFacts.EmptyIff`, `BlockPlacement`, `HeaderLine`, `ListingOrderIrrelevant` |
| DirList.RenderItem | dirlist.py:96-131 | the lines of one survivor; see `DirListFacts.ItemStartsWithHeader` and `DirList.RenderItemCases` |
| DirList.RenderContent | dirlist.py:115-131 | the lines written for a file's content; see `DirListFacts.BlankFileIsOneLine`, `TextFileShape`, `FileLinesReproduced` |
| DirList.ContentLines | dirlist.py:127-128 | one `│ ` line per text line; see `DirListFacts.ContentLinesShape` |
| DirList.Sink.Write | dirlist.py:100 | each `write` appends exactly one line to the report and changes nothing else |
| DirList.VisibleEntries | dirlist.py:60 | an entry is visible exactly when it is listed and its name is not in the ignore list |
| DirList.FilterItems | dirlist.py:66-90 | the filter loop returns the names of the kept entries, in listing order |
| DirList.Find | dirlist.py:69-71 | the entry a joined path denotes has that name and exists, or no entry has that name |
| DirList.GenerateTreeAndReadFiles | dirlist.py:50-131 | the whole report is the lines the rendering of the listing defines, with a denied directory giving one marker line |
| DirList.WriteItems | dirlist.py:95-131 | the write loop's output is the blocks of the sorted survivors, in order |
| DirList.WriteItem | dirlist.py:96-131 | one turn writes the tree line with its branch marker, then the subtree or file content |
| DirList.WriteBody | dirlist.py:102-131 | after a tree line: a directory writes its subtree with the extended prefix, a file its content, any other entry nothing |
| DirList.InlineContent | dirlist.py:115-131 | a file's content is written as the placeholder, the unreadable note, or the marked block the rendering defines |
| DirList.WriteContentBlock | dirlist.py:126-129 | a start marker, one `│ ` line per text line, then an end marker |
| DirList.RenderItemCases | dirlist.py:99-131 | what follows an item's tree line depends only on what its name denotes |
| DirListFacts.KeptNamesMembers | dirlist.py:66-90 | a name survives the extension filter iff some entry of that name is kept by the rule |
| DirListFacts.ListedNamesMembers | dirlist.py:60-93 | a name is listed iff some entry of that name is neither ignored nor dropped by extension |
| DirListFacts.ListedIff | dirlist.py:60-93 | in a directory with distinct names, an entry is listed iff it is not ignored and passes the extension rule |
| DirListFacts.IgnoredNeverListed | dirlist.py:60 | an ignored name never appears, whatever kind of entry it is |
| DirListFacts.ReportFileNeverListed | dirlist.py:12 | the report never lists its own output file |
| DirListFacts.DirectoriesListed | dirlist.py:74-76 | a directory is kept whatever its name ends in, unless it is ignored |
| DirListFacts.DefaultPolicyDropsImages | dirlist.py:22-28 | under the shipped configuration a `.png` file is dropped |
| DirListFacts.DefaultPolicyKeepsDirectories | dirlist.py:74-76 | a directory named like an image is still kept |
| DirListFacts.DefaultPolicyKeepsSources | dirlist.py:84-90 | with an empty allow list, a file that is not excluded is kept |
| DirListFacts.VisibleDistinct | dirlist.py:60 | filtering by name keeps directory names distinct |
| DirListFacts.KeptDistinct | dirlist.py:66-90 | the filtered names contain no duplicates |
| DirListFacts.ListedStrictlyAscending | dirlist.py:93 | after the sort, the listed names are strictly ascending in code-point order |
| DirListFacts.ItemStartsWithHeader | dirlist.py:100 | every item's block starts with its tree line |
| DirListFacts.BlockPlacement | dirlist.py:96-131 | pre-order placement: the earlier blocks, then this item's block, then the later ones |
| DirListFacts.HeaderLine | dirlist.py:95 | the last survivor gets `└── `, every other survivor `├── ` |
| DirListFacts.RenderBetweenLength | dirlist.py:96-100 | a run of items writes at least one line per item |
| DirListFacts.EmptyIff | dirlist.py:95-96 | a readable directory writes nothing iff nothing in it survives, and at least one line per survivor otherwise |
| DirListFacts.ContentLinesShape | dirlist.py:127-128 | one `│ ` line per text line, in order, with the text unchanged |
| DirListFacts.BlankFileIsOneLine | dirlist.py:123-124 | an empty or all-whitespace file gets one placeholder line |
| DirListFacts.TextFileShape | dirlist.py:125-129 | any other file gets a start marker, its `splitlines()` lines, then an end marker |
| DirListFacts.FileLinesReproduced | dirlist.py:120-129 | a file made of newline-ended lines is reproduced line for line |
| DirListFacts.RenderBetweenSame | dirlist.py:96-131 | rendering does not depend on the order of the listing |
| DirListFacts.ListingOrderIrrelevant | dirlist.py:60-131 | the report of a directory does not depend on the order `os.listdir` returns its own entries in (subdirectories taken as given) |
| PyText.Less | dirlist.py:93 | Python's `<` on strings; see `PyText.LessIrreflexive`, `LessTransitive`, `LessTotal` |
| PyText.EndsWith | dirlist.py:80-86 | `str.endswith`; see `DirListFacts.SourceNotExcluded`, `LastCharOfSuffix`, `DefaultPolicyDropsImages` |
| PyText.IsSpace | dirlist.py:123 | the characters `str.isspace()` accepts; see `PyText.StripEmptyIff` |
| PyText.Strip | dirlist.py:123 | `str.strip()`; see `PyText.StripEmptyIff`, `LStripEmptyIff`, `RStripEmptyIff` |
| PyText.Insert | dirlist.py:93 | inserting into a sorted list keeps it sorted and adds exactly the element |
| PyText.SortNames | dirlist.py:93 | `sort()` yields an ascending permutation of its input |
| PyText.AscendingUnique | dirlist.py:93 | the sorted order is determined by the elements alone |
| PyText.LessIrreflexive | dirlist.py:93 | Python's string order is irreflexive |
| PyText.LessTransitive | dirlist.py:93 | Python's string order is transitive |
| PyText.LessTotal | dirlist.py:93 | two distinct strings are always ordered |
| PyText.StripEmptyIff | dirlist.py:123 | `not content.strip()` holds iff the content is empty or all whitespace |
| PyText.LStripEmptyIff | dirlist.py:123 | stripping the left end leaves nothing iff the string is all whitespace, else it starts with a non-space |
| PyText.RStripEmptyIff | dirlist.py:123 | stripping the right end leaves nothing iff the string is all whitespace |
| PyText.FirstBoundary | dirlist.py:127 | the first line break, or the end, with no break before it |
| PyText.SplitLines | dirlist.py:127 | no line contains a break, and an empty text has no lines |
| PyText.SplitLinesOfTerminated | dirlist.py:127 | splitting newline-terminated lines gives exactly those lines back |
| PyText.SplitLinesSingle | dirlist.py:127 | a non-empty text without breaks is one line |
| Tasks.AddProjectEvent | frontend/src/features/tasks/useTasks.ts:14-23 | the new event goes last, carrying the given id and creation time and every field of the supplied data, and the old events are untouched |
| Tasks.LogSumAppend | frontend/src/features/tasks/useTasks.ts:50-52 | appending a log entry adds its change to the logged sum |
| Tasks.EditProjectEvent | frontend/src/features/tasks/useTasks.ts:25-33 | `editProjectEvent`; see `TasksFacts.EditEffect`, `EditEmptyIsIdentity`, `EditIdempotent` |
| Tasks.UpdateProjectEvent | frontend/src/features/tasks/useTasks.ts:35-58 | `updateProjectEvent`; see `TasksFacts.UpdateLogsOneEntry`, `UpdateUnchanged`, `UpdateKeepsBaseline`, `UpdatesKeepBaseline` |
| Tasks.CompleteProjectEvent | frontend/src/features/tasks/useTasks.ts:60-70 | `completeProjectEvent`; see `TasksFacts.CompleteEffect` |
| Tasks.ResetProjectEvent | frontend/src/features/tasks/useTasks.ts:72-84 | `resetProjectEvent`; see `TasksFacts.ResetEffect` |
| Tasks.DeleteProjectEvent | frontend/src/features/tasks/useTasks.ts:86-88 | `deleteProjectEvent`; see `TasksFacts.DeleteEffect`, `DeleteConcat`, `DeleteIdempotent`, `AddThenDelete` |
| TasksFacts.AddThenDelete | frontend/src/features/tasks/useTasks.ts:14-23 | deleting a freshly added event with a new id gives back the original list |
| TasksFacts.EditEffect | frontend/src/features/tasks/useTasks.ts:25-33 | editing changes exactly the events with that id, each by merging in the updates |
| TasksFacts.EditEmptyIsIdentity | frontend/src/features/tasks/useTasks.ts:25-33 | an edit with no fields changes nothing |
| TasksFacts.EditIdempotent | frontend/src/features/tasks/useTasks.ts:25-33 | repeating an edit that keeps the id changes nothing more |
| TasksFacts.UpdateLogsOneEntry | frontend/src/features/tasks/useTasks.ts:35-58 | a matching event whose progress changes gets the new progress and exactly one new log entry with the change, the reason or `''`, and the time |
| TasksFacts.UpdateUnchanged | frontend/src/features/tasks/useTasks.ts:39 | with no matching event, or no progress change, the list is returned as it was |
| TasksFacts.UpdateKeepsBaseline | frontend/src/features/tasks/useTasks.ts:35-58 | an update keeps every event's progress minus its logged changes |
| TasksFacts.UpdatesKeepBaseline | frontend/src/features/tasks/useTasks.ts:35-58 | any run of updates keeps every event's progress minus its logged changes |
| TasksFacts.CompleteEffect | frontend/src/features/tasks/useTasks.ts:60-70 | completing sets progress 100 and the completion time on the matching events only, without logging |
| TasksFacts.ResetEffect | frontend/src/features/tasks/useTasks.ts:72-84 | resetting zeroes the progress and empties the log of the matching events, and keeps their completion time |
| TasksFacts.DeleteEffect | frontend/src/features/tasks/useTasks.ts:86-88 | deleting removes every event with that id and keeps every other event; a single event is dropped iff it has the id, which with `TasksFacts.DeleteConcat` fixes the survivors' order |
| TasksFacts.DeleteConcat | frontend/src/features/tasks/useTasks.ts:86-88 | deletion works piecewise over concatenation |
| TasksFacts.DeleteIdempotent | frontend/src/features/tasks/useTasks.ts:86-88 | deleting an unknown id changes nothing, and deleting twice is deleting once |
| Items.AddItem | frontend/src/features/items/useItems.ts:15-24 | the new item goes last, carrying the given id and creation time and every field of the supplied data, and the others are untouched |
| Items.FindItem | frontend/src/features/items/useItems.ts:46 | `find` returns an item with that id, or none exists |
| Items.UpdateItem | frontend/src/features/items/useItems.ts:26-34 | `updateItem`; see `ItemsFacts.UpdateEffect`, `UpdateKeepsIdentity` |
| Items.UseItem | frontend/src/features/items/useItems.ts:36-43 | `useItem`; see `ItemsFacts.UseEffect`, `UseThenUndo`, `UseThenUndoTooLate` |
| Items.UndoUseItem | frontend/src/features/items/useItems.ts:45-65 | `undoUseItem`; see `ItemsFacts.UndoRefusedIff`, `UndoWithoutTimeAllowed`, `UndoEffect`, `UndoTwiceRefused` |
| ItemsFacts.AddThenFind | frontend/src/features/items/useItems.ts:15-24 | an item added under a fresh id is what a lookup of that id finds, and lookups of the ids already present are unchanged |
| ItemsFacts.UpdateEffect | frontend/src/features/items/useItems.ts:26-34 | on each matching item, every field the patch carries replaces the old one and every field it omits keeps its value; other items are untouched |
| ItemsFacts.UpdateKeepsIdentity | frontend/src/features/items/useItems.ts:26-34 | editing never changes an item's id, creation time, use flag or use time, and leaves the other items untouched |
| ItemsFacts.UseEffect | frontend/src/features/items/useItems.ts:36-43 | using marks the matching items used at the given time and touches nothing else |
| ItemsFacts.UndoRefusedIff | frontend/src/features/items/useItems.ts:45-57 | undo is refused iff there is no such item, the first one is not in use, or more than two hours have passed either way |
| ItemsFacts.UndoWithoutTimeAllowed | frontend/src/features/items/useItems.ts:50 | a used item without a use time can always be undone |
| ItemsFacts.UndoEffect | frontend/src/features/items/useItems.ts:59-64 | a successful undo clears the flag of the matching items, keeps their use time, and changes nothing else |
| ItemsFacts.UseThenUndo | frontend/src/features/items/useItems.ts:36-64 | using and then undoing within two hours leaves the items unused, with the use time recorded |
| ItemsFacts.UseThenUndoTooLate | frontend/src/features/items/useItems.ts:36-57 | undoing more than two hours after the use is refused |
| ItemsFacts.UndoTwiceRefused | frontend/src/features/items/useItems.ts:45-65 | a second undo in a row is refused |
| Achievements.Earned | frontend/src/utils/achievements.ts:250-269 | whether one achievement unlocks now, or the TypeError its level lookup throws; see `AchievementsFacts.ReturnedIff`, `NewlyUnlockedSucceedsIff` |
| Achievements.NewlyUnlocked | frontend/src/utils/achievements.ts:245-273 | what `checkAchievements` returns or throws; see `AchievementsFacts.NewlyUnlockedSucceedsIff`, `NewlyUnlockedValue`, `ReturnedIff`, `ReturnedShape`, and `Achievements.FailureSticks`, `FailureMessage` |
| Achievements.Bucketed | frontend/src/utils/achievements.ts:348-354 | the push loop over the unlocked titles; see `AchievementsFacts.BucketedMeaning` and `Achievements.BucketFailureIsPush` |
| Achievements.CheckAchievements | frontend/src/utils/achievements.ts:245-273 | the loop returns what the unlock rule defines for the achievements, or throws what it defines |
| Achievements.FailureSticks | frontend/src/utils/achievements.ts:248-270 | once one achievement throws, the whole check throws |
| Achievements.FailureMessage | frontend/src/utils/achievements.ts:254 | the only exception is the level lookup on a missing attribute |
| Achievements.EmptyBuckets | frontend/src/utils/achievements.ts:339-346 | the initial buckets are exactly the named keys, all empty |
| Achievements.BucketFailureIsPush | frontend/src/utils/achievements.ts:352 | the only exception bucketing can raise is `push` on a missing bucket |
| Achievements.GetAvailableTitles | frontend/src/utils/achievements.ts:338-357 | the loop returns the bucketing the rule defines for the six source keys, or throws what it defines |
| AchievementsFacts.NewlyUnlockedSucceedsIff | frontend/src/utils/achievements.ts:250-259 | the check throws iff some locked title's level rule names a missing attribute |
| AchievementsFacts.NewlyUnlockedValue | frontend/src/utils/achievements.ts:248-272 | when it returns, the result is the locked, just-earned achievements in input order, each stamped with the unlock time |
| AchievementsFacts.ReturnedIff | frontend/src/utils/achievements.ts:250-268 | with distinct ids, an achievement comes back iff it is locked and its level rule or its condition holds |
| AchievementsFacts.ReturnedShape | frontend/src/utils/achievements.ts:255-267 | every returned achievement is a locked input with only its unlock time changed |
| AchievementsFacts.InitialTitlesThrow | frontend/src/utils/achievements.ts:145-233 | as written, checking the system titles for a new user throws |
| AchievementsFacts.CorrectedTitlesHaveKnownKeys | frontend/src/utils/achievements.ts:145-233 | the corrected titles all carry a level rule on an attribute key, at level 5 or more |
| AchievementsFacts.CorrectedTitlesNeverThrow | frontend/src/utils/achievements.ts:145-233 | with requirements named by attribute keys, the check never throws on a full attribute record |
| AchievementsFacts.NewUserHasNoTitle | frontend/src/utils/achievements.ts:145-233 | with those requirements, a new user at level 1 has earned none of them |
| AchievementsFacts.BucketedMeaning | frontend/src/utils/achievements.ts:350-353 | bucketing succeeds iff every title with a requirement has a bucket, and each bucket then holds its titles in order |
| AchievementsFacts.AvailableTitlesExact | frontend/src/utils/achievements.ts:338-357 | success iff every unlocked title's requirement is a bucket key, and each bucket then holds exactly the unlocked titles for it, in order |
| AchievementsFacts.UnlockedTitlesHaveBuckets | frontend/src/utils/achievements.ts:349-351 | the unlocked-title filter keeps exactly the achievements that are titles and are unlocked |
| AchievementsFacts.CustomStrengthTitleThrows | frontend/src/utils/achievements.ts:339-353 | as written, one unlocked custom title for `str` makes the call throw |
| AchievementsFacts.AvailableTitlesCorrected | frontend/src/utils/achievements.ts:338-357 | with the six attribute keys as buckets, titles for attribute keys never throw, and each bucket holds exactly its titles |
| AchievementView.CappedSelection | frontend/src/components/AchievementSystem.tsx:227-245 | the selection after a click; see `AchievementView.CappedSelectionCases`, `CapPreserved`, `ToggleRoundTrip` |
| AchievementView.FilteredItems | frontend/src/components/AchievementSystem.tsx:191-216 | the list shown; see `AchievementView.FilteredItemsExact`, `FilteredItemsMembers`, `TabsPartition` |
| AchievementView.AchievementUnlockedCount | frontend/src/components/AchievementSystem.tsx:219 | unlocked achievements; see `AchievementView.CountsBounded`, `CountsMatchTabs` |
| AchievementView.AchievementTotalCount | frontend/src/components/AchievementSystem.tsx:220 | all achievements; see `AchievementView.CountsBounded`, `CountsMatchTabs` |
| AchievementView.TitleUnlockedCount | frontend/src/components/AchievementSystem.tsx:221 | unlocked titles; see `AchievementView.CountsBounded`, `CountsMatchTabs` |
| AchievementView.TitleTotalCount | frontend/src/components/AchievementSystem.tsx:222 | all titles; see `AchievementView.CountsBounded`, `CountsMatchTabs` |
| AchievementView.HandleTitleSelect | frontend/src/components/AchievementSystem.tsx:227-245 | the handler yields the capped selection |
| AchievementView.CappedSelectionCases | frontend/src/components/AchievementSystem.tsx:231-242 | the three outcomes: deselect the clicked title, add it when fewer than two are selected, or replace the first |
| AchievementView.CapPreserved | frontend/src/components/AchievementSystem.tsx:227-245 | at most two distinct titles stay so, and the clicked title ends up selected iff it was not selected before |
| AchievementView.ToggleRoundTrip | frontend/src/components/AchievementSystem.tsx:227-245 | clicking a fresh title twice, with room for it, changes nothing |
| AchievementView.FilteredItemsExact | frontend/src/components/AchievementSystem.tsx:191-216 | the list shown is the achievements that belong to the category and tab, in order |
| AchievementView.FilteredItemsMembers | frontend/src/components/AchievementSystem.tsx:191-216 | an achievement is shown iff it is present and belongs to the category and tab |
| AchievementView.TabsPartition | frontend/src/components/AchievementSystem.tsx:208-215 | the unlocked and locked tabs split a category's full list |
| AchievementView.CountsBounded | frontend/src/components/AchievementSystem.tsx:219-222 | each unlocked count is at most its total, and the two totals cover every achievement |
| AchievementView.CountsMatchTabs | frontend/src/components/AchievementSystem.tsx:219-222 | totals equal the full lists' lengths, and unlocked counts are at most the unlocked tabs' lengths, equal when no unlock time is `""` |
| StatusPanel.AttributeSelection | frontend/src/components/StatusPanel.tsx:24-50 | the selection after a pick; see the `StatusPanelFacts` lemmas below |
| StatusPanel.FindAchievement | frontend/src/components/StatusPanel.tsx:27-29 | `find` returns an achievement with that id, or none exists |
| StatusPanel.HandleTitleSelect | frontend/src/components/StatusPanel.tsx:24-50 | the splice loop yields the per-attribute selection: deselect, or sweep out the attribute's titles and append the new one |
| StatusPanelFacts.DeselectRemovesOnlyIt | frontend/src/components/StatusPanel.tsx:31-33 | deselecting removes that one id once and nothing else |
| StatusPanelFacts.SelectKeepsOthersInOrder | frontend/src/components/StatusPanel.tsx:35-47 | a new pick goes last, and the other attributes' titles and unknown ids stay in their old order |
| StatusPanelFacts.SelectSweepsAttribute | frontend/src/components/StatusPanel.tsx:38-43 | after a new pick, no other title of that attribute remains, and nothing new appears |
| StatusPanelFacts.UnknownIdsKept | frontend/src/components/StatusPanel.tsx:27-29 | a selected id with no achievement behind it is never swept out |
| StatusPanelFacts.OtherAttributesKept | frontend/src/components/StatusPanel.tsx:38-43 | titles of other attributes are never swept out |
| StatusPanelFacts.OneTitlePerAttribute | frontend/src/components/StatusPanel.tsx:24-50 | after a pick, the picked title is the only one of its attribute |
| SevenDaySummary.Recent | frontend/src/components/SevenDaySummaryBadge.tsx:20-28 | the events of the last seven days; see `SevenDaySummaryFacts.RecentMembers` |
| SevenDaySummary.TierBadge | frontend/src/components/SevenDaySummaryBadge.tsx:212-222 | the total-experience badge; see `SevenDaySummaryFacts.TierRule` |
| SevenDaySummary.ThresholdBadge | frontend/src/components/SevenDaySummaryBadge.tsx:234-277 | the dominant attribute's badge by its thresholds; see `SevenDaySummaryFacts.AttributeRule` |
| SevenDaySummary.AttributeBadge | frontend/src/components/SevenDaySummaryBadge.tsx:225-279 | the attribute badge; see `SevenDaySummaryFacts.AttributeRule`, `AttributeNotBreakthrough` |
| SevenDaySummary.ShownBadge | frontend/src/components/SevenDaySummaryBadge.tsx:208-301 | the badge shown; see `SevenDaySummaryFacts.ShownRule`, `WellRoundedNeedsForeignKeys`, `WellRoundedWithForeignKeys` |
| SevenDaySummary.AddEntries | frontend/src/components/SevenDaySummaryBadge.tsx:46-51 | every entry adds to the total, and only the six known keys add to their gains |
| SevenDaySummary.SevenDayStats | frontend/src/components/SevenDaySummaryBadge.tsx:19-60 | the total is the sum of all recent entries, each gain the sum for its key, and the count the number of recent events |
| SevenDaySummary.EntriesTotalAppend | frontend/src/components/SevenDaySummaryBadge.tsx:50 | the total of two runs of entries is the sum of their totals |
| SevenDaySummary.EntriesGainAppend | frontend/src/components/SevenDaySummaryBadge.tsx:48 | a key's gain over two runs of entries is the sum of its gains in each |
| SevenDaySummary.FirstMax | frontend/src/components/SevenDaySummaryBadge.tsx:225-226 | the `reduce` picks the first position holding the largest gain |
| SevenDaySummary.SortDescending | frontend/src/components/SevenDaySummaryBadge.tsx:230 | the sort yields a descending permutation of the gains |
| SevenDaySummary.PushTierBadge | frontend/src/components/SevenDaySummaryBadge.tsx:212-222 | at most the one total-experience badge the thresholds define is pushed |
| SevenDaySummary.PushAttributeBadge | frontend/src/components/SevenDaySummaryBadge.tsx:225-279 | at most the one attribute badge the dominance rule defines is pushed |
| SevenDaySummary.SelectBadge | frontend/src/components/SevenDaySummaryBadge.tsx:208-301 | the badge shown is the first satisfied badge, or the default one |
| SevenDaySummaryFacts.RecentMembers | frontend/src/components/SevenDaySummaryBadge.tsx:20-28 | an event counts iff it lies from six days before now up to now, both ends included |
| SevenDaySummaryFacts.TotalSplits | frontend/src/components/SevenDaySummaryBadge.tsx:46-51 | the total is the six gains plus the entries for other keys |
| SevenDaySummaryFacts.SixGains | frontend/src/components/SevenDaySummaryBadge.tsx:34-53 | the six reported gains add up to the sum of the six per-key sums |
| SevenDaySummaryFacts.AllEntriesFrom | frontend/src/components/SevenDaySummaryBadge.tsx:44-46 | every counted entry comes from some event |
| SevenDaySummaryFacts.TierRule | frontend/src/components/SevenDaySummaryBadge.tsx:212-222 | each threshold band gives its own badge, plain covers -50 up to but not including 50, and below -50 gives none |
| SevenDaySummaryFacts.SortedTopTwo | frontend/src/components/SevenDaySummaryBadge.tsx:230-231 | the sorted gains start with the maximum, then the largest of the other positions |
| SevenDaySummaryFacts.AttributeRule | frontend/src/components/SevenDaySummaryBadge.tsx:225-279 | the attribute badge goes to an attribute whose gain is positive, at least 1.5 times every other gain, and past that attribute's threshold |
| SevenDaySummaryFacts.ShownRule | frontend/src/components/SevenDaySummaryBadge.tsx:208-301 | a tier badge is shown whenever the total is at least -50, otherwise the attribute badge, then well-rounded, then default; never breakthrough |
| SevenDaySummaryFacts.KnownKeysTotal | frontend/src/components/SevenDaySummaryBadge.tsx:44-53 | when every key is one of the six attributes, the total is the sum of the six gains |
| SevenDaySummaryFacts.WellRoundedNeedsLowTotal | frontend/src/components/SevenDaySummaryBadge.tsx:283-291 | the badge shown is never well-rounded when the total is the sum of the six gains |
| SevenDaySummaryFacts.WellRoundedNeedsForeignKeys | frontend/src/components/SevenDaySummaryBadge.tsx:44-291 | if every key is one of the six attributes, well-rounded is never shown |
| SevenDaySummaryFacts.WellRoundedWithForeignKeys | frontend/src/components/SevenDaySummaryBadge.tsx:283-291 | well-rounded is shown when other keys pull the total below -50 and the six gains are equal and at least 10 |
| Lists.Filter | frontend/src/components/AchievementSystem.tsx:197 | `filter` keeps only passing elements of the list, every passing element is kept, and the list never grows |
| Lists.FilterCount | frontend/src/components/AchievementSystem.tsx:197 | `filter` keeps every copy of a passing element and no copy of a failing one |
| Lists.MapWhere | frontend/src/features/tasks/useTasks.ts:27-31 | the conditional `map` replaces exactly the selected elements |
| Lists.IndexOf | frontend/src/components/AchievementSystem.tsx:229 | `indexOf` is the first position of the element, or -1 iff it is absent |
| Lists.RemoveAt | frontend/src/components/AchievementSystem.tsx:233 | `splice(i, 1)` drops position `i` and shifts the rest down |
| Lists.RemoveFirst | frontend/src/components/StatusPanel.tsx:31-33 | removing the first occurrence takes one copy out of the multiset |
| Lists.SpliceIndexOf | frontend/src/components/StatusPanel.tsx:31-33 | `splice(indexOf(x), 1)` removes the first occurrence of `x` |

## Left out

- `dirlist.py` `main()` is not modelled. It resolves the start directory, opens the report file
  and prints messages, which is I/O.
- File reading is not modelled byte by byte. A file's contents are the decoded text, or a read
  error with its message. UTF-8 decoding with `errors='ignore'` is not modelled.
- DirList.GenerateTreeAndReadFiles: `os.listdir` failing with any error other than
  `PermissionError` is not modelled. The source catches only `PermissionError` (dirlist.py:57-63),
  so another error (a directory removed mid-walk, say) goes up through every recursive call to
  `main`'s handler (dirlist.py:169-170), and the report stops part-way. `Listing` has only the
  listed and the denied outcomes.
- Symbolic links and paths are not modelled. `os.path.join` and `isdir`/`isfile` are the entry's
  kind in the value tree.
- The code drops entries that are neither files nor directories (its filter adds only those
  two kinds). A description of the tool lists such entries. The model follows the code.
- PyText.SplitLines: splits at the line boundaries Python's `str.splitlines()` uses, with `"\r\n"`
  as one break. Proofs about the report cover the text that those boundaries define.
- PyText.IsSpace: the whitespace set is Python's `str.isspace()` set, written out as code points.
- Concurrency and persistence are not modelled. This covers React state, `useMemo`, `useEffect`,
  and loading or saving to storage. The hooks are modelled as functions from the old list to the
  new one.
- `Date.now()` identifiers and `new Date().toISOString()` times are parameters. Achievements.NewlyUnlocked
  stamps every achievement unlocked in one call with the same `now`, while the source reads the
  clock once per unlocked achievement (frontend/src/utils/achievements.ts:257 and 266), so its
  stamps can differ by the time the loop takes.
- Date arithmetic is not modelled. The seven-day window is "six days of milliseconds before now".
  This misses daylight-saving days, the calendar behaviour of `setDate`, and invalid dates.
- Items.UseItem: `useItem` and `undoUseItem` read the `items` of the render they were created in,
  not the latest state. The model applies them to the list they are given.
- Items.UndoUseItem: the `alert` shown on a refusal is left out. The refusal itself, `null`, is
  `None`.
- Tasks.Merge, Items.Merge: a patch field that is present but explicitly `undefined` is treated as
  absent (spread copies the `undefined`).
- AchievementView.FilteredItems: unlock times are `string | null`. An `undefined` unlock time,
  which `!== null` treats as unlocked, is not modelled.
- Hidden record keys are not modelled. This covers keys on the object prototype, which
  `hasOwnProperty` and `attributes[key]` would see.
- Achievements.Earned: an achievement's `condition` closure is named by a string. Its value on
  the current attributes and events is the parameter `holds`. A closure that throws is not
  modelled. The closures of the initial achievements at frontend/src/utils/achievements.ts:34,
  43, 53 and 73 read `attributes.phy`, `attributes.wil` and `attributes.men`, so on a real
  attribute record they throw, and they come before the titles in the list.
- AchievementsFacts.CorrectedTitlesNeverThrow, AchievementsFacts.NewUserHasNoTitle: cover the
  system titles only. The whole initial list still throws at its first closure, because the
  model does not see into closures.
- `calculateAchievementProgress`, attribute decay and the other helpers in `achievements.ts` are
  not modelled. Nor is the older `src/` tree, or the backend.
- The badge count and badge list (`allBadges`) of `AchievementSystem.tsx` are not modelled.
- Rendering is not modelled: icons, titles, descriptions and colours.
- The `breakthrough` badge is defined but never pushed by the code.
  SevenDaySummaryFacts.ShownRule states that it is never shown.
- Floating-point arithmetic is not modelled. Experience values and task progress are integers.
  Task progress is an arbitrary number in the source: the task form accepts fractions
  (frontend/src/features/tasks/TaskManager.tsx:477 and 666). TasksFacts.UpdateKeepsBaseline and
  TasksFacts.UpdatesKeepBaseline rely on exact subtraction, so under doubles the logged changes
  can miss the progress by rounding. The test "at least
  1.5 times the runner-up" is written exactly, as `2 * first >= 3 * second`.
- SevenDaySummary.SevenDayStats: the six gains are returned as a sequence in the order
  `int, str, vit, cha, eq, cre`, not as a record.

## Findings

| source | as written | input that shows it | evidently intended | confidence | as-written member | corrected member |
|---|---|---|---|---|---|---|
| frontend/src/utils/achievements.ts:175-219 | four system titles require the attributes `phy`, `wil` and `men`, which the `Attributes` record (frontend/src/types/app.types.ts:6-13) does not have, so `attributes[req].level` throws at line 254; the condition closures of the same initial list read the same missing keys (`attributes.phy.level` at lines 34 and 43, `attributes.wil.level` at 53, `attributes.men.level` at 73) and, coming first in the list, throw even before the titles are reached | a new user with every attribute at level 1, and the initial achievements none unlocked | every requirement and every closure of the initial list names `str`, `vit` and `eq` in place of `phy`, `wil` and `men`, after the achievements' own ids; the corrected member covers the titles only, since closures are not modelled | not executed | AchievementsFacts.InitialTitlesThrow | AchievementsFacts.CorrectedTitlesNeverThrow |
| frontend/src/utils/achievements.ts:339-353 | the buckets are `int, phy, wil, cha, men, cre`, so an unlocked title for `str`, `vit` or `eq` (the keys the title form offers, frontend/src/components/AchievementSystem.tsx:992) makes `titles[req].push` throw | one unlocked custom title with requirement `str` | one bucket per attribute key | not executed | AchievementsFacts.CustomStrengthTitleThrows | AchievementsFacts.AvailableTitlesCorrected |
