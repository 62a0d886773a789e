# Reading-list engine, modelled in Dafny

This project models the engine behind a browser reading-list app, without its DOM. It has three
stateful parts and a handful of pure helpers.

- **The item store and session tracker** (`ReadingTracker`). It keeps an ordered list of reading
  items and supports these operations:
  - add at the front
  - change status, priority or progress
  - edit an item
  - delete with an undo buffer, undo, and undo expiry
  - start and end a single active reading session; ending one folds a floored-seconds duration into
    the item's `timeSpent` and appends a session record
  - recompute the tag universe and the status counters on every save
- **The query engine** (`getFilteredItems`). It is a fixed pipeline of filters: status, priority
  set, inclusive progress range, inclusive date range, tags (any/all), and case-insensitive
  substring search. A stable sort by one of ten keys follows.
- **The achievement engine** (`AchievementManager`). It has a fixed ten-entry catalog and
  statistics over the items, including a backward day-streak loop. A one-shot award pass adds
  points and sets `level = points / 100 + 1`. A save/load overlay restores the earned set and dates.
- **Pure helpers**: tag normalisation, duration formatting (`formatTime`), relative-time formatting,
  and status counting.

Modules, one per file:

| file | module | contents |
|---|---|---|
| `wrappers.dfy` | `Wrappers` | `Option` |
| `text.dfy` | `Text` | lower-casing, trimming, decimal rendering of integers |
| `items.dfy` | `Items` | the `Item` record (the `ReadingItem` defaults), first-match lookup, session closing, status counts, item storage |
| `tags.dfy` | `Tags` | tag normalisation and the duplicate-free tag list |
| `format.dfy` | `Format` | `formatTime`, `formatRelativeTime` |
| `sorting.dfy` | `Sorting` | the stable sort, as a function and as an in-place insertion sort on an array |
| `query.dfy` | `Query` | the filter pipeline and the ten sort keys |
| `stats.dfy` | `Statistics` | `calculateStats`, including the streak loop |
| `achievements.dfy` | `Achievements` | the catalog, the award pass, save/load, and the `AchievementManager` class |
| `tracker.dfy` | `Tracker` | the `ReadingTracker` class, plus one pure function per operation that states its effect on the tracker's fields |

Modelling choices:

- **The clock.** Every operation that reads the clock takes `now`, in integer milliseconds.
- **Calendar and hours.** The calendar day and the local hour of a timestamp come from a
  `Calendar` value, which has the fields `dayOf` and `hourOf`.
- **Title order.** The order used by `localeCompare` is an abstract comparator, `collation`. The
  sort lemmas require it to be a total preorder.
- **Items are values.** Items are `Item` values in the tracker's `items: seq<Item>`. Writing a field
  of "the item with this id" replaces the element at the first index with that id, because the
  source uses `Array.find`. The undo buffer holds copies of the items. The source never writes to
  an item after deleting it, so the sharing between the buffer and the list cannot be observed.
- **Ranks in the sort.** Both priority rank tables are written out as the source has them.
  `priority-asc` inverts the table and keeps the `b - a` comparison; `Query.PriorityOrdersMirror`
  proves that this is the exact mirror of `priority-desc`: low, then medium, then high.
- **Specification functions.** Each tracker operation is a method of the `ReadingTracker` class.
  Each method's `ensures` ties the new field values (`Fields()`, a `View` record) to a pure function
  of the old ones: `AfterAdd`, `AfterWrite`, `AfterStart`, `AfterEnd`, `AfterProgress`,
  `AfterOpenEdit`, `AfterEdit`, `AfterCloseEdit`, `AfterDelete`, `AfterUndo`, `AfterExpire`. The properties the source promises are lemmas about
  those functions.
- **Award pass.** The award pass works the same way. `CheckAchievements` is tied to `AwardAll`,
  `Progressed` and `AfterCheck`.

## Model

| member | source | states |
|---|---|---|
| Text.LowerChar | script.js:820-824 | the lower-cased character is never one of the modelled capitals; ASCII, Latin-1, Greek and Cyrillic capitals move up by 32 to their small letters and every other character is unchanged |
| Text.ToLower | script.js:424 | lower-casing keeps the length and maps each character through `LowerChar` |
| Text.ToLowerIdempotent | script.js:820-824 | lower-casing twice equals lower-casing once |
| Text.TrimStart | script.js:458 | the result is a suffix of the input, starts with a non-space, and everything dropped is white space |
| Text.TrimEnd | script.js:458 | the result is a prefix of the input, ends with a non-space, and everything dropped is white space |
| Text.Trim | script.js:458-459 | the trimmed string is an infix of the input with white space only around it, and neither starts nor ends with white space |
| Text.TrimOfTrimmed | script.js:458-459 | trimming a string that is already trimmed returns it unchanged |
| Text.NatToString | script.js:4 | the decimal rendering is non-empty, all digits, and has no leading zero |
| Text.DigitChar | script.js:4 | a digit below ten renders as a character from '0' to '9' |
| Text.NatToStringRoundTrip | script.js:4 | reading the decimal rendering of n back gives n |
| Text.IntToString | script.js:1379 | a negative number renders as a minus sign followed by the rendering of its magnitude |
| Items.FindIndex | script.js:1286 | the first index whose id matches; None exactly when no item has that id |
| Items.FindIndexSameIds | script.js:1312 | two lists with the same ids at every position find the same index |
| Items.NewItem | script.js:1-17 | a new item keeps its id, title, url, tags and date, and starts unread at progress 0, with no time, no last read, no sessions, medium priority and empty notes |
| Items.ElapsedSeconds | script.js:1314 | the duration is the floor of the elapsed milliseconds divided by 1000; it is never negative when the clock has not gone back |
| Items.CloseSession | script.js:1313-1326 | `timeSpent` grows by exactly the duration, one session record with that duration is appended, and nothing else changes |
| Items.StatusCountsCover | script.js:1768-1786 | the three status counts add up to the number of items |
| Items.StatusCounts | script.js:1768-1786 | the counting loop returns the number of items with each status |
| Items.SumTimeAppend | achievements.js:167 | total time spent over a concatenation is the sum over the parts |
| Items.SumTimeUpdate | achievements.js:167 | replacing one item changes the total time by the difference of the two `timeSpent` values |
| Items.SaveItems | script.js:573-574 | saving stores every item with its tags present |
| Items.LoadItems | script.js:557-571 | no stored data loads as the empty list; otherwise every item loads as stored, and a missing tag list becomes the empty list |
| Items.SaveLoadRoundTrip | script.js:557-574 | loading what was saved gives back the same items |
| Tags.KeepWordOrSpace | script.js:424 | dropping the other characters keeps only word and space characters, loses none of them, and leaves a string that already has only those unchanged |
| Tags.NormaliseTag | script.js:421-424 | a normalised tag is empty or lower case, word and space characters only, and trimmed; it is empty exactly when the raw text has no word character |
| Tags.NormalisedShape | script.js:424 | lower-casing, filtering and trimming, in that order, give the normal-tag shape; the result is empty exactly when no word character was present |
| Tags.InfixChars | script.js:424 | trimming a lower-case string of word and space characters gives a string that is empty or has the normal-tag shape |
| Tags.NoUpperKept | script.js:424 | filtering a lower-case string keeps it lower case |
| Tags.WordCharSurvives | script.js:424 | a word character in the raw text survives normalisation, so the tag is not empty |
| Tags.OnlySpaceSurvives | script.js:421-424 | raw text with no word character normalises to the empty tag |
| Tags.NormaliseTagIdempotent | script.js:424 | normalising a normalised tag changes nothing |
| Tags.AddTag | script.js:420-434 | a tag is appended only when it is non-empty and new; the tag list stays duplicate-free and well formed |
| Tags.WellFormedSnoc | script.js:426-428 | appending a new normal tag keeps the list well formed |
| Tags.AddExistingTag | script.js:426 | adding a tag that is already present changes nothing |
| Tags.TagSet | script.js:1678 | the set built from a tag list holds the same tags, each once; a duplicate-free list is kept as it is |
| Tags.RemoveTag | script.js:449 | deleting a tag removes exactly that tag and keeps the list duplicate-free and well formed |
| Tags.ConsNoRepeats | script.js:449 | putting back the head of a duplicate-free list in front of a duplicate-free sublist of its tail stays duplicate-free |
| Format.FormatTime | script.js:1376-1379 | below 60 seconds the text is the number followed by "s" |
| Format.FormatTimeMinutes | script.js:1380-1384 | from 60 to 3599 seconds the text is "Xm Ys" with Y < 60 and 60X + Y equal to the input |
| Format.FormatTimeHours | script.js:1385-1387 | from 3600 seconds on the text is "Xh Ym" with Y < 60, X whole hours, Y whole minutes |
| Format.FormatRelativeTime | script.js:759-771 | an age under one minute reads "Just now" |
| Format.RelativeTimeMeaning | script.js:759-771 | whole days, hours or minutes ago by the age thresholds; "Just now" exactly when the age is under a minute |
| Sorting.Insert | script.js:830-857 | inserting adds exactly one element |
| Sorting.InsertPermutes | script.js:830 | inserting adds x to the multiset and nothing else |
| Sorting.Sort | script.js:830-857 | the sort keeps the length |
| Sorting.SortPermutes | script.js:830 | the sorted list is a permutation of the input |
| Sorting.InsertSorted | script.js:830 | inserting into a sorted list under a total preorder keeps it sorted |
| Sorting.InsertFrom | script.js:830 | every element of an insertion result is the inserted element or an element of the list |
| Sorting.SnocSorted | script.js:830 | appending an element that every element may precede keeps a list sorted |
| Sorting.SortSorted | script.js:830 | the result is sorted under a total preorder |
| Sorting.TiedWithAppend | script.js:830 | the elements tied with a key in a concatenation are those of the first part followed by those of the second |
| Sorting.InsertTied | script.js:830 | inserting keeps the relative order of the elements tied with any key and adds x last among its ties |
| Sorting.SortStable | script.js:830 | elements with equal keys keep their input order |
| Sorting.SortStableFor | script.js:830 | for each key, the tied elements appear in the output in input order |
| Sorting.SortAllTied | script.js:855-856 | when the comparator ties everything (unknown sort key), the order is unchanged |
| Sorting.TiedWithMembers | script.js:830 | the elements tied with a key are exactly the list's elements with that key |
| Sorting.SortIsTheStableSort | script.js:830 | any sorted, stable permutation of the input is the model's sort result |
| Sorting.StableSortUnique | script.js:830 | two sorted permutations with the same order among ties are equal |
| Sorting.SameLength | script.js:830 | permutations have the same length |
| Sorting.DropLast | script.js:830 | removing the last element removes it from the multiset |
| Sorting.SameLast | script.js:830 | two sorted lists with the same tie orders end in the same element |
| Sorting.DropLastTied | script.js:830 | removing the same last element keeps tie orders equal |
| Sorting.SortInPlace | script.js:830-857 | sorting the array in place leaves in it the stable sort of its old contents |
| Sorting.InsertInPlace | script.js:830 | one insertion step places a[i] into the sorted prefix and leaves the rest of the array unchanged |
| Sorting.Placed | script.js:830 | after the shift, the prefix is the old prefix with x at the gap |
| Sorting.InsertAt | script.js:830 | inserting x where the scan stopped is the functional insertion |
| Query.Filter | script.js:778 | a filter never lengthens the list |
| Query.FilterCount | script.js:778 | each element keeps its multiplicity when it passes the test and drops to 0 otherwise |
| Query.FilterMembers | script.js:778 | the filtered list holds exactly the input elements that pass the test, as a sub-multiset |
| Query.FilterAppend | script.js:778 | filtering distributes over concatenation |
| Query.FilterSkip | script.js:903 | an element that fails the test does not appear in the output |
| Query.FilterDropsOne | script.js:903 | filtering out one failing element from an otherwise passing list gives the list without it |
| Query.FilterSame | script.js:778 | filters with the same test give the same result |
| Query.FilterAll | script.js:789-792 | a test everything passes keeps the list as it is |
| Query.FilterThen | script.js:776-827 | filtering by p and then by q is filtering by p and q together |
| Query.Step | script.js:776-827 | one stage of the pipeline, active or skipped, extends the conjunction of the tests so far |
| Query.StatusStage | script.js:776-779 | the status stage keeps items with the chosen status, or all when the filter is 'all' |
| Query.PriorityStage | script.js:781-786 | the priority stage keeps items whose priority is in a non-empty set |
| Query.ProgressStage | script.js:788-792 | the progress stage keeps items whose progress lies in the inclusive range |
| Query.DateStage | script.js:794-802 | the date stage keeps items whose date lies within each bound that is present |
| Query.TagsStage | script.js:804-816 | the tags stage keeps items with some (any mode) or every (all mode) active tag |
| Query.SearchStage | script.js:818-827 | the search stage keeps items whose lower-cased title, url or some tag contains the lower-cased query |
| Query.ChainIsFilter | script.js:776-827 | the whole pipeline is one filter by the conjunction of all the criteria |
| Query.SortModeOf | script.js:830-857 | a sort name maps to no ordering exactly when it is not one of the ten keys |
| Query.Precedes | script.js:830-857 | with no ordering every pair ties; every key other than the title keys relates every pair one way or the other |
| Query.PrecedesTotal | script.js:830-857 | every sort key is a total preorder, the title keys whenever the collation is one |
| Query.PriorityOrdersMirror | script.js:836-841 | `priority-asc` is exactly `priority-desc` reversed; `priority-desc` puts high before medium before low |
| Query.FilteredItems | script.js:773-866 | the result is a sub-multiset of the items and no longer than them |
| Query.FilteredItemsContents | script.js:773-866 | the result holds exactly the items that meet every active criterion, each with its multiplicity in the list |
| Query.FilteredItemsOrder | script.js:830-857 | the result is sorted by the chosen key, and items with equal keys keep their list order |
| Query.FilteredItemsUnsorted | script.js:855-856 | an unknown sort key leaves the filtered order unchanged |
| Statistics.StatsOf | achievements.js:149-182 | the completed count is at most the total, which is the number of items; the streak is zero exactly when today has no session; all priorities are used exactly when low, medium and high occur |
| Statistics.Streak | achievements.js:154-161 | the streak is zero exactly when the starting day has no session, and never exceeds the number of session days |
| Statistics.FastestCompletion | achievements.js:169-171 | the fastest completion is infinite exactly when no item is a completed item with non-zero time |
| Statistics.WindowSize | achievements.js:157-161 | the window of the last k days has k days |
| Statistics.StreakCharacterisation | achievements.js:154-161 | every one of the streak's days has a session, and the day just before them has none |
| Statistics.StreakUnique | achievements.js:154-161 | any k with sessions on the last k days and none on day today-k is the streak |
| Statistics.FastestCompletionSpec | achievements.js:169-171 | infinite exactly when no completed item has non-zero time; otherwise the minimum time over those items, attained by one of them |
| Statistics.UsedAllPrioritiesIff | achievements.js:172 | three distinct priorities were used exactly when low, medium and high all occur |
| Statistics.SubsetSize | achievements.js:172 | a subset is no larger than its superset |
| Statistics.CalculateStats | achievements.js:149-182 | the method computes the statistics record of the items at `now` |
| Statistics.ReadingStreak | achievements.js:154-161 | the backward day loop stops at the first day without a session and returns the streak |
| Achievements.NewAchievement | achievements.js:1-12 | a new achievement is unearned, has no date, and keeps its id, rule and points |
| Achievements.CatalogFacts | achievements.js:28-111 | the catalog has ten unearned entries with distinct ids and positive points |
| Achievements.InitialsDistinct | achievements.js:31-103 | the ten catalog ids start with distinct characters |
| Achievements.EntryInitial | achievements.js:31-103 | each catalog id is non-empty, starts with its listed character, and has positive points |
| Achievements.Cleared | achievements.js:113-147 | clearing keeps every entry's identity and makes it unearned with no date |
| Achievements.AddId | achievements.js:192 | adding an id to the earned set contains it afterwards, adds nothing else, and keeps the set duplicate-free |
| Achievements.AddAllSpec | achievements.js:192 | adding a sequence of ids adds exactly those ids, keeps the set duplicate-free, and appends them when they are all new |
| Achievements.Award | achievements.js:189-191 | an achievement is earned afterwards exactly when it was earned before or its rule holds; an earned one is unchanged; a newly earned one is dated now |
| Achievements.AwardAll | achievements.js:188-199 | the award pass keeps the catalog length |
| Achievements.PrefixStep | achievements.js:188-199 | one more catalog entry adds its points, recomputes the level and records its id exactly when it is newly earned |
| Achievements.ProgressedPoints | achievements.js:188-199 | one pass adds exactly the points of the newly earned achievements; afterwards the level is points / 100 + 1; with nothing new, progress is unchanged |
| Achievements.Progressed | achievements.js:188-198 | the award pass never lowers the points |
| Achievements.AfterCheck | achievements.js:184-203 | a check keeps the catalog size, never lowers the points, and writes storage only when something was newly earned |
| Achievements.AnyNewSnoc | achievements.js:189 | something is newly earned in a list exactly when it is in the prefix or the last entry |
| Achievements.NewlyEarned | achievements.js:189 | the newly earned achievements are exactly those unearned whose rule holds |
| Achievements.ProgressedIds | achievements.js:192 | after the pass, the earned ids are the old ones plus the newly earned ones, without duplicates |
| Achievements.AwardKeepsConsistent | achievements.js:188-199 | the pass keeps the earned flags and the earned-id set in agreement, and never changes an entry's identity |
| Achievements.AwardIdempotent | achievements.js:189-202 | a second pass over the same statistics awards nothing, changes nothing, and leaves progress as it was |
| Achievements.EarnedDatesKeys | achievements.js:140-145 | the saved date map has a key exactly for each earned achievement |
| Achievements.EarnedDateOf | achievements.js:140-145 | each earned achievement's date is saved under its id |
| Achievements.DistinctPrefix | achievements.js:140-145 | a prefix of a catalog with distinct ids has distinct ids |
| Achievements.LoadedAchievement | achievements.js:122-127 | loading marks an achievement earned exactly when it was earned already or its id is in the saved set, and keeps its identity |
| Achievements.Overlay | achievements.js:122-127 | the overlay keeps the catalog length |
| Achievements.LoadConsistent | achievements.js:113-130 | after loading, the earned flags agree with the earned-id set, and the entries are the catalog's |
| Achievements.SaveLoadRoundTrip | achievements.js:113-147 | loading a snapshot restores every earned flag and date, the points, the level as stored, and the earned-id set |
| Achievements.EarnedOnly | achievements.js:233 | the earned list holds exactly the earned achievements |
| Achievements.EarnedOnlyAppend | achievements.js:233 | the earned list of a concatenation is the earned list of each part in turn, so the catalog order is kept |
| Achievements.SpeedReaderRule | achievements.js:71-76 | `speed_reader` holds exactly when some completed item with non-zero time took at most 1800 seconds |
| Achievements.StreakRule | achievements.js:39-44 | `reading_streak` holds exactly when each of the last five days has a session |
| Achievements.TimeRule | achievements.js:47-52 | `time_spent` holds exactly when total time spent is at least 7200 seconds |
| Achievements.AfterCheckIdempotent | achievements.js:184-203 | checking twice with the same statistics gives the state after checking once |
| Achievements.AchievementManager.constructor | achievements.js:14-26 | the manager starts from the catalog overlaid with the stored progress |
| Achievements.AchievementManager.LoadProgress | achievements.js:113-130 | loading overlays the stored earned set and dates on the catalog and takes the stored points and level |
| Achievements.AchievementManager.OverlaySaved | achievements.js:122-127 | the loop marks earned, with its saved date, every entry whose id was saved, and changes nothing else |
| Achievements.AchievementManager.SaveProgress | achievements.js:132-147 | storage afterwards holds the snapshot of the progress and the earned dates; nothing else changes |
| Achievements.AchievementManager.CheckAchievements | achievements.js:184-203 | the state afterwards is the award pass over the statistics; storage is written only when something new was earned |
| Achievements.AchievementManager.EarnNew | achievements.js:188-199 | the catalog loop awards each entry in order and reports whether anything was newly earned |
| Achievements.AchievementManager.EarnAt | achievements.js:189-197 | one entry is awarded; when it is newly earned its points and id are added and the level is recomputed |
| Achievements.AchievementManager.UpdateLevel | achievements.js:205-208 | the level becomes points / 100 + 1 and nothing else changes |
| Achievements.AchievementManager.GetProgress | achievements.js:231-238 | the report lists exactly the earned achievements, the catalog size, the points and the level |
| Tracker.Clamp | script.js:1363 | the stored progress is the input clamped to 0..100 |
| Tracker.UpdateFirst | script.js:867-885 | only the first item with the id is rewritten; an unknown id changes nothing |
| Tracker.UpdateFirstKeepsIds | script.js:867-885 | a write that keeps ids keeps the position of every id |
| Tracker.UpdateFirstKeepsTags | script.js:1429-1446 | a write that keeps tags keeps the tag universe |
| Tracker.RemoveId | script.js:903 | deleting removes every item with the id and keeps all others; the list shrinks exactly when the id was present |
| Tracker.FilterKeepsAll | script.js:903 | a filter keeps the whole list exactly when every element passes |
| Tracker.Reinsert | script.js:963 | undo inserts the item at its old index, or at the end when the index is past it, adding one element |
| Tracker.RemoveOnly | script.js:893-903 | when the id is unique, deleting it removes exactly that position |
| Tracker.FilterOnlyFails | script.js:903 | filtering a list in which only one position fails the test removes exactly that position |
| Tracker.DeleteThenUndo | script.js:893-903 | with a unique id, delete then undo restores the list exactly |
| Tracker.FilterIsAllRec | script.js:903 | a list whose elements all pass is kept as it is |
| Tracker.DeleteThenUndoDuplicate | script.js:893-903 | when two items share the id, delete then undo loses one of them |
| Tracker.EndedItemsTime | script.js:1306-1336 | ending adds exactly the duration to total time and one session record to that item; tags are unchanged |
| Tracker.EndedItemsGrow | script.js:1306-1336 | when the clock has not gone back since the session began, ending it lowers no item's time and not the total |
| Tracker.AfterProgress | script.js:1360-1374 | a progress update keeps the number of items, the undo buffer and both pending tag lists |
| Tracker.AfterAdd | script.js:457-492 | adding grows the list by one exactly when the trimmed title is non-empty; the undo buffer and the active session are kept |
| Tracker.AfterEdit | script.js:1733-1765 | an edit submit keeps the number of items, the undo buffer and the session, and either closes the form or changes nothing |
| Tracker.AfterDelete | script.js:887-911 | no item with the id remains; when one existed, the undo buffer holds it with an index at which it stood; the session is kept |
| Tracker.AfterUndo | script.js:955-973 | the undo entry is gone, and the list grows by one exactly when there was an entry |
| Tracker.EndIdempotent | script.js:1306-1336 | no session is active after ending; ending again is a no-op |
| Tracker.StartSession | script.js:1282-1304 | afterwards one session is active, for the item only if it exists; an unread item becomes reading, others keep their status; `lastRead` is set |
| Tracker.EndedItemsKeepIds | script.js:1312-1327 | ending a session keeps the position of every id |
| Tracker.ProgressEffect | script.js:1360-1374 | progress is stored clamped; at 100 the item is completed and no session remains active; the counters stay in sync |
| Tracker.AddEffect | script.js:457-492 | a blank title changes nothing; otherwise a fresh unread item with the defaults, the current tags and the chosen priority goes first, and the counts follow |
| Tracker.CountStatusPrepend | script.js:1768-1786 | prepending an item raises only its own status count |
| Tracker.DeleteUndoRoundTrip | script.js:887-973 | delete then undo restores the items and removes the undo entry |
| Tracker.DropOverwritten | script.js:964 | removing an entry after overwriting it is removing it |
| Tracker.FindUnique | script.js:893 | a unique id is found at its own position |
| Tracker.EditKeepsUntouchedTags | script.js:1661-1752 | opening the edit form on an item and submitting rewrites title, url, priority and notes, keeps the item's own tags when they hold no repeats, touches no other item, and closes the form |
| Tracker.ExpiredUndoIsNoOp | script.js:941-964 | after expiry the entry is gone and undo changes nothing |
| Tracker.WriteKeepsIdsAndTags | script.js:867-885 | status and priority writes keep every id's position and the tag universe |
| Tracker.TagUniverseSnoc | script.js:507-515 | one more loop step adds exactly that item's tags |
| Tracker.ReadingTracker.constructor | script.js:53-163 | the tracker starts with the loaded items, their tags and counts, no session and an empty undo buffer |
| Tracker.ReadingTracker.UpdateAllTags | script.js:507-515 | the loop sets the tag universe to the union of the items' tags |
| Tracker.ReadingTracker.UpdateStatusCounts | script.js:1768-1786 | the loop sets the three counters to the status counts |
| Tracker.ReadingTracker.SaveItems | script.js:573-578 | storage, tags and counters are brought in line with the items |
| Tracker.ReadingTracker.AddTag | script.js:420-434 | the pending tags gain the normalised tag when it is new and non-empty |
| Tracker.ReadingTracker.AddEditTag | script.js:1698-1710 | the edit tags gain the normalised tag when it is new and non-empty |
| Tracker.ReadingTracker.RemoveTag | script.js:448-451 | the pending tags lose exactly that tag |
| Tracker.ReadingTracker.RemoveEditTag | script.js:1724-1727 | the edit tags lose exactly that tag |
| Tracker.ReadingTracker.AddItem | script.js:457-492 | the state becomes `AfterAdd`; achievements are checked only when an item was added |
| Tracker.ReadingTracker.AddTrimmed | script.js:463-492 | the new item goes first, is saved, achievements are checked, and the pending tags are cleared |
| Tracker.ReadingTracker.ClearTags | script.js:492 | the pending tags become empty |
| Tracker.ReadingTracker.Unshift | script.js:466-467 | the item is prepended and saved |
| Tracker.ReadingTracker.ChangeStatus | script.js:867-885 | the first item with the id gets the status, then everything is saved |
| Tracker.ReadingTracker.ChangePriority | script.js:1429-1446 | the first item with the id gets the priority, then everything is saved |
| Tracker.ReadingTracker.OpenEditModal | script.js:1661-1687 | the form is opened on the item: its id is remembered and the edit tags become the set of its tags |
| Tracker.ReadingTracker.CloseEditModal | script.js:1689-1696 | no item is being edited and the edit tags are empty |
| Tracker.ReadingTracker.EditSubmit | script.js:1733-1765 | the state becomes `AfterEdit`: the edited item's title and url (trimmed), priority (medium by default), tags (the edit set) and notes are replaced, everything is saved and the form is closed; with no item being edited, or an unknown id, nothing changes |
| Tracker.ReadingTracker.WriteEdit | script.js:1743-1752 | the first item with the edited id gets the form's fields and the edit tags, then everything is saved |
| Tracker.ReadingTracker.EndReadingSession | script.js:1306-1336 | the state becomes `AfterEnd`; achievements are checked only when a session was active |
| Tracker.ReadingTracker.StartReadingSession | script.js:1282-1304 | any active session is ended first, then the new one is begun |
| Tracker.ReadingTracker.BeginSession | script.js:1286-1303 | the session starts only for an existing item, which is marked reading when unread and stamped `lastRead` |
| Tracker.ReadingTracker.UpdateProgress | script.js:1360-1374 | the state becomes `AfterProgress`; achievements are checked only for an existing item |
| Tracker.ReadingTracker.DeleteItem | script.js:887-911 | the item is saved in the undo buffer with its index, and every item with the id is removed |
| Tracker.ReadingTracker.Undo | script.js:955-973 | the buffered item is put back at its index and its entry is dropped; with no entry nothing changes |
| Tracker.ReadingTracker.ExpireUndo | script.js:941-944 | the undo entry is dropped |
| Tracker.ReadingTracker.GetFilteredItems | script.js:773-866 | the pipeline's result, sorted in an array copy; the items themselves are not reordered |

## Left out

- Rendering, animations, toasts, the edit modal's display (focus, form values, scroll lock), tag
  previews, the filter-chip UI, the theme manager and the rich-text editor are presentation only.
  The edit form's state, `currentEditId` and `editCurrentTags`, is modelled.
- The `setTimeout`-delayed writes (status change, delete, priority change) happen at once. The
  guards that check a DOM element exists before those writes are taken as always true.
- `localStorage` and JSON are abstract records. An item loads exactly as stored, except that a
  missing tag list becomes empty. A modelled item always holds an integer `timeSpent` and
  `progress` and a session list, so the fallbacks for missing or non-numeric fields (`|| 0`, the
  array check) are not modelled; the one way the source reaches them is the NaN progress described
  under `Tracker.ReadingTracker.UpdateProgress` below. A JSON parse failure is not modelled.
- Dates are integer milliseconds. `toISOString`, `getHours`, `setDate` and time zones are replaced
  by the `Calendar` parameter. The UTC/local mismatch between streak days and hours is left to
  whoever supplies it.
- Each operation reads one clock value, `now`. The source reads the clock separately for a
  session's duration and for its `endTime`.
- Tracker.ReadingTracker.AddItem: ids are `IntToString(now)`, as in the source. Ids are not
  guaranteed unique. `Tracker.DeleteThenUndoDuplicate` shows what a repeated id does to
  delete/undo.
- The `setInterval` tick and `updateReadingTime` are display only. `updateStats`,
  `highlightSearchMatches`, the reading-trend charts and the tag cloud are left out as
  presentation and floating-point rendering.
- Undo expiry is the explicit step `ExpireUndo`, not a timer.
- Tracker.ReadingTracker.EditSubmit: the `closeEditModal` that the source delays by one second
  (script.js:1761-1765) happens at once, so a tag edit or a second submit inside that second is
  not modelled.
- Tracker.ReadingTracker.UpdateProgress: the progress is an integer. The slider handler
  (script.js:1197-1201) passes `parseInt` of the input field, which is NaN for an empty field;
  `Math.min` and `Math.max` keep NaN, the item stores it and is not completed, the filters and
  sorts read it as 0 through `|| 0`, and JSON saves it as null. That path is not modelled.
- Text.LowerChar: only the capitals that sit 32 code points below their small letters are folded
  (ASCII, Latin-1, Greek, Cyrillic А-Я). The other mappings of `toLowerCase` are not modelled:
  the Kelvin sign U+212A to `k`, Cyrillic U+0400-U+040F (80 code points up), the paired letters
  of Latin Extended and Armenian, the final sigma that `Σ` becomes at the end of a word, and
  U+0130, which becomes two characters. For text holding those characters the search matches and
  the normalised tags of the model differ from the source's.
- Items.ElapsedSeconds: the clock is not assumed monotone. A clock that goes back during a
  session gives a negative duration that lowers `timeSpent`, as in the source;
  `Tracker.EndedItemsGrow` proves growth only when the clock has not gone back.
- The filter and sort settings (current filter, active priorities, ranges, tags, query, sort key)
  are a `QuerySpec` parameter of `GetFilteredItems`. The UI setters that change them are not
  modelled.
- `localeCompare` is the abstract comparator `collation`. Where the proofs need it, they assume it
  is a total preorder.
- Achievements.AchievementManager.LoadProgress: the stored level is read back as stored and not
  recomputed. Any other fields the stored record might carry are not modelled.
- Achievement notifications are presentation and are left out.
