# ProgrammerTodo task list in Dafny

A model of the task-list logic of the `ProgrammerTodo` page component (`src/app/page.js`). The
component keeps a list of task records, a form draft, and the search and filter settings.
Three handlers change the list:

- `addTask` refuses a blank title. Otherwise it appends a record built from the draft, with its
  comma-separated tags normalised, and resets the draft.
- `deleteTask` drops the records with a given id.
- `updateTaskStatus` sets the status of the records with a given id.

Two read-only views are derived from the list:

- `getTaskStatistics` counts records by status and by type.
- `filterTasks` applies the case-insensitive search and the type and priority selects. Each
  status tab shows `filterTasks` of the records with that status.

Files:

- `seqs.dfy` (module `Seqs`): stable filter, map and subsequence, with their laws.
- `text.dfy` (module `Text`): the string primitives the code uses. These are `trim`,
  `split(',')`, `toLowerCase` and `includes`. Each is stated against an independent
  definition.
- `tasks.dfy` (module `Tasks`): the task record, the draft, tag normalisation, and the three
  list operations as functions, with the laws relating them.
- `views.dfy` (module `Views`): the search predicate, `filterTasks`, the status tabs and the
  statistics.
- `scenarios.dfy` (module `Scenarios`): worked examples of tag normalisation and search.
- `store.dfy` (module `Store`): the component state as a class. Each handler replaces a field
  wholesale, as the React setters do. The class keeps the invariant that every stored tag is
  clean.

Conventions:

- The record field `type` is called `kind`, because `type` is a Dafny keyword.
- Type, priority and status stay free strings, because the code compares them as strings and
  `updateTaskStatus` accepts any string.
- The id and the creation time come from `Date.now()` and `new Date().toISOString()`. They are
  parameters of the add operation.

## Model

| member | source | states |
|---|---|---|
| Text.TrimStart | src/app/page.js:55 | the result is no longer than the string and does not start with whitespace |
| Text.TrimStartSlice | src/app/page.js:55 | what is dropped in front is a whitespace prefix, and the rest is kept |
| Text.TrimEnd | src/app/page.js:55 | the result is no longer than the string and does not end with whitespace |
| Text.TrimEndSlice | src/app/page.js:55 | what is dropped at the end is a whitespace suffix, and the rest is kept |
| Text.Trim | src/app/page.js:55 | the trimmed string neither starts nor ends with whitespace (the ECMAScript WhiteSpace and LineTerminator characters) |
| Text.TrimIsSlice | src/app/page.js:55 | the trimmed string is a slice of the string with only whitespace cut off on either side |
| Text.TrimStartAt | src/app/page.js:55 | leading whitespace ends exactly at the first non-whitespace character |
| Text.TrimEndAt | src/app/page.js:55 | trailing whitespace starts exactly after the last non-whitespace character |
| Text.TrimTrimmed | src/app/page.js:55 | a string with no whitespace at either end is its own trim |
| Text.TrimAt | src/app/page.js:55 | trimming cuts exactly a whitespace prefix and a whitespace suffix around a middle whose ends are not whitespace, so that middle is the result |
| Text.TrimKeepsOut | src/app/page.js:55 | trimming introduces no character that was not in the string |
| Text.IsBlank | src/app/page.js:49 | `!title.trim()` holds exactly when every character of the title is whitespace |
| Text.TrimEmpty | src/app/page.js:49 | the trim is empty if and only if the string is all whitespace |
| Text.Split | src/app/page.js:55 | `split(',')` gives at least one piece and no piece contains the separator |
| Text.JoinSplit | src/app/page.js:55 | joining the pieces of a split with the separator gives back the string |
| Text.SplitJoin | src/app/page.js:55 | splitting the join of separator-free pieces gives back those pieces |
| Text.LowerChar | src/app/page.js:124-126 | an upper-case ASCII letter becomes the lower-case letter at the same alphabet position, every other character is kept, and the result is never an upper-case letter |
| Text.Lower | src/app/page.js:124-126 | `toLowerCase` keeps the length, folds each character in place, and leaves no upper-case letter |
| Text.LowerFixed | src/app/page.js:124-126 | text without upper-case letters is unchanged by `toLowerCase` |
| Text.LowerIdempotent | src/app/page.js:124-126 | lower-casing twice gives the same text as lower-casing once |
| Text.Contains | src/app/page.js:124-126 | `includes` is true exactly when the needle occurs at some position of the haystack |
| Seqs.Filter | src/app/page.js:72 | the result keeps exactly the elements satisfying the predicate, is no longer than the input, and is the input when all satisfy it |
| Seqs.FilterIsSubsequence | src/app/page.js:72 | a filter keeps the relative order of what it keeps |
| Seqs.FilterMultiset | src/app/page.js:72 | a filter keeps every copy of a kept element and no copy of a dropped one |
| Seqs.Map | src/app/page.js:76-78 | the result has the input's length and holds the function's value at every index |
| Seqs.FilterAppend | src/app/page.js:58 | filtering distributes over appending |
| Seqs.FilterCommute | src/app/page.js:380 | two filters may be applied in either order |
| Seqs.FilterCount2 | src/app/page.js:72 | a predicate and its complement split the list's length |
| Seqs.FilterCount3 | src/app/page.js:107-118 | three exclusive predicates select at most the whole list, and exactly it when they cover every element |
| Seqs.FilterMapCount | src/app/page.js:76-78 | a map that does not change a predicate keeps the number of elements it selects |
| Seqs.SubsequenceTransitive | src/app/page.js:410 | a subsequence of a subsequence is a subsequence |
| Tasks.TrimmedPieceClean | src/app/page.js:55 | a comma-free piece trims to nothing or to a clean tag |
| Tasks.TrimPieces | src/app/page.js:55 | trimming comma-free pieces and dropping the empty ones gives clean tags, no more of them than pieces |
| Tasks.TrimPiecesCons | src/app/page.js:55 | one piece in front contributes its trim, or nothing when the trim is empty, before the tags of the rest |
| Tasks.TrimPiecesIsMapFilter | src/app/page.js:55 | trimming piece by piece equals `map(trim)` followed by `filter(Boolean)` |
| Tasks.TrimPiecesClean | src/app/page.js:55 | pieces that are already clean tags come through unchanged |
| Tasks.NormalizeTags | src/app/page.js:55 | empty tag text gives no tags, and every stored tag is non-empty, has no whitespace at either end and no comma |
| Tasks.NormalizeTagsPieces | src/app/page.js:55 | the stored tags are the trimmed non-empty pieces of the split, in order, with every repetition |
| Tasks.NormalizeJoin | src/app/page.js:55 | clean tags written back as comma-separated text normalise to themselves |
| Tasks.Add | src/app/page.js:49-58 | a whitespace-only title leaves the list as it was; otherwise the list grows by exactly the new record, at the end, after the unchanged earlier records |
| Tasks.Delete | src/app/page.js:71-73 | the records with a different id and no other remain; an absent id changes nothing |
| Tasks.DeleteKeepsOthers | src/app/page.js:72 | deletion keeps the order and every copy of the other records |
| Tasks.SetStatus | src/app/page.js:75-79 | same length and order; records with the id get the new status and keep every other field, the rest are untouched, an absent id changes nothing |
| Tasks.DeleteAppended | src/app/page.js:71-73 | deleting the id of a record appended to a list without that id restores the list |
| Tasks.DeleteAfterAdd | src/app/page.js:47-73 | deleting the id of a just-added record, when the id was fresh, restores the list |
| Tasks.DeleteAfterSetStatus | src/app/page.js:71-79 | setting the status of records that are then deleted has no effect |
| Tasks.SetStatusTwice | src/app/page.js:75-79 | only the last status set for an id is visible |
| Tasks.ConsClean | src/app/page.js:55 | a clean tag, or nothing, in front of clean tags leaves them clean |
| Tasks.AddKeepsTagsClean | src/app/page.js:51-58 | adding keeps every stored tag clean |
| Tasks.DeleteKeepsTagsClean | src/app/page.js:71-73 | deleting keeps every stored tag clean |
| Tasks.SetStatusKeepsTagsClean | src/app/page.js:75-79 | setting a status keeps every stored tag clean |
| Views.Matches | src/app/page.js:123-129 | the lower-cased search text occurs in the lower-cased title, description or some tag, and each select is `all` or equal to the record's value |
| Views.MatchesIgnoresCase | src/app/page.js:124-126 | the search is case-insensitive: lower-casing the search text, or the record's title, description and tags, does not change whether the record matches |
| Views.FilterTasks | src/app/page.js:121-131 | the records that match the query and no other, never more than the input |
| Views.FilterTasksKeepsOrder | src/app/page.js:121-131 | the filtered list is an order-preserving subsequence keeping every copy of each match |
| Views.FilterTasksShowAll | src/app/page.js:13-15 | with an empty search and both selects at `all`, the list is shown unchanged |
| Views.ByStatus | src/app/page.js:380 | exactly the records with the status |
| Views.Bucket | src/app/page.js:410 | a tab holds exactly the records with its status that match the query |
| Views.BucketCommutes | src/app/page.js:410 | taking the tab then searching equals searching then taking the tab |
| Views.BucketKeepsOrder | src/app/page.js:415 | a tab is an order-preserving subsequence of the task list |
| Views.BucketMultiset | src/app/page.js:410-415 | a tab holds every copy of each record with its status that matches the query, and no other record |
| Views.TabCounts | src/app/page.js:380-404 | the three tab counts add up to at most the number of matches, and exactly to it when every status is one of the three literals |
| Views.Stats | src/app/page.js:107-119 | the total is the length; no count exceeds it; the status counts, and the type counts, add up to it when every value is a known literal |
| Views.StatsAfterAdd | src/app/page.js:107-119 | an accepted add raises the total and exactly the matching status and type counts by one; a refused add changes no count |
| Views.StatsAfterSetStatus | src/app/page.js:107-119 | a status change keeps the total and every type count |
| Views.StatsAfterDelete | src/app/page.js:107-119 | a delete lowers the total by the number of records with the id |
| Views.KnownValuesPreserved | src/app/page.js:47-79 | the handlers keep every status and type among the literals when the added draft and the new status are themselves literals |
| Scenarios.SplitExample | src/app/page.js:55 | the text `"  ui, , perf ,ui"` splits into the four pieces between its commas |
| Scenarios.TagsExample | src/app/page.js:55 | the text `"  ui, , perf ,ui"` is stored as the tags `ui`, `perf`, `ui`: trimmed, the blank piece dropped, order and repetition kept |
| Scenarios.SearchExample | src/app/page.js:121-131 | a bug titled "Fix login bug" with tag `auth` is found by `login`, by `LOGIN` and by `auth`, and hidden by `login` with the type select on `feature` |
| Store.TaskStore.constructor | src/app/page.js:11-26 | the store starts with no tasks, the default draft and no search or filter |
| Store.TaskStore.EditDraft | src/app/page.js:280 | a form change replaces the draft and nothing else |
| Store.TaskStore.AddTask | src/app/page.js:47-69 | the list becomes the add of the old list and draft; the draft resets only when the add is accepted |
| Store.TaskStore.DeleteTask | src/app/page.js:71-73 | the list becomes the delete of the old list; nothing else changes |
| Store.TaskStore.UpdateTaskStatus | src/app/page.js:75-79 | the list becomes the status update of the old list; nothing else changes |
| Store.TaskStore.SetSearch | src/app/page.js:342 | only the search text changes |
| Store.TaskStore.SetKindFilter | src/app/page.js:350 | only the type select changes |
| Store.TaskStore.SetPriorityFilter | src/app/page.js:360 | only the priority select changes |
| Store.TaskStore.Tab | src/app/page.js:409-418 | a tab shows exactly the records with its status that match the current settings, in list order and with every copy of a repeated record, and it is the list whose length the tab's button counts (`Bucket`, see `Views.TabCounts`) |

## Left out

- Persistence is not modelled (src/app/page.js:28-45). This covers the `localStorage` read and write, `JSON.parse`/`JSON.stringify`, the swallowed parse error and `isClient`. It is browser I/O and an outside JSON library. As a consequence, the store's clean-tag invariant covers only records created through `addTask`.
- `task.tags || []` in the search covers records loaded without tags. Every modelled record has a tag list, so that fallback is not needed here.
- `Date.now()` and `new Date().toISOString()` are clock calls, so the id and the creation time are parameters. The code does not make ids unique: two adds in the same millisecond collide. So uniqueness is never assumed, and `Tasks.DeleteAfterAdd` requires the id to be fresh.
- Text.Lower: only ASCII letters are folded. JavaScript's `toLowerCase` also folds the rest of Unicode.
- Text.IsSpace lists the ECMAScript whitespace and line terminators with the space separators (category Zs) of the current Unicode table as a fixed set. An engine built on another Unicode version may differ.
- Presentation is not modelled (src/app/page.js:81-105, 133-423). This covers the JSX, the icons and colours, which status buttons a card shows, and the missing panel for the pending tab. `updateTaskStatus` itself accepts any status.
- React scheduling is not modelled: functional state updates, batching and effects. Each handler is one atomic replacement of state.
- Views.Stats: the status counts and the type counts are not claimed to sum to the total for every list. The code does not enforce it: any status string can be set and any record can be loaded. The sums are proved only when every value is one of the known literals. That is as much as the code guarantees.
