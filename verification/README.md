# Wrike folder task list: a verified model of the task tree

This project models the core of the desktop Wrike client's folder task list:

- how the tasks of a folder are decoded from the server's JSON;
- how their parent and sub-task relations are resolved into a top-level list and per-task sub-task ranges of one shared slab;
- how that hierarchy is flattened into the rows the table draws, with collapsed tasks hiding their subtrees and inactive tasks filtered out;
- how the rows are sorted by title, status, first assignee or a custom field, including the lazy re-sort of sub-task lists as rows scroll into view;
- how a click on an expand arrow queues a rebuild of the flattened rows.

The module layout follows the source:

| module | models |
|---|---|
| `Users` | `full_user_name_to_temporary_string` |
| `Json` | the JSON helpers |
| `Records` | task, status, user and custom-field records; the column helpers |
| `Comparators` | the four qsort comparators and the sort state they read |
| `Sorting` | qsort, as a sort function with permutation and sortedness lemmas |
| `Relations` | `associate_parent_tasks_with_sub_tasks` |
| `TaskTree` | the specification of the flattened tree: which rows, in which order, at which nesting level |
| `Ingestion` | `process_folder_contents_data_object` on decoded properties |
| `FolderHeaders` | the current folder header |
| `LazyPass` | the specification of the lazy sort pass: when a row is due, the in-place rewrite of its subtree, and the log of what the pass over the visible rows leaves |
| `TaskList` | the task list's mutable state as a class: task store, slab, top-level list, flattened rows, expansion flags, sort state, the "sorted after loading" and "queued rebuild" flags |

`TaskList`'s methods are proved against the `TaskTree` specification. The class invariant `Valid()` ties the stored relations, the ghost tree and the rows together. Every state-changing method preserves it, except loading a folder: `ProcessFolderContents` and `LoadBatch` establish it only when the fully expanded tree of the new tasks fits in the row buffer (`TreeFits`). The constructor establishes it for the empty task list.

Tasks are indices into the task store. The id-to-task hash map is a `map<int, nat>` argument. A ghost `rank` sequence witnesses that the sub-task relation is acyclic, which is what makes the source's recursion terminate.

## Model

| member | source | states |
|---|---|---|
| Users.FullName | src/users.h:32-44 | The name is the first name, one space, then the last name; its length is the sum of both plus one |
| Users.FullUserNameToTemporaryString | src/users.h:35-41 | The buffer assembled piece by piece (two copies and the space) equals the full name |
| Json.TokenToString | src/json.cpp:12-15 | The string is exactly the JSON characters from the token's start to its end |
| Json.SkipValue | src/json.cpp:32-57 | Skipping a value always moves strictly forward and never past the last token |
| Json.EatJson | src/json.cpp:32-57 | The recursive token walk stops exactly where the skip specification does, strictly after the value's first token |
| Json.SkipLandsOnNextSibling | src/json.cpp:32-57 | For any token layout of a JSON value, skipping from its first token lands just after the value's last token |
| Json.ItemsSkip | src/json.cpp:41-44 | An array of n items is skipped by skipping n consecutive values |
| Json.MembersSkip | src/json.cpp:46-53 | An object of n members is skipped by skipping 2n consecutive values (key and value of each member) |
| Json.SkipValuesSplit | src/json.cpp:42 | Skipping a + b values is skipping a values and then b values from where the first skip stopped |
| Json.TokenBuffer.constructor | src/json.cpp:8-9 | The static token buffer starts with no tokens and a last token count of 0 |
| Json.TokenBuffer.DetermineTokenCountAndReallocateIfNeeded | src/json.cpp:17-30 | The result is the parser's token count; the buffer only grows, to the largest count seen, and keeps its old tokens |
| Json.ProcessJsonDataSegment | src/json.cpp:75-89 | The callbacks made are exactly those of the scan specification: one per "data" key, in token order |
| Json.DataCallsAreDataArrays | src/json.cpp:78-87 | Every callback starts just after a "data" key followed by an array token and receives that array's size |
| Json.DataCallsSkipOtherTokens | src/json.cpp:78-79 | Tokens that are not "data" keys cause no callback |
| Records.Lookup | src/task_list.cpp:322-327 | A registry lookup finds a record exactly when the id is registered, and then returns that record |
| Records.FirstMatch | src/task_list.cpp:119-124 | Returns the first value carrying the field id; returns none only when no value carries it |
| Records.TryFindCustomFieldValueInTask | src/task_list.cpp:383-395 | Returns nothing for a missing field; otherwise returns the task's first value for that field, or nothing when the task has none |
| Records.GetColumnSortField | src/task_list.cpp:565-575 | Columns 0 to 2 sort by title, status and assignee; every column from 3 on sorts by custom field; no column is unsorted |
| Records.CustomSortColumnsHaveSlots | src/task_list.cpp:694 | Within the total column count, a column sorts by custom field exactly when it has a custom-column slot |
| Records.MapColumnsToCustomFields | src/task_list.cpp:368-381 | Each custom column is resolved in column order to the registry's field for its id, or to none |
| Records.ColumnTitle | src/task_list.cpp:544-563 | Columns 0 to 2 are titled Title, Status and Assignees; a custom column is titled with the title of the registered field its id names |
| Records.HeaderNamesSortField | src/task_list.cpp:544-575 | Every column's header names the field a click on it sorts by: the three fixed fields, or the column's custom field |
| Records.FirstCustomColumnBlankAsWritten | src/task_list.cpp:515-526 | With the `>` guard, the first custom column is blank even when the task has a value for its field |
| Records.CellValue | src/task_list.cpp:515-526 | With the `>=` guard, the fixed columns show no custom value; a custom cell shows a value exactly when the column's field id is registered and the task holds a value for that field, and then it is the task's first such value |
| Records.ColumnTableAgrees | src/task_list.cpp:515-526 | The cell, read through the column-to-field table that map_columns_to_custom_fields fills, is the one its column id names, and the header above it carries that field's title |
| Sorting.SortPermutes | src/task_list.cpp:306-311 | Sorting a sub-task list or the top-level list only permutes it |
| Sorting.SortSorted | src/task_list.cpp:306-311 | When the comparator is a total preorder on the list's elements, the result is ordered by it |
| Sorting.SortedPermutationIsSort | src/task_list.cpp:306-311 | When the comparator is a total preorder that leaves no two distinct elements level, any sorted permutation of a list is its sort, so every correct qsort gives the same result |
| Sorting.SortIsIdempotent | src/task_list.cpp:306-311 | Under such a decisive comparator, sorting twice is sorting once |
| Comparators.Flip | src/task_list.cpp:335-336 | Flipping the direction gives the other direction; Normal is 1 and Reverse is -1 |
| Comparators.StrNCmp | src/task_list.cpp:164 | The sign of a bounded string comparison is -1, 0 or 1, and 0 whenever the compared prefixes are equal |
| Comparators.StrNCmpNegative | src/task_list.cpp:164 | The comparison is negative exactly when, at the first position where the strings differ before a NUL, the first string's character is the smaller |
| Comparators.StrNCmpFirstDifference | src/task_list.cpp:164 | The first difference before a NUL decides all three outcomes: negative, positive, or 0 when there is none (so strings that agree up to a shared NUL compare 0 even when they differ after it) |
| Comparators.StrNCmpAntisymmetric | src/task_list.cpp:164 | Swapping the arguments negates the comparison |
| Comparators.TitlePrefixOrderedById | src/task_list.cpp:157-171 | When one title is a prefix of the other, the titles tie and the id difference decides, in either direction |
| Comparators.TitleDirectionReverses | src/task_list.cpp:164 | When the titles differ within the shorter length, Reverse negates the Normal result |
| Comparators.TitleAntisymmetric | src/task_list.cpp:157-171 | The title comparator is antisymmetric |
| Comparators.TitleOrderNotTransitive | src/task_list.cpp:157-171 | Three concrete tasks ("ab", "abc", "abd") compare in a cycle, so the title order is not transitive |
| Comparators.MissingAssigneeComparesGreater | src/task_list.cpp:177-181 | A task without a first assignee compares greater than any task, whatever the direction |
| Comparators.PresentAssigneeComparesLess | src/task_list.cpp:183-187 | A task with an assignee compares less than one without, whatever the direction |
| Comparators.MissingAssigneesNotAntisymmetric | src/task_list.cpp:177-187 | Two tasks without assignees each compare greater than the other |
| Comparators.AssigneeOrderedByFullName | src/task_list.cpp:189-202 | Tasks with assignees compare by the assignees' full names scaled by direction, then by id; the comparison is antisymmetric |
| Comparators.StatusNaturalIndexFirst | src/task_list.cpp:214 | Different natural indices decide, and the direction does not change them |
| Comparators.StatusThenIdTieBreaks | src/task_list.cpp:216-224 | Equal natural indices fall back to status ids scaled by direction, then to task ids |
| Comparators.StatusComparatorIsLexicographic | src/task_list.cpp:205-225 | The status comparator is the lexicographic order on natural index, directed status id and task id |
| Comparators.StatusComparatorIsValid | src/task_list.cpp:205-225 | On tasks that all have a status, the status comparator is a total preorder, so qsort gives a sorted result |
| Comparators.MissingCustomFieldFollowsDirection | src/task_list.cpp:126-128 | A task without the field compares as the direction: last in Normal, first in Reverse |
| Comparators.PresentCustomFieldAgainstMissing | src/task_list.cpp:137-139 | A task with the field against one without compares as the opposite of the direction |
| Comparators.NumericCustomFieldsCompareByValue | src/task_list.cpp:141-144 | Numeric fields compare by their integer values scaled by direction, then by id |
| Comparators.TextCustomFieldsCompareByPrefix | src/task_list.cpp:146-149 | Text and drop-down fields compare their values within the shorter length, scaled by direction, then by id |
| Comparators.OtherCustomFieldsOrderedById | src/task_list.cpp:151-153 | Other field types never order tasks: ids decide |
| Comparators.LevelTasksShareId | src/task_list.cpp:114-242 | Two tasks that each compare at most equal to the other share their id, for every sort field, except two tasks both missing the sort custom field under Reverse |
| Comparators.MissingCustomFieldsLevelInReverse | src/task_list.cpp:126-128 | That exception is real: two tasks both missing the custom field each compare less than the other under Reverse |
| Relations.TopLevelMultiplicity | src/task_list.cpp:947-959 | A task appears in the top-level list once for each time its parent folder ids name the folder |
| Relations.TopLevelInStoreOrder | src/task_list.cpp:947-959 | The top-level list is in task-store order |
| Relations.CollectTopLevel | src/task_list.cpp:947-959 | The first pass builds exactly the top-level list of the specification |
| Relations.SubTaskMultiplicity | src/task_list.cpp:962-1007 | A task appears in a parent's sub-task list once for each of its parent task ids that resolves to that parent; ids missing from the map are dropped |
| Relations.SubTasksInStoreOrder | src/task_list.cpp:994-1007 | Every sub-task list is in task-store order |
| Relations.CountSubTasks | src/task_list.cpp:962-975 | The second pass gives each task the length of its sub-task list, and the total is their sum |
| Relations.SumOfChildCounts | src/task_list.cpp:962-975 | The per-parent counts add up to the number of resolved parent ids |
| Relations.CarveSlab | src/task_list.cpp:978-991 | The third pass carves one slab into consecutive, disjoint ranges of the counted sizes, in task order |
| Relations.PrefixSumsAreCarved | src/task_list.cpp:978-991 | Starting each range at the prefix sum of the sizes before it gives disjoint in-bounds ranges |
| Relations.FillSubTasks | src/task_list.cpp:994-1007 | The fourth pass fills each parent's range with exactly its sub-task list |
| Relations.AssociateParentTasksWithSubTasks | src/task_list.cpp:943-1008 | The whole builder: the top-level list, and each task's range of the slab holding exactly its sub-tasks |
| Relations.SubTasksDescend | src/task_list.cpp:962-1007 | When parent ids are acyclic (witnessed by a rank), every sub-task ranks below its parent |
| TaskTree.CollapsedTaskIsOneRow | src/task_list.cpp:275-289 | A shown, collapsed task is exactly one row: its level and its number of shown direct sub-tasks |
| TaskTree.FilteredTaskHidesSubtree | src/task_list.cpp:271-273 | A task the active-only filter hides contributes no rows, and neither does its subtree |
| TaskTree.FlattenListClosed | src/task_list.cpp:275-287 | Under a collapsed parent no rows are written |
| TaskTree.FlattenRows | src/task_list.cpp:276-285 | A task's rows start with its own row at its level; every later row is nested deeper |
| TaskTree.TopLevelRowsAreTopLevelTasks | src/task_list.cpp:292-297 | The level-0 rows of the flattened tree are top-level tasks |
| TaskTree.FlattenHasSubtrees | src/task_list.cpp:270-290 | Every row begins its own task's flattened subtree |
| TaskTree.FullRebuildHasSlots | src/task_list.cpp:292-300 | After a full rebuild, each row's subtree fits in the rows that follow it |
| TaskTree.CountListPermutation | src/task_list.cpp:306-311 | Reordering a list of tasks does not change how many rows it flattens to |
| TaskTree.VisiblePermutation | src/task_list.cpp:306-308 | Reordering sub-tasks does not change the number of visible sub-tasks |
| TaskTree.RewriteKeepsSlots | src/task_list.cpp:302-304 | Rewriting one row's subtree in place keeps the row count, and every subtree still fits |
| TaskTree.CountBelowOpen | src/task_list.cpp:1017-1021 | No expansion state flattens to more rows than the fully expanded tree, so the row buffer bound holds across toggles |
| TaskTree.ChainCountsDirectSubTasks | src/task_list.cpp:279-285 | For a chain of three tasks, each row counts only its shown direct sub-tasks, not all descendants |
| TaskTree.FilteredSubTaskSkipsItsSubtree | src/task_list.cpp:271-273 | A filtered sub-task hides its own sub-tasks even when they are active |
| TaskList.TaskList.constructor | src/task_list.cpp:88-112 | The zero-initialised globals: no tasks, no rows, unsorted in Normal direction, not yet sorted after loading, no queued rebuild, active-only filter on; the invariant holds |
| TaskList.TaskList.RebuildHierarchically | src/task_list.cpp:270-290 | Writes exactly the task's flattened rows at the cursor, advances the cursor by their count, leaves every other row alone, and returns whether the task is shown |
| TaskList.TaskList.RebuildFlattenedTaskTree | src/task_list.cpp:292-300 | The rows become the flattening of all top-level tasks in order, and the length is their count |
| TaskList.TaskList.RebuildFlattenedTaskSubtree | src/task_list.cpp:302-304 | Rewrites one row's subtree in place at the row's level and leaves the other rows alone |
| TaskList.TaskList.UpdateCachedDataForSortedTasks | src/task_list.cpp:316-330 | Each task caches its status from the registry and its first assignee, or none when it has no assignee |
| TaskList.TaskList.SortTopLevelAndRebuild | src/task_list.cpp:310-314 | The top-level list is sorted by the current comparator, and the rows are rebuilt from it |
| TaskList.TaskList.SortByField | src/task_list.cpp:332-348 | The direction flips on a repeated field and resets to Normal otherwise; caches are refreshed, the top-level list is sorted, the rows are rebuilt, and the custom field id is kept |
| TaskList.TaskList.SortByCustomField | src/task_list.cpp:350-366 | The direction flips only when re-sorting by the same custom field; the field is looked up, the top-level list is sorted, and the rows are rebuilt |
| TaskList.TaskList.EnsureSortedAfterLoading | src/task_list.cpp:679-682 | The first frame after loading sorts by title once; later frames change nothing |
| TaskList.TaskOrderDecisive | src/task_list.cpp:114-242 | On tasks with distinct ids, the order the comparators give leaves no two distinct tasks level, under the conditions of LevelTasksShareId, so qsort's result is determined |
| TaskList.TaskList.SortSubTasksOfTask | src/task_list.cpp:306-308 | Sorts exactly one task's range of the slab and leaves every other range alone |
| TaskList.SortedRangeKeepsRanges | src/task_list.cpp:306-308 | The sorted range holds the sorted sub-tasks; every other task's range is untouched |
| TaskList.TaskList.FindFirstTopLevelRow | src/task_list.cpp:716-720 | Walks back from the first visible row to the nearest row at level 0, or to row 0; with no rows it stays at row 0 |
| LazyPass.TopLevelRowAtOrBefore | src/task_list.cpp:716-720 | The row found is at or before the start; it is row 0 or a level-0 row, and no level-0 row lies between them |
| TaskList.TaskList.LazySortRow | src/task_list.cpp:729-734 | The loop body. A due row (expanded, flagged, more than one visible sub-task) has its task's range of the slab sorted and the task's sub-task list sorted in the tree; its slot is rewritten in place with the task's new flattening from the row's level, its flag is cleared, and every row outside the slot is kept. Any other row leaves every field and row as it was. The sort order is unchanged |
| TaskList.TaskList.LazyPassFrom | src/task_list.cpp:722-735 | The loop stops at the last visible row, or at once when it starts past it; the rows, the tree and the log of re-sorted rows it leaves are `LazyRun`'s, the turns of the rows it visited in order |
| TaskList.TaskList.LazyTurn | src/task_list.cpp:722-735 | One iteration: rows, tree and log that were `LazyRun`'s up to the row become `LazyRun`'s up to the next row |
| LazyPass.LazyRunLogged | src/task_list.cpp:722-735 | From rows whose slots fit the tree, the pass up to any row keeps them fitting; its tree is the starting tree with the logged tasks' sub-task lists sorted in turn; no row it passed is still due; it logs, in increasing row order, exactly the due rows that no rewrite reached, each with its task, level and slot end; rows neither logged nor rewritten keep their value; each row of a logged slot that no later re-sort touched holds the task's flattening in the tree right after that sort, with the logged row's flag cleared |
| LazyPass.LazyRunDone | src/task_list.cpp:713-735 | Over the visible range the pass leaves what LazyRunLogged states, keeps every row before its start, and leaves no row of the range due |
| TaskList.TaskList.LazySortVisibleRows | src/task_list.cpp:713-735 | The tree becomes the old tree with the logged tasks' sub-task lists sorted in turn. A row in the visible range that no rewrite reached is logged exactly when it was due. Each row of a logged slot that no later re-sort touched holds the task's flattening in the tree right after that sort, with the logged row's flag cleared. Every row neither logged nor rewritten, and every row before the walk-back start, is as it was. No row in the range is still due |
| LazyPass.SortEachSorts | src/task_list.cpp:729-734 | After the pass, a logged task's sub-task list is sorted by the order, and every other task's list is as it was |
| LazyPass.SortEachKeepsShape | src/task_list.cpp:729-734 | Sorting lists in turn keeps every task's sub-tasks and flags |
| TaskList.TaskList.ClickExpandArrow | src/task_list.cpp:463-477 | Only a row with visible sub-tasks responds: its task's expanded flag flips and a rebuild is queued; otherwise nothing changes |
| TaskList.TaskList.ProcessQueuedRebuild | src/task_list.cpp:778-781 | A queued rebuild rebuilds all rows and clears the flag; without one nothing changes |
| TaskList.TaskList.ProcessFolderContents | src/task_list.cpp:1010-1036 | The store becomes the decoded objects in slot order, and the relations are rebuilt from them. Every task starts collapsed and the sorted flag is cleared. Cached statuses and first assignees of reused slots are kept and the rest are empty. The ghost tree is the loaded, collapsed tree, and its twin fully expanded. The row buffer is a fresh array of the batch size when the old task count is below it, and is kept otherwise |
| TaskList.TaskList.LoadBatch | src/task_list.cpp:1017-1035 | Loading decoded records rebuilds the relations, resets expansion and the sorted flag, keeps the caches of reused slots, sets the ghost tree to the loaded one, grows the row buffer when needed, and keeps the tree well ranked when the parent ids are acyclic |
| TaskList.Relate | src/task_list.cpp:943-1008 | The relations stored after loading are those of the specification for the new records |
| TaskList.Collapsed | src/task_list.cpp:819 | Every freshly loaded task starts collapsed |
| TaskList.KeptOrEmpty | src/task_list.cpp:1017-1021 | Reused slots keep their cached status and assignee; fresh slots start empty |
| Ingestion.Reset | src/task_list.cpp:810-814 | A reused record slot has its four counts reset, while its title, id and status id are kept |
| Ingestion.ProcessTaskObject | src/task_list.cpp:805-907 | The record is the reset slot with each property applied in order |
| Ingestion.AppendEach | src/task_list.cpp:847-849 | The entries are appended after the current count, in order |
| Ingestion.DecodeBatch | src/task_list.cpp:1029-1031 | Object i is decoded into slot i |
| Ingestion.NoSuperTaskIdsProperty | src/task_list.cpp:811 | Without "superTaskIds" a task has no parent task ids, whatever its slot held |
| Ingestion.OneSuperTaskIdsProperty | src/task_list.cpp:866-879 | With one "superTaskIds" property, the parent task ids are exactly its entries, in order |
| Ingestion.NoParentIdsProperty | src/task_list.cpp:812 | Without "parentIds" a task is in no folder |
| Ingestion.OneParentIdsProperty | src/task_list.cpp:852-865 | With one "parentIds" property, the folder ids are exactly its entries, in order |
| Ingestion.NoIdProperty | src/task_list.cpp:832-833 | Without "id" the task keeps the id its reused slot held |
| Ingestion.LastIdPropertyWins | src/task_list.cpp:832-833 | The last "id" property decides the task id |
| FolderHeaders.FolderHeader.constructor | src/task_list.cpp:88 | The zero-initialised global: folder id 0, empty name, no custom columns |
| FolderHeaders.FolderHeader.ProcessFolderHeaderData | src/task_list.cpp:909-941 | Only the name and the custom columns can change, each as the header properties decide |
| FolderHeaders.NoColumnsPropertyKeepsColumns | src/task_list.cpp:925-936 | Without "customColumnIds" the custom columns are kept |
| FolderHeaders.LastColumnsPropertyReplaces | src/task_list.cpp:925-935 | The last "customColumnIds" property replaces the columns with its ids, in order |
| FolderHeaders.NoTitlePropertyKeepsName | src/task_list.cpp:923-924 | Without "title" the folder name is kept |
| FolderHeaders.LastTitlePropertyNames | src/task_list.cpp:923-924 | The last "title" property names the folder |
| FolderHeaders.FolderHeader.SetCurrentFolderId | src/task_list.cpp:1038-1040 | The folder id becomes the given id and nothing else changes |
| FolderHeaders.FolderHeader.ProcessCurrentFolderAsLogical | src/task_list.cpp:1042-1044 | A logical folder has no custom columns |

## Left out

- Drawing is not modelled: ImGui, the table painter, column widths, the fade-in overlay and the floating-point scroll arithmetic that gives the first and last visible rows. Those two rows are parameters of `LazySortVisibleRows`.
- jsmn itself is not modelled: tokenising, `jsmn_parse` and `parse_json_into_tokens`. Tokens are a given sequence.
- `json_string_equals` is the `isDataKey` parameter.
- `string_atoi` is a field of the sort context.
- `json_token_to_right_part_of_id16`, `json_token_to_id8` and `process_task_custom_field_value` are left out. Task objects arrive as decoded properties, so the token-cursor arithmetic of `process_folder_contents_data_object` is not modelled.
- `Ingestion.ProcessTaskObject`: requires each array property at most once per object. A repeated one would make the source reserve a new block and keep counting from the old count, writing past the reservation.
- `Id_Hash_Map` is the `index` argument of `ProcessFolderContents`. Its `IdIndex` precondition says each index entry names a task with that id. Duplicate task ids and hash collisions are not modelled.
- `REALLOC`, the lazy arrays and the temporary allocator are not modelled. Reallocating the row buffer allocates a fresh array of the batch size. As in the source, the test is on the old task count, so a buffer larger than the batch can be replaced by a smaller one.
- Memory fresh from `REALLOC` is uninitialised in the source. The model reads it as a zeroed record, and as no cached status or assignee.
- `Ingestion.Slot`: the store is modelled by the previous batch only, not by its allocated capacity. The source reallocates only when a batch outgrows the old task count, so records of an earlier, larger batch survive past the previous batch's end. After batches of 10, 5 and 8 tasks, the source decodes task 5 of the third batch over the first batch's record 5, keeping its title when the object has none; the model decodes it over a zeroed record. The same holds for the cached statuses and first assignees (`TaskList.KeptOrEmpty`).
- `process_folder_contents_data` soft-resets the custom-field and parent-id arrays but not `assignee_ids`. That only matters for memory use, which the model does not track.
- `Sorting.Sort`: qsort is modelled as a stable insertion sort. Only what qsort promises is stated: a permutation, sorted when the comparator is a total preorder on the elements, and the unique such arrangement when no two distinct elements compare level (`SortedPermutationIsSort`). The id tie-break makes every order decisive except on tasks with equal ids, or on two tasks both missing the custom field under Reverse (`MissingCustomFieldsLevelInReverse`); there the model fixes an order that qsort leaves open. The title and assignee comparators are not transitive (`TitleOrderNotTransitive`, `MissingAssigneesNotAntisymmetric`), so for them only the permutation is claimed.
- `Comparators.StrNCmp`: models `strncmp` by the sign of its result (-1, 0 or 1). It stops at a NUL character.
- Comparators: integers are unbounded. The source computes these differences in 32 bits, and the model does not wrap them: the task-id difference, the natural-index difference (src/task_list.cpp:214), the status id difference times the direction (line 217) and the `string_atoi` difference (line 143).
- Comparators: the source has no comparator for an unsorted list, and dereferences a missing status. Both compare equal in the model, and the sorting methods require a known sort field and cached statuses for every task.
- `TaskList.Shown` and `TaskList.TaskList.RebuildHierarchically`: the active-only filter dereferences the task's cached status without a check (src/task_list.cpp:271), so a task with no registered status would crash the source. The model treats such a task as filtered out.
- Registries (statuses, users, custom fields) are maps passed as arguments. Their hashing and request handling are not modelled.
- `Records.ColumnTitle`: an empty custom-field title is measured with `strlen` in the source. The model returns the empty title.
- Timing and `printf` output of the sort functions are not modelled.
- `TaskList.TaskList.LazySortVisibleRows`: requires that the task list has been sorted after loading and has no queued rebuild. The frame order guarantees both, since the sort happens first in the same frame and the queued rebuild is processed at the end of the previous one.
- `TaskList.TaskList.FindFirstTopLevelRow`: requires the first visible row to be row 0 or inside the rows. Only the last visible row is clamped to the row count (src/task_list.cpp:714); the first (line 713) comes from the scroll position, and the model assumes it never lies past the rows. With no rows, row 0 is allowed and the pass does nothing.
- `TaskList.TaskList.ProcessFolderContents`: acyclicity of parent task ids is an implication over a ghost rank, not a check the source makes. With cyclic ids the source would recurse without end.
- `TaskList.TaskList.ProcessFolderContents`: `Valid()` is promised only when the fully expanded tree of the new tasks fits in the row buffer (`TreeFits`). The buffer holds one row per task, yet a task with two expanded parents is flattened under each, so the rows can outnumber the tasks. The source does not check this, and the model does not say what it would then write.

## Findings

| source | as written | input that shows it | evidently intended | confidence | as-written member | corrected member |
|---|---|---|---|---|---|---|
| src/task_list.cpp:516 | The default cell branch tests `column > custom_columns_start_index`, so column 3, the first custom column, never shows its value | A folder with one custom column and a task holding a value for that field: the cell at column 3 stays blank while its header shows the field's title | `column >= custom_columns_start_index`, so each custom column shows its own field's value | not executed | Records.FirstCustomColumnBlankAsWritten | Records.CellValue |

## Notes on behaviour

- A task missing the sort custom field compares as the sort direction. The raw +1 is multiplied by the direction, so such tasks sort first in Reverse.
- A row's visible sub-task count is the number of its shown direct sub-tasks. Deeper descendants are not counted.
- `sort_by_field` leaves the remembered custom field id and custom field as they were.
