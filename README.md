# Task client reconciliation, modelled in Dafny

This project models the client-side core of a to-do web client. The model covers:

- how the **all-tasks view** (`src/app/page.tsx`) patches its local task list by `id` after each
  acknowledged remote call;
- how the **starred view** (`src/app/starred/page.tsx`) refetches after every write and keeps
  only starred tasks;
- the **display ordering** both views compute: a sorted copy by id, by title or by completion
  status, ascending or descending;
- the **create form**'s blank-title guard and buffer reset (`TaskForm.tsx`);
- the **task card**'s edit buffer (`TaskCard.tsx`).

Files and modules:

| file | module | contents |
|---|---|---|
| `tasks.dfy` | `Tasks` | the `Task` record, the view options, the remote calls (`ApiCall`), `Filter` (JavaScript `filter`), `PatchById` (the `map` that patches one id) |
| `reconcile.dfy` | `Reconcile` | the pure list updates (toggles, edit, single and bulk delete, starred projection) and their laws |
| `ordering.dfy` | `Ordering` | both comparators, a stable insertion sort (`Sort`) and its laws |
| `in_place_sort.dfy` | `InPlaceSort` | the in-place array insertion sort, proved to compute `Sort` |
| `all_tasks_view.dfy` | `AllTasksPage` | class `AllTasksView`: the state and the handlers of the all-tasks page |
| `starred_view.dfy` | `StarredPage` | class `StarredView`: the state and the handlers of the starred page |
| `task_form.dfy` | `TaskFormComponent` | class `TaskForm` and ECMAScript `trim` |
| `task_card.dfy` | `TaskCardComponent` | class `TaskCard` and the events its buttons emit |

Remote calls are inputs. A handler receives the outcome of each call it awaits:

- `ack: bool` for a toggle, a delete or an update;
- `Reply<T>` (`Ok(value)` or `Failed`) for a list or a create;
- for a bulk delete, the set of ids whose DELETE the server rejects.

Each handler returns the sequence of `ApiCall`s it issued, so "no call was made" and "one DELETE
per target" are part of the contracts. Title collation (`localeCompare`) is a parameter
`collate`. Sortedness by title is proved when `collate` is consistent in ECMAScript's sense
(`ConsistentCollation`): every title compares equal to itself, swapping the arguments swaps the
sign, and "not after" is total and transitive.

`Array.prototype.sort` is stable. For a consistent comparator (`ConsistentComparator`), only one
stable sorted permutation exists. `Ordering.Sort` (insertion sort) is therefore the order the views
display. `SortSorted`, `SortPermutes` and `SortStable` prove that `Sort` is sorted, a
permutation and stable.

Differences between the two views that the model keeps:

- The starred view catches and logs every error, and none of its handlers rejects. The
  all-tasks view has no `catch`, so a failed call makes its handler reject.
- The starred view's edit sends `{ title, description }` with the description as given: no
  `id` and no `''` default. The all-tasks view sends `{ id, title, description || '' }`.
- The two comparators are written differently: a ternary in `page.tsx` and `Number(...)` in
  `starred/page.tsx`. `Ordering.ComparatorsAgree` proves that they agree on every pair of
  tasks.

## Model

| member | source | states |
|---|---|---|
| `Tasks.Filter` | src/app/page.tsx:62 | the result has exactly the input's elements that satisfy the predicate and is no longer than the input |
| `Tasks.FilterConcat` | src/app/page.tsx:62 | filtering a concatenation is the concatenation of the filtered parts, so kept elements keep their relative order |
| `Tasks.FilterPartition` | src/app/page.tsx:74-80 | a predicate and its negation split a list into two parts whose multisets add up to the list's |
| `Tasks.FilterCommute` | src/app/starred/page.tsx:23 | two filters commute |
| `Tasks.FilterIdempotent` | src/app/starred/page.tsx:23 | filtering twice with one predicate is filtering once |
| `Tasks.PatchById` | src/app/page.tsx:46-48 | same length; position i holds f(task) when its id matches and the task unchanged otherwise |
| `Tasks.Ids` | src/app/page.tsx:175-177 | the ids of the displayed tasks (the cards' keys), position by position |
| `Tasks.PatchKeepsIds` | src/app/page.tsx:94-96 | a patch that keeps each task's id leaves the list's ids and their order unchanged |
| `Tasks.FilterKeepsUniqueIds` | src/app/page.tsx:62 | filtering a list with unique ids yields a list with unique ids |
| `Tasks.Flipped` | src/app/page.tsx:108-110 | the sort order after a toggle differs from the one before |
| `Tasks.FlippedTwice` | src/app/starred/page.tsx:98-100 | toggling the sort order twice restores it |
| `Reconcile.ToggleStarIn` | src/app/page.tsx:44-50 | same length and order; every task with the id has `starred` negated and all other fields kept; every other task is unchanged |
| `Reconcile.ToggleCompleteIn` | src/app/page.tsx:52-58 | the same law for `completed` |
| `Reconcile.OrEmpty` | src/app/page.tsx:87 | an absent description becomes `''`; a present one is kept (`'' \|\| ''` is `''`) |
| `Reconcile.EditIn` | src/app/page.tsx:83-98 | every task with the id gets the new title and `description \|\| ''`, keeping id, flags and timestamps; every other task is unchanged |
| `Reconcile.WithoutId` | src/app/page.tsx:60-63 | a task remains exactly when it was present and carries another id |
| `Reconcile.DeleteTargets` | src/app/page.tsx:66-71 | a task is targeted exactly when it is in the list and matches the option: completed, unfinished, or any task |
| `Reconcile.Remaining` | src/app/page.tsx:74-80 | a task is kept exactly when it is in the list and the option does not target it |
| `Reconcile.DeleteCalls` | src/app/page.tsx:73 | one DELETE per target, for that target's id, in target order |
| `Reconcile.BatchSucceeds` | src/app/page.tsx:73 | `Promise.all` resolves exactly when none of the issued DELETEs is for a rejected id |
| `Reconcile.StarredOnly` | src/app/starred/page.tsx:23 | a task is kept exactly when it is in the server's list and starred |
| `Reconcile.ToggleStarTwice` | src/app/page.tsx:46-48 | a second star toggle of the same id restores the list |
| `Reconcile.ToggleCompleteTwice` | src/app/page.tsx:54-56 | a second completion toggle of the same id restores the list |
| `Reconcile.EditTwice` | src/app/page.tsx:94-96 | repeating an edit changes nothing further |
| `Reconcile.PatchesKeepIds` | src/app/page.tsx:44-58 | toggles and edits keep the list's ids and their order |
| `Reconcile.WithoutIdRemovesOne` | src/app/page.tsx:60-63 | with unique ids, a single delete removes one task when the id is present and none otherwise, and ids stay unique |
| `Reconcile.BulkDeletePartition` | src/app/page.tsx:65-81 | the targets and the remaining tasks partition the prior list: multisets add up, and each task is in exactly one part |
| `Reconcile.RemainingIsUntargeted` | src/app/page.tsx:74-80 | the remaining list is the prior list with exactly the targets filtered out, in prior order (`all` leaves it empty) |
| `Reconcile.FilterSame` | src/app/page.tsx:76-78 | filters with pointwise-equal predicates agree |
| `Reconcile.FilterNone` | src/app/page.tsx:79 | a predicate that holds of nothing filters everything out |
| `Reconcile.BulkDeleteCompletedExample` | src/app/page.tsx:65-81 | on ids 1 (completed), 2 (open), 3 (completed), deleting completed tasks targets 1 and 3 and keeps 2 |
| `Reconcile.StarredOnlyIdempotent` | src/app/starred/page.tsx:23 | filtering to starred tasks twice is filtering once |
| `Reconcile.FilterPatchCommute` | src/app/starred/page.tsx:46-53 | a patch that does not change membership commutes with a filter |
| `Reconcile.StarredAfterToggleComplete` | src/app/starred/page.tsx:46-53 | the starred refetch after a completion toggle equals the all-tasks patch restricted to starred tasks |
| `Reconcile.StarredAfterEdit` | src/app/starred/page.tsx:80-88 | the same agreement for an edit |
| `Reconcile.StarredAfterDelete` | src/app/starred/page.tsx:55-62 | the same agreement for a single delete |
| `Reconcile.StarredAfterUnstar` | src/app/starred/page.tsx:37-44 | toggling the star of a starred task makes the starred refetch drop exactly that id |
| `Ordering.HomeCompare` | src/app/page.tsx:112-129 | by date: zero exactly for equal ids, negative exactly when the id is smaller (larger when descending); by title: the collation, with the arguments swapped when descending; by status: zero exactly when both have the same completion, negative exactly when an unfinished task meets a completed one (the reverse when descending) |
| `Ordering.Number` | src/app/starred/page.tsx:111 | `Number(true)` is 1 and `Number(false)` is 0 |
| `Ordering.StarredCompare` | src/app/starred/page.tsx:102-112 | the starred view's comparator, with its `Number` differences, returns what the all-tasks comparator returns on every pair |
| `Ordering.Insert` | src/app/page.tsx:112 | one step of the stable sort: the task is inserted after every element that does not compare greater; the result is one longer (`InsertPermutes`, `InsertSorted` and `InsertStable` state the rest) |
| `Ordering.Sort` | src/app/page.tsx:112 | the stand-in for the stable `Array.prototype.sort`: same length as the input (`SortPermutes`, `SortSorted` and `SortStable` state that it is a sorted, stable permutation) |
| `Ordering.InsertPermutes` | src/app/page.tsx:112 | one insertion step adds exactly the inserted task |
| `Ordering.SortPermutes` | src/app/page.tsx:112 | the sorted list is a permutation of the tasks |
| `Ordering.ComparatorsAgree` | src/app/starred/page.tsx:102-112 | the starred view's comparator equals the all-tasks view's on every pair |
| `Ordering.SortAgrees` | src/app/starred/page.tsx:102-112 | comparators equal on every pair yield the same sorted list |
| `Ordering.InsertAgrees` | src/app/starred/page.tsx:102-112 | comparators equal on every pair yield the same insertion |
| `Ordering.ViewsSortAlike` | src/app/starred/page.tsx:102-112 | both views display the same order for the same list and options |
| `Ordering.ComparatorIsConsistent` | src/app/page.tsx:112-129 | every option's comparator is consistent, the title option when the collation is |
| `Ordering.StarredComparatorIsConsistent` | src/app/starred/page.tsx:102-112 | the starred view's comparator is consistent under the same condition |
| `Ordering.InsertMembers` | src/app/page.tsx:112 | an insertion holds only the inserted task and the prefix's tasks |
| `Ordering.InsertSorted` | src/app/page.tsx:112-129 | inserting into a sorted prefix keeps it sorted |
| `Ordering.SortSorted` | src/app/page.tsx:112-129 | the sorted list is ordered by the comparator whenever it is consistent |
| `Ordering.InsertStable` | src/app/page.tsx:112-129 | an insertion appends the inserted task to its equivalence class and leaves the class's order alone |
| `Ordering.SortStable` | src/app/page.tsx:112-129 | stability: the tasks equivalent to any task keep their input order |
| `Ordering.SortByDate` | src/app/page.tsx:113-115 | by date, ids are nondecreasing ascending and nonincreasing descending |
| `Ordering.SortByTitle` | src/app/page.tsx:116-120 | by title, titles follow the collation ascending and the reverse descending |
| `Ordering.InsertBetween` | src/app/page.tsx:121-127 | a task inserted before a group that follows it lands right after the group that does not |
| `Ordering.InsertPastLast` | src/app/page.tsx:112 | a last element that compares greater than the task stays last after the insertion |
| `Ordering.SortTwoGroups` | src/app/page.tsx:121-127 | a comparator that only puts `hi` tasks after `lo` tasks sorts into the `lo` tasks and then the `hi` tasks, each group in input order |
| `Ordering.SortByStatus` | src/app/page.tsx:121-127 | by status, ascending is all unfinished tasks then all completed, descending the reverse, each group in input order |
| `Ordering.SortByDateAscExample` | src/app/page.tsx:113-115 | ids 3, 1, 2 sort ascending to 1, 2, 3 |
| `Ordering.SortByDateDescExample` | src/app/page.tsx:113-115 | ids 3, 1, 2 sort descending to 3, 2, 1 |
| `InPlaceSort.ShiftAfter` | src/app/page.tsx:112 | the inner loop of the in-place insertion: every cell from the returned gap to i - 1 compares greater than the key and moves one cell right, the cell before the gap does not, and the cells before the gap and after i are untouched |
| `Ordering.InsertAtGap` | src/app/page.tsx:112 | when the cell before a gap does not follow the task and every cell after it does, the insertion puts the task in that gap |
| `Ordering.PlacedKey` | src/app/page.tsx:112 | the cells after the final write equal the prefix with the key placed |
| `InPlaceSort.InsertInPlace` | src/app/page.tsx:112 | the in-place insertion step leaves the first i+1 cells equal to `Insert` of the old prefix and the old `a[i]`; later cells are untouched |
| `InPlaceSort.SortInPlace` | src/app/page.tsx:112 | the array ends as `Sort` of its old contents |
| `InPlaceSort.SortedCopy` | src/app/page.tsx:112 | `[...tasks].sort(cmp)` equals `Sort`, is a permutation of the input, and is sorted for a consistent comparator; the input is not touched |
| `AllTasksPage.AllTasksView.constructor` | src/app/page.tsx:13-17 | empty list, not loading, date, ascending, delete all |
| `AllTasksPage.AllTasksView.FetchTasks` | src/app/page.tsx:20-28 | one GET; on success the list is the server's; on failure it is kept and the handler rejects; loading ends false |
| `AllTasksPage.AllTasksView.CreateTask` | src/app/page.tsx:34-42 | one create call with the form's task; on success the server's task is appended unaltered after the prior tasks; on failure the list is kept; loading ends false either way |
| `AllTasksPage.AllTasksView.ToggleStar` | src/app/page.tsx:44-50 | one toggle call; on acknowledgement the list is `ToggleStarIn`; on failure it is kept and the handler rejects |
| `AllTasksPage.AllTasksView.ToggleComplete` | src/app/page.tsx:52-58 | one toggle call; on acknowledgement the list is `ToggleCompleteIn`; on failure it is kept and the handler rejects |
| `AllTasksPage.AllTasksView.DeleteTask` | src/app/page.tsx:60-63 | one DELETE; on acknowledgement the list is `WithoutId`; on failure it is kept and the handler rejects |
| `AllTasksPage.AllTasksView.DeleteAllTasks` | src/app/page.tsx:65-81 | one DELETE per target; if none is rejected the list becomes `Remaining`; otherwise it is kept and the handler rejects |
| `AllTasksPage.AllTasksView.EditTask` | src/app/page.tsx:83-98 | one update with `{ id, title, description \|\| '' }`; on acknowledgement the list is `EditIn`; on failure it is kept |
| `AllTasksPage.AllTasksView.SetSortOption` | src/app/page.tsx:100-102 | the sort option becomes the chosen one, nothing else changes |
| `AllTasksPage.AllTasksView.SetDeleteOption` | src/app/page.tsx:104-106 | the delete option becomes the chosen one, nothing else changes |
| `AllTasksPage.AllTasksView.ToggleSortOrder` | src/app/page.tsx:108-110 | the sort order swaps between ascending and descending |
| `AllTasksPage.AllTasksView.SortedTasks` | src/app/page.tsx:112-129 | the displayed list is `Sort` of `tasks` with the current options' comparator, a permutation of `tasks`, and ordered when the comparator is consistent |
| `StarredPage.AfterRefetch` | src/app/starred/page.tsx:37-88 | after an acknowledged write and a successful refetch, a task is shown exactly when it is in the server's list and starred; otherwise the prior list stays |
| `StarredPage.AfterRefetchNeverPatches` | src/app/starred/page.tsx:37-88 | the list is either kept or replaced by the starred filter of a server list, never patched |
| `StarredPage.StarredView.constructor` | src/app/starred/page.tsx:12-16 | empty list, not loading, delete all, date, ascending; every held task is starred |
| `StarredPage.StarredView.FetchStarredTasks` | src/app/starred/page.tsx:19-30 | one GET; on success the list is the starred tasks of the reply, in server order; on failure it is kept; loading ends false; all held tasks stay starred |
| `StarredPage.StarredView.RefetchIf` | src/app/starred/page.tsx:40 | a refetch is issued and applied only after an acknowledged write |
| `StarredPage.StarredView.ToggleStar` | src/app/starred/page.tsx:37-44 | one toggle call, then a refetch only if acknowledged; the list changes only through that refetch |
| `StarredPage.StarredView.ToggleComplete` | src/app/starred/page.tsx:46-53 | one toggle call, then a refetch only if acknowledged; the list changes only through that refetch |
| `StarredPage.StarredView.DeleteTask` | src/app/starred/page.tsx:55-62 | one DELETE, then a refetch only if acknowledged; the list changes only through that refetch |
| `StarredPage.StarredView.DeleteAllStarredTasks` | src/app/starred/page.tsx:64-78 | one DELETE per target chosen from the starred list by the option; the refetch runs only if none is rejected |
| `StarredPage.StarredView.EditTask` | src/app/starred/page.tsx:80-88 | one update with `{ title, description }` as given, then a refetch only if acknowledged |
| `StarredPage.StarredView.SetDeleteOption` | src/app/starred/page.tsx:90-92 | the delete option becomes the chosen one |
| `StarredPage.StarredView.SetSortOption` | src/app/starred/page.tsx:94-96 | the sort option becomes the chosen one |
| `StarredPage.StarredView.ToggleSortOrder` | src/app/starred/page.tsx:98-100 | the sort order swaps between ascending and descending |
| `StarredPage.StarredView.SortedTasks` | src/app/starred/page.tsx:102-112 | the displayed list is `Sort` with this view's comparator, equals the all-tasks view's order for the same list, is a permutation, and is ordered for a consistent comparator |
| `TaskFormComponent.TrimStart` | src/app/components/TaskForm.tsx:13 | the result is a suffix of the input, starts with a non-whitespace character or is empty, and only whitespace was dropped |
| `TaskFormComponent.TrimEnd` | src/app/components/TaskForm.tsx:13 | the result is a prefix of the input, ends with a non-whitespace character or is empty, and only whitespace was dropped |
| `TaskFormComponent.TrimStartEmpty` | src/app/components/TaskForm.tsx:13 | trimming the start empties a string exactly when it is all whitespace |
| `TaskFormComponent.TrimEndEmpty` | src/app/components/TaskForm.tsx:13 | trimming the end empties a string exactly when it is all whitespace |
| `TaskFormComponent.BlankIffAllWhitespace` | src/app/components/TaskForm.tsx:13 | `title.trim()` is empty exactly when every character of the title is whitespace |
| `TaskFormComponent.Trim` | src/app/components/TaskForm.tsx:13 | `trim()`: the result is no longer than the input, neither starts nor ends with whitespace, and every character dropped before or after it is whitespace |
| `TaskFormComponent.IsBlank` | src/app/components/TaskForm.tsx:13 | the guard `!title.trim()` holds exactly when every character of the title is whitespace |
| `TaskFormComponent.TaskForm.constructor` | src/app/components/TaskForm.tsx:8-9 | both buffers start empty |
| `TaskFormComponent.TaskForm.TypeTitle` | src/app/components/TaskForm.tsx:37 | the title buffer holds what was typed |
| `TaskFormComponent.TaskForm.TypeDescription` | src/app/components/TaskForm.tsx:55 | the description buffer holds what was typed |
| `TaskFormComponent.TaskForm.HandleSubmit` | src/app/components/TaskForm.tsx:11-18 | a blank title issues no `onCreate` and keeps both buffers; otherwise `onCreate` gets the title as typed (not trimmed) and the description, and both buffers are cleared |
| `TaskCardComponent.TaskCard.constructor` | src/app/components/TaskCard.tsx:28-30 | not editing; the drafts equal the task's title and description |
| `TaskCardComponent.TaskCard.ReceiveTask` | src/app/components/TaskCard.tsx:28-30 | a new `task` prop with the same id replaces the task and leaves the drafts as they were |
| `TaskCardComponent.TaskCard.EditClick` | src/app/components/TaskCard.tsx:32-34 | editing starts and the drafts are untouched |
| `TaskCardComponent.TaskCard.TypeTitle` | src/app/components/TaskCard.tsx:82 | the title draft holds what was typed |
| `TaskCardComponent.TaskCard.TypeDescription` | src/app/components/TaskCard.tsx:89 | the description draft holds what was typed |
| `TaskCardComponent.TaskCard.Save` | src/app/components/TaskCard.tsx:36-39 | `onEdit` gets this card's id and the current drafts; editing ends |
| `TaskCardComponent.TaskCard.Cancel` | src/app/components/TaskCard.tsx:41-45 | the drafts are restored to the task's title and description, editing ends, no callback fires |
| `TaskCardComponent.TaskCard.ClickStar` | src/app/components/TaskCard.tsx:131 | the star button reports this card's task id |
| `TaskCardComponent.TaskCard.ClickComplete` | src/app/components/TaskCard.tsx:64 | the completion button reports this card's task id |
| `TaskCardComponent.TaskCard.ClickDelete` | src/app/components/TaskCard.tsx:171 | the delete button reports this card's task id |

## Left out

- `src/app/api/tasks.ts` is not part of this model beyond its interface. Each wrapper only logs
  and rethrows, so each remote call is an input that succeeds (with the server's value) or
  fails. Logging (`console.error`) is not modelled.
- The server itself is not modelled. The `StarredAfter*` lemmas assume the server applied the
  same change to the list the client holds.
- `Promise.all` concurrency is modelled sequentially: a bulk delete either succeeds as a whole
  or fails as a whole. Deletes that succeeded on the server before another one failed are not
  tracked, and neither are races between user actions. The all-tasks handlers read a stale
  `tasks` closure; that captured value is not modelled separately from the current state.
- React mounting (`useEffect`) and re-render scheduling are not modelled. The initial fetch is
  the `FetchTasks` / `FetchStarredTasks` method, called by whoever drives the model.
- JSX markup, CSS, icons, `Navbar.tsx`, and the loading and empty-list messages are
  presentational and are not modelled. `formatDate` (`TaskCard.tsx:47-56`) depends on host
  locale and time facilities and is not modelled either.
- `localeCompare` is host collation. It is the parameter `collate`, and nothing is assumed about
  it except where a lemma requires it to be consistent.
- `AllTasksPage.AllTasksView.SortedTasks`: ordering is proved only when the comparator is
  consistent. For a title sort under an inconsistent collation, `Array.prototype.sort` gives
  an implementation-defined order; the model gives the insertion sort's order.
- `StarredPage.StarredView.SortedTasks`: the same condition on the collation.
- Ids are JavaScript numbers, modelled as unbounded `int`. Floating-point subtraction in
  `a.id - b.id` is exact for the integer ids a server assigns and is not modelled further.
- The comparator's final `return 0` (`page.tsx:128`) cannot be reached, because the sort option
  is always one of the three values. It has no counterpart in the model.
- `TaskCardComponent.TaskCard.Save`, `Cancel`, `EditClick`, `TypeTitle` and `TypeDescription`
  require the editing state in which their button or input is rendered (buttons at
  `TaskCard.tsx:140-167`, inputs at `TaskCard.tsx:76-93`). A click on a button or typing into an
  input that is not shown is not modelled.
