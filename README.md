# Task tracker: store and view projection in Dafny

This project models the logic of a small browser task tracker. There are three parts:

- **The task store** (`store/tasks.ts`). It holds a list of tasks and has five mutators: add, update (a shallow merge), change status, remove and clear. Add, update, change status and remove compute a new list from the old one by append, `map` or `filter`; `clearTasks` stores the empty list outright (`set({ tasks: [] })`, store/tasks.ts:63). Each mutator replaces the stored list and emits one toast of a fixed severity.
- **The table's view projection** (`components/table.tsx`). It filters by status and by a case-insensitive title search, cuts one page out of the filtered list, counts the pages and numbers the rows. The table's own state (current page, search text, status filter, edit selection) is changed by the input handlers and reset by two effects.
- **One table row** (`components/tableItem.tsx`). It has three catalog lookups that fall back to the id, and handlers that pass the row's task id on to the store.

Modules, one per source file, plus two for the JavaScript built-ins they use:

- `JsArray` (`js_array.dfy`): `Array.prototype.filter`, `map`, `find` and `slice` on sequences. It also defines the order-preserving subsequence relation.
- `JsString` (`js_string.dfy`): `toLowerCase`, restricted to ASCII, and `includes`.
- `Tasks` (`tasks.dfy`): `TaskData`, `Partial<TaskData>` as `TaskPatch`, the object view of a task and of a patch (`TaskObject`, `PatchObject`) in which `Merge` is stated as a map override, the pure transformations `Updated`, `StatusUpdated` and `Removed`, and the `TaskStore` class. The class's `tasks` field is replaced by each method. Its `notifications` field is the log of emitted toasts.
- `Table` (`table.dfy`): the filter, the page slice, `totalPages`, the row numbers, and the `TableView` class with the reset effects as explicit steps.
- `TableItem` (`table_item.dfy`): the lookups over a `Catalog` parameter (the contents of `data/dummyData.json`), and the row handlers.

Three consequences of the code that the model makes explicit:

- `updateTask` spreads the whole patch over the task (store/tasks.ts:40), so a patch that carries an `id` replaces the task's id. `Tasks.UpdateCanDuplicateIds` shows that this can leave two tasks sharing one id.
- Nothing in the store enforces unique ids: `addTask` appends unconditionally (store/tasks.ts:32). Uniqueness is therefore a predicate (`UniqueIds`) that lemmas take as a hypothesis or show preserved, not a class invariant.
- Page 3 of 12 tasks at 5 per page is the slice `[10, 15)`, that is tasks 11 and 12 (`Table.TwelveTasksExample`).

## Model

| member | source | states |
|---|---|---|
| JsArray.Filter | store/tasks.ts:57 | the result is an order-preserving subsequence; every kept element passes the test; every passing element is kept, with its multiplicity |
| JsArray.Map | store/tasks.ts:39-41 | same length; element i of the result is the callback applied to element i |
| JsArray.Find | components/tableItem.tsx:35 | `None` exactly when no element passes; otherwise the first passing element |
| JsArray.Slice | components/table.tsx:47 | at most `end - start` elements; for non-negative bounds, the positions `[start, end)` that exist |
| JsArray.FilterIdempotent | store/tasks.ts:57 | filtering twice with one test equals filtering once |
| JsString.ToLowerCase | components/table.tsx:41 | same length; no ASCII capital remains; every character that is not an ASCII capital is unchanged; each capital becomes the letter 32 code points above it |
| JsString.ToLowerCaseIdempotent | components/table.tsx:41 | lower-casing twice equals lower-casing once |
| JsString.ToLowerCaseSlice | components/table.tsx:41 | lower-casing a slice equals slicing the lower-cased string |
| JsString.Includes | components/table.tsx:41 | true exactly when the needle occurs at some position of the haystack (so the empty needle always matches) |
| JsString.SubstringSurvivesLowering | components/table.tsx:41 | an exact occurrence is still found after both strings are lower-cased |
| Tasks.Updated | store/tasks.ts:37-41 | same length and order; tasks with another id are unchanged; each task with the id is merged with the patch |
| Tasks.StatusUpdated | store/tasks.ts:46-50 | same length and order; tasks with another id are unchanged; each task with the id gets the new status |
| Tasks.Removed | store/tasks.ts:55-57 | an order-preserving subsequence holding exactly the tasks with another id, each with its multiplicity |
| Tasks.Merge | store/tasks.ts:40 | seen as objects (key name to value), the merged task is the task's object overridden by the keys the patch carries, `id` included |
| Tasks.TaskObjectInjective | store/tasks.ts:40 | two tasks with the same object view are the same task, so the object equation determines the merge |
| Tasks.OverlayIsOverride | store/tasks.ts:40 | taking each field from the patch where it carries the key, and from the task otherwise, is the object override |
| Tasks.MergeEmptyPatch | store/tasks.ts:40 | merging the empty patch changes nothing |
| Tasks.MergeIdempotent | store/tasks.ts:40 | merging one patch twice equals merging it once |
| Tasks.MergeFullPatch | store/tasks.ts:40 | a patch carrying every field replaces the task |
| Tasks.UpdatedIdempotent | store/tasks.ts:39-41 | updating twice with one id and patch equals updating once, even when the patch changes the id |
| Tasks.StatusUpdatedIdempotent | store/tasks.ts:48-50 | changing a status twice to one value equals changing it once |
| Tasks.StatusUpdatedIsUpdate | store/tasks.ts:46-50 | a status change equals an update with the patch `{ status }` |
| Tasks.StatusUpdatedKeepsOtherFields | store/tasks.ts:48-50 | a status change alters only the status field, and only of the tasks with the id |
| Tasks.UpdatedAbsent | store/tasks.ts:39-41 | an update with an id that no task has leaves the list identical |
| Tasks.StatusUpdatedAbsent | store/tasks.ts:48-50 | a status change with an id that no task has leaves the list identical |
| Tasks.RemovedAbsent | store/tasks.ts:57 | removing an id that no task has leaves the list identical |
| Tasks.RemovedIdempotent | store/tasks.ts:55-57 | removing an id twice equals removing it once |
| Tasks.AddedFreshKeepsUniqueIds | store/tasks.ts:30-35 | appending a task with a new id keeps ids unique |
| Tasks.UpdatedKeepsIds | store/tasks.ts:37-41 | a patch with no id, or with the target's own id, changes no task's id, so unique ids stay unique |
| Tasks.EditReplacesTask | components/addNewTaskModal.tsx:67-77 | the edit path's `updateTask(data.id, taskData)` replaces each task carrying the id, changes no other task, and keeps ids unique |
| Tasks.UpdateCanDuplicateIds | store/tasks.ts:39-41 | a patch carrying another task's id leaves two tasks sharing one id |
| Tasks.RemovedKeepsUniqueIds | store/tasks.ts:57 | removing keeps unique ids unique |
| Tasks.RemovedPresentShrinksByOne | store/tasks.ts:57 | with unique ids, removing a present id shortens the list by exactly one |
| Tasks.TaskStore.constructor | store/tasks.ts:29 | the store starts with no tasks and no toasts |
| Tasks.TaskStore.AddTask | store/tasks.ts:30-35 | the new list is the old one plus the task at the end, with no duplicate check; exactly one success toast |
| Tasks.TaskStore.UpdateTask | store/tasks.ts:37-45 | the new list is `Updated` of the old; exactly one success toast, whether or not a task matched |
| Tasks.TaskStore.UpdateStatus | store/tasks.ts:46-54 | the new list is `StatusUpdated` of the old; exactly one info toast |
| Tasks.TaskStore.RemoveTask | store/tasks.ts:55-61 | the new list is `Removed` of the old; exactly one error toast |
| Tasks.TaskStore.ClearTasks | store/tasks.ts:62-65 | the new list is empty whatever it was; exactly one warning toast |
| Table.Keep | components/table.tsx:38-43 | a task passes exactly when (the status filter is empty or equals its status) and the lower-cased search text occurs in its lower-cased title |
| Table.FilteredTasks | components/table.tsx:38-43 | an order-preserving subsequence of the task list holding exactly the tasks that pass, each with its multiplicity |
| Table.NoFilterKeepsAll | components/table.tsx:38-43 | with both filters empty the filtered list is the task list |
| Table.SearchIgnoresCase | components/table.tsx:41 | the title "Write Report" passes the search "report" |
| Table.IndexOfLastTask | components/table.tsx:45 | for a positive page size, the end of the page is at least one page in exactly when the page number is at least 1 |
| Table.IndexOfFirstTask | components/table.tsx:46 | the start of page p is `(p-1)*k`; for a positive page size it is a valid (non-negative) position exactly when p >= 1 |
| Table.PagesAreAdjacent | components/table.tsx:45-46 | each page starts where the previous page ends |
| Table.CurrentTasks | components/table.tsx:45-47 | at most one page of tasks; for page p >= 1, the filtered positions `[(p-1)*k, p*k)` that exist |
| Table.TotalPages | components/table.tsx:51 | `ceil(n/k)`: `pages*k >= n`, `(pages-1)*k < n` when n > 0, and `pages = 0` exactly when n = 0 |
| Table.Rows | components/table.tsx:106-113 | one row per task on the page; row i carries number `(p-1)*k + i + 1`, a valid 1-based position whose filtered task is that row's task |
| Table.RowNumbersAreConsecutive | components/table.tsx:109 | the row numbers on page p run without gaps from `(p-1)*k + 1` to `(p-1)*k` plus the number of tasks shown |
| Table.ConcatPagesIsPrefix | components/table.tsx:45-47 | pages 1 to c together are the first `c*k` filtered tasks, or all of them |
| Table.AllPagesReassemble | components/table.tsx:45-51 | pages 1 to `totalPages` together are exactly the filtered list |
| Table.PageBeyondLastIsEmpty | components/table.tsx:45-51 | a page after the last is empty, because the slice does not clamp |
| Table.PagesInRangeAreFilled | components/table.tsx:45-51 | every page from 1 to `totalPages` is non-empty, and each page before the last is full |
| Table.PageShownIffInRange | components/table.tsx:45-51 | a page p >= 1 has tasks exactly when p <= `totalPages` |
| Table.TwelveTasksExample | components/table.tsx:45-51 | 12 tasks at 5 per page: 3 pages; page 1 is tasks 1-5; page 3 is tasks 11-12, numbered 11 and 12 |
| Table.PageAfterTasksChange | components/table.tsx:33-36 | the page after the `[tasks]` effect is 1 or the old page; it is 1 whenever at most 5 tasks are stored; a page >= 1 stays >= 1 |
| Table.SmallListShowsEverything | components/table.tsx:33-47 | once the effect has run on at most 5 stored tasks, the current page shows the whole filtered list, whatever the page and filters were |
| Table.RemovalCanStrandPage | components/table.tsx:33-36 | 11 tasks on page 3; remove the 11th; page 3 is kept (10 > 5 tasks); it is past the last page, so it shows nothing while tasks remain |
| Table.TableView.constructor | components/table.tsx:10-19 | page 1, empty search and status filter, no task being edited |
| Table.TableView.ShowsTable | components/table.tsx:66 | for a page >= 1, the table is rendered exactly when the page is one of pages 1 to `totalPages`; page 0 renders nothing |
| Table.TableView.ShowsPageButtons | components/table.tsx:117 | the buttons need the table and more than 5 tasks; for a page >= 1, exactly when the page is in range and more than 5 tasks are listed; with no filter active, only when there are at least 2 pages |
| Table.TableView.Paginate | components/table.tsx:49 | the page becomes the given number; nothing else changes |
| Table.TableView.SetSearchTitle | components/table.tsx:30-32 | the search text is set; the page goes back to 1 exactly when the text changed; after a change, a non-empty result shows the table |
| Table.TableView.SetStatusFilter | components/table.tsx:30-32 | the status filter is set; the page goes back to 1 exactly when the filter changed; after a change, a non-empty result shows the table |
| Table.TableView.TasksChanged | components/table.tsx:27-36 | the task list is the store's; the page goes back to 1 when there are at most 5 tasks, and otherwise is kept |
| Table.TableView.EditTask | components/table.tsx:22-25 | the task is remembered and edit mode is on; filters and page are unchanged |
| TableItem.GetUserNameById | components/tableItem.tsx:34-37 | the name of the first user with the id; the id itself when no user has it |
| TableItem.GetPriorityById | components/tableItem.tsx:39-42 | the label of the first priority with the id; the id itself when none has it |
| TableItem.GetStatusById | components/tableItem.tsx:44-47 | returns its argument, for every catalog |
| TableItem.UserNameOfListedUser | components/tableItem.tsx:34-37 | with unique user ids, a listed user's id shows that user's name |
| TableItem.HandleStatusChange | components/tableItem.tsx:25-27 | calls `updateStatus` with the row's id and the chosen value; only tasks with that id change |
| TableItem.HandleRemove | components/tableItem.tsx:29-31 | calls `removeTask` with the row's id; every task with another id stays |
| TableItem.HandleEdit | components/tableItem.tsx:64 | passes the row's task to the table's `editTask` |

## Left out

- Persistence is not modelled: the `persist` middleware and `localStorage` (store/tasks.ts:67-70). The serialiser is library code, so the model proves no snapshot round-trip.
- Toasts are not rendered; each mutator only appends its severity and message to `notifications`.
- React scheduling is not modelled. Effects are explicit `TableView` steps that a caller runs after each change. The one render in which `taskList` lags behind the store's `tasks` is not represented.
- `ShowsPageButtons` reads the copied `taskList`, while the source reads the store's `tasks` (components/table.tsx:117). The two are equal once `TasksChanged` has run.
- The add/edit modal (components/addNewTaskModal.tsx) is not modelled: its form, its Yup validation, its due-date check against the clock, and id generation from `Date.now()`. Only the edit path's call is stated, as `Tasks.EditReplacesTask`.
- Date display (`toLocaleDateString`, components/tableItem.tsx:55) and the other JSX markup are not modelled. This includes the option lists and the list of page buttons (components/table.tsx:119-125); `ShowsTable` and `ShowsPageButtons` model only when those parts are rendered.
- `toLowerCase` covers ASCII letters only; full Unicode case mapping is not modelled.
- A `TaskPatch` can say that a required field is absent or present with a value, and nothing else. An explicit `undefined` is modelled only for the optional `description`.
- `Math.ceil` on a floating-point quotient is modelled as integer ceiling division. The two agree for every length a JavaScript array can have (below 2^32), since the rounding error of such a quotient is far below 1/5, the least distance from a non-integer quotient by 5 to the next integer.
- `Tasks.TaskObject` reads a task without `description` and a task whose `description` is `undefined` alike. JavaScript tells them apart only through `in` or `Object.keys`, which the code does not use. Object keys are a datatype of the seven key names rather than strings.
- The contents of `data/dummyData.json` are not modelled; the catalogs are a `Catalog` parameter.
- src/pages/_document.tsx is not modelled. It is HTML markup only.
- JsArray.Slice: its contract spells out only non-negative bounds; for negative arguments it promises only the length bound. The body does implement JavaScript's counting from the end.
