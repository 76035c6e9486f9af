# Planner task list adapter, modelled in Dafny

The Planner app shows its tasks in a list with two sections. The list adapter
(`TaskArrayAdapter`) turns a flat list of tasks into display rows:

- a "Favorites:" header,
- the leading favorite tasks,
- an "Others:" header,
- the remaining tasks.

Headers appear only when the first task is a favorite and at least one task is not.
Three computations of the adapter must agree:

- the row count (`getItemCount`),
- the row kind, header or element (`getItemViewType`),
- the row-to-task offset used when a row is bound (`onBindViewHolder`).

All three derive from the cached field `posHeadOther`. It holds the index of the first
non-favorite task plus one, or 0 when there is none.

The project has three modules:

- `Tasks` (task.dfy): the task record and the two flag toggles.
- `Sections` (sections.dfy): the adapter's arithmetic as functions over `seq<Task>`. It
  also gives a reference display built once as a list of tagged rows
  (`Header(title) | Element(task)`), written with `LeadingFavorites` rather than the
  adapter's `indexOfFirst`. The lemmas prove that the count, the row kinds, the header
  titles and the row-to-task mapping agree with that display. They also prove that the
  mapping from element rows to list indices is a strictly increasing bijection.
- `Adapter` (adapter.dfy): the adapter as a class. It holds `taskList` and
  `posHeadOther`. `GetItemCount`, `GetItemViewType` and `ElementOffset` follow the
  Kotlin statement by statement, including the overwrite of `posHeadOther` each time.
  `OnBindViewHolder` takes the holder's view type as given and refreshes the cache only
  when it binds a task row, as the Kotlin does. Each method is proved against the
  `Sections` functions. The module also models the popup menu's click handler.

`Task` itself (a Kotlin class in the `task` package) is not part of this model. Its
fields are taken from their uses in the adapter and in the edit request of
`FirebaseStorage.kt` (lines 93-97).

## Model

| member | source | states |
|---|---|---|
| `Tasks.ToggleFavorite` | app/src/main/java/com/example/planner/adapter/TaskArrayAdapter.kt:129-131 | negates `favorite`; id, title, description and `done` are unchanged |
| `Tasks.ToggleDone` | app/src/main/java/com/example/planner/adapter/TaskArrayAdapter.kt:133-135 | negates `done`; id, title, description and `favorite` are unchanged |
| `Tasks.ToggleFavoriteInvolutive` | app/src/main/java/com/example/planner/adapter/TaskArrayAdapter.kt:130 | toggling favorite twice restores the task |
| `Tasks.ToggleDoneInvolutive` | app/src/main/java/com/example/planner/adapter/TaskArrayAdapter.kt:134 | toggling done twice restores the task |
| `Tasks.TogglesCommute` | app/src/main/java/com/example/planner/adapter/TaskArrayAdapter.kt:129-136 | the two toggles are independent of each other |
| `Sections.IndexOfFirstNonFavorite` | app/src/main/java/com/example/planner/adapter/TaskArrayAdapter.kt:34 | result is -1 or a valid index; at that index the task is not a favorite; every task before it (all tasks when -1) is a favorite |
| `Sections.PosHeadOther` | app/src/main/java/com/example/planner/adapter/TaskArrayAdapter.kt:30-34 | `posHeadOther` is at most the list length; when positive, the task just above it is the first non-favorite; when 0, every task is a favorite |
| `Sections.Sectioned` | app/src/main/java/com/example/planner/adapter/TaskArrayAdapter.kt:50 | the guard `posHeadOther > 0 && taskList[0].favorite` holds exactly when the list is non-empty, starts with a favorite and has some non-favorite; it never indexes an empty list |
| `Sections.ItemCount` | app/src/main/java/com/example/planner/adapter/TaskArrayAdapter.kt:33-45 | the count is the list length plus 2 when the first task is a favorite and some task is not, otherwise the list length; an empty list gives 0 rows |
| `Sections.ViewType` | app/src/main/java/com/example/planner/adapter/TaskArrayAdapter.kt:47-55 | every position gets a header id or an element id; header exactly when the list is sectioned and the position is 0 or the row just after the leading favorites; never a header on an unsectioned list |
| `Sections.RowOffset` | app/src/main/java/com/example/planner/adapter/TaskArrayAdapter.kt:69-73 | the bind offset of an element row equals the number of header rows above it (0, 1 or 2) |
| `Sections.RowToIndex` | app/src/main/java/com/example/planner/adapter/TaskArrayAdapter.kt:75 | `position - offset` is a valid list index for every element row; rows above "Others:" show favorites |
| `Sections.IndexToRow` | app/src/main/java/com/example/planner/adapter/TaskArrayAdapter.kt:69-76 | every list index is shown at some element row in range, which `RowToIndex` maps back to it (the mapping is onto) |
| `Sections.HeaderRowsAre` | app/src/main/java/com/example/planner/adapter/TaskArrayAdapter.kt:36-54 | the header rows are exactly {0, `posHeadOther`} when sectioned and none otherwise, so count minus headers is the list length |
| `Sections.RowToIndexIncreasing` | app/src/main/java/com/example/planner/adapter/TaskArrayAdapter.kt:71-75 | a later element row shows a later task (strictly increasing, hence one-to-one) |
| `Sections.IndexToRowOfRowToIndex` | app/src/main/java/com/example/planner/adapter/TaskArrayAdapter.kt:71-73 | `IndexToRow` undoes `RowToIndex`, so element rows and list indices are in bijection |
| `Sections.OthersSectionOnFavoritesFirst` | app/src/main/java/com/example/planner/adapter/TaskArrayAdapter.kt:69-75 | on a favorites-first sectioned list, a row below "Others:" shows a non-favorite and a row above it shows a favorite |
| `Sections.EachTaskShownOnce` | app/src/main/java/com/example/planner/adapter/TaskArrayAdapter.kt:33-45 | the tagged-row display lists every task exactly once, in list order |
| `Sections.CountAgrees` | app/src/main/java/com/example/planner/adapter/TaskArrayAdapter.kt:33-45 | for every list, the empty one included, the adapter's row count equals the number of rows of the tagged-row display |
| `Sections.RowsAgree` | app/src/main/java/com/example/planner/adapter/TaskArrayAdapter.kt:58-76 | the count, the header rows with their titles ("Favorites:" at row 0, "Others:" at the other) and the task of each element row all match the tagged-row display |
| `Adapter.MenuDispatch` | app/src/main/java/com/example/planner/adapter/TaskArrayAdapter.kt:121-139 | edit and remove dispatch the task unchanged; favorite and done dispatch it with exactly that flag flipped and the other fields kept |
| `Adapter.MenuFlagTwice` | app/src/main/java/com/example/planner/adapter/TaskArrayAdapter.kt:129-135 | applying the same flag entry twice gives back the original task |
| `Adapter.TaskArrayAdapter.constructor` | app/src/main/java/com/example/planner/adapter/TaskArrayAdapter.kt:28-30 | a new adapter has an empty list and `posHeadOther` 0 |
| `Adapter.TaskArrayAdapter.GetItemCount` | app/src/main/java/com/example/planner/adapter/TaskArrayAdapter.kt:33-45 | returns `ItemCount(taskList)` and refreshes the cache |
| `Adapter.TaskArrayAdapter.GetItemViewType` | app/src/main/java/com/example/planner/adapter/TaskArrayAdapter.kt:47-55 | returns `ViewType(taskList, position)` for any position and refreshes the cache |
| `Adapter.TaskArrayAdapter.ElementOffset` | app/src/main/java/com/example/planner/adapter/TaskArrayAdapter.kt:69-73 | computes `RowOffset` for an element row and refreshes the cache |
| `Adapter.TaskArrayAdapter.OnBindViewHolder` | app/src/main/java/com/example/planner/adapter/TaskArrayAdapter.kt:58-92 | the row bound at any position below the count, with the holder's view type for that row, is the tagged-row display's row there: a header with its title, or the task at `position - offset`; a header row leaves the cache as it was, a task row refreshes it |
| `Adapter.TaskArrayAdapter.SetList` | app/src/main/java/com/example/planner/adapter/TaskArrayAdapter.kt:102-107 | the list becomes the new list element for element; the cache is left as it was |
| `Adapter.TaskArrayAdapter.OnMenuItemClick` | app/src/main/java/com/example/planner/adapter/TaskArrayAdapter.kt:121-136 | dispatches `MenuDispatch` of the task at the row's index; the list holds the dispatched task at that index and is otherwise unchanged; the cache is not touched |

## Left out

- `DiffUtil.calculateDiff` and `dispatchUpdatesTo` in `setList`: the minimal-diff computation is library code that is not part of this model, so `SetList` models only the list replacement.
- View holders, layout inflation, the strike-through paint flags for done tasks, and the popup widget setup with its menu titles: these are UI rendering. `OnBindViewHolder` returns the row's content (`Header(title)` or `Element(task)`) instead of writing text views.
- `Adapter.TaskArrayAdapter.OnBindViewHolder`: assumes that the holder's `adapterPosition` equals the bound position and that its view type is the one `getItemViewType` gives for that position. The framework promises this when no update is pending.
- `Adapter.TaskArrayAdapter.OnMenuItemClick`: merges two Kotlin events into one. The more-button click picks `taskList[adapterPosition - offset]` (line 89), with the offset captured when the row was bound. The later menu-entry click mutates that captured object (lines 130 and 134). The model computes the index from the current list and applies the entry at once. A `setList` between bind and click, or while the popup is open, can leave the captured object at another index or outside the list; the model does not capture that.
- `Adapter.TaskArrayAdapter.OnMenuItemClick`: the Kotlin code mutates the `Task` object itself. The model captures this aliasing only for the adapter's own list, by writing the flipped record back at that index. Other holders of the same object, such as the storage's task map, are not modelled.
- `Adapter.MenuItem`: Kotlin's `when (item!!.itemId)` throws on a null menu item and does nothing for an id outside the four entries. The menu ids come from `R.menu.task`, which is not part of this model, so the model has exactly the four entries.
- `Sections.ItemCount`: Kotlin's 32-bit `Int` overflow of `size + 2` is not modelled, because lists never approach 2^31 elements.
- The presenter (`MainPresenter.kt`, `TaskPresenter.kt`), the storage (`Storage.kt`, `FirebaseStorage.kt`) and the screens (`MainActivity.kt`, `ListFragment.kt`): asynchronous backend callbacks, observer registration and Android lifecycle, outside the adapter. The numeric values of `TaskActionId` are not shown, so the actions are an enumeration.
