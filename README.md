# Kanbang task store, modelled in Dafny

Kanbang is a personal kanban board. Its server keeps one table of tasks and
exposes four handlers: `list`, `create`, `update` and `remove`. Each task has a
title, optional notes, a column, a cadence, a priority, timestamps and a
`searchText` field derived from the title and the notes. Over that table the
browser adds three small pieces of logic:

- the edit dialog and the quick-add dialog, which trim and check titles before
  calling the store;
- the archive page's search filter;
- the board's cadence filter toggle.

This project models that core and proves what it promises.

- `wrappers.dfy`: `Option` (`T | undefined`, `T | null`, and `??` as `GetOr`) and `Result` (a handler that throws).
- `text.dfy`: JavaScript's `trim`, `toLowerCase` and `includes`, plus the decimal rendering of a count.
  Each comes with its characterising lemmas. `Trim` is pinned down by `TrimUnique`: whitespace, then a trimmed middle, then whitespace, trims to that middle.
- `schema.dfy`: the task record and the value domains of column, cadence and priority, with the schema's literal validators.
  `Column` has all seven values that occur in the program. `SchemaColumn` picks out the five the schema's union admits.
  `create` writes `inbox` and the board shows `inbox` and `blocked`, but the schema admits neither; the lemmas `ColumnMismatch` and `NewTaskOutsideSchema` state this.
  Required fields are plain fields of `Task`. `notes`, `completedAt` and `archivedAt` are `Option`s, as the schema makes them optional.
- `tasks.dfy`: the class `TaskStore`, holding the table as a `map<nat, Task>` and a counter for fresh ids.
  Its invariant `Valid()` says that every task sits under its own id, below the counter, and has `searchText == Trim(title + " " + (notes ?? ""))`.
  `update` builds its patch field by field, and the method proves that the patched task equals `Merged`, the `??` meaning of an update.
- `archive_view.dfy`: the archive search filter, the lookup of the open task and the count line.
- `task_modal.dfy`, `quick_add.dfy`: the two dialogs as classes holding their form state. Their handlers call the store's methods.
- `cadence_filter.dfy`: the filter buttons and the click toggle.

The clock (`Date.now()`) is the `now` parameter of every mutation. Ids come from
a counter, so no id is handed out twice: `create`, and the quick-add submit that
calls it, advance the counter by one, and no other operation changes it. Whether
a dialog handler calls the caller's `onClose` is modelled as that handler's
`closed` result, in both dialogs. `TaskStore`'s constructor (an empty table, the
counter at 0) stands for the empty database and has no source line of its own.

Three facts about the code are worth stating outright:

- The server handlers `create` and `update` accept an empty or blank title. Only the two dialogs reject one.
- The `remove` handler makes no presence check of its own. Its only statement is `ctx.db.delete(args.id)`.
  What the runtime then does with an absent id is not modelled; the model's `Remove` leaves the table unchanged.
- An inactive (blank) archive search shows every archived task.

## Model

| member | source | states |
|---|---|---|
| `Text.TrimSplit` | convex/tasks.ts:28 | `trim` returns the middle of its input: everything before and after it is whitespace, and it has no whitespace at either end |
| `Text.TrimUnique` | convex/tasks.ts:28 | any split of a string into whitespace, a trimmed middle and whitespace has `trim` returning that middle |
| `Text.TrimIdempotent` | src/components/QuickAdd.tsx:34 | trimming twice is trimming once |
| `Text.TrimEmptyIffAllSpace` | src/components/ArchiveView.tsx:29 | a string trims to empty exactly when every character is whitespace |
| `Text.TrimTrailingSpace` | convex/tasks.ts:28 | a trimmed string followed by whitespace trims back to itself |
| `Text.TrimLeadingSpace` | convex/tasks.ts:72 | whitespace in front of a string does not change how it trims |
| `Text.ToLower` | src/components/ArchiveView.tsx:33-35 | the result has the input's length, and each character is the lower-cased input character |
| `Text.LowerTrimCommute` | src/components/ArchiveView.tsx:35 | lower-casing then trimming equals trimming then lower-casing |
| `Text.LowerAlikeSameSpaces` | src/components/ArchiveView.tsx:29 | two strings that lower-case alike are entirely whitespace together or not at all |
| `Text.IncludesIsInfix` | src/components/ArchiveView.tsx:35 | `includes` is true exactly when the needle occurs at some position of the haystack |
| `Text.LowerKeepsInfix` | src/components/ArchiveView.tsx:33-35 | an occurrence survives lower-casing both sides |
| `Text.TrimKeepsInner` | convex/tasks.ts:28 | a non-empty stretch that starts and ends with non-whitespace still occurs after trimming, shifted left by exactly the leading whitespace |
| `Text.DecimalRoundTrip` | src/components/ArchiveView.tsx:57 | the rendered digits of a count read back as that count |
| `Text.DecimalStringDigits` | src/components/ArchiveView.tsx:57 | a count renders as digits only, with no leading zero, and as "0" exactly for zero |
| `Schema.SchemaColumnDomain` | convex/schema.ts:11-17 | the column validator accepts exactly backlog, in_progress, needs_info, done and archived, each as the matching column |
| `Schema.SchemaColumnRoundTrip` | convex/schema.ts:11-17 | a column's literal passes the validator exactly when the column is one of the schema's five |
| `Schema.ColumnMismatch` | src/components/Board.tsx:3-10 | inbox and blocked are board columns the schema rejects; archived is a schema column the board lacks; the schema's columns are the board's minus those two, plus archived |
| `Schema.CadenceDomain` | convex/schema.ts:20-25 | cadence accepts exactly daily, weekly, monthly and none, each literal naming exactly its cadence |
| `Schema.PriorityDomain` | convex/schema.ts:26-30 | priority accepts exactly low, medium and high, each literal naming exactly its priority |
| `Schema.SearchTextHoldsTitleAndNotes` | convex/schema.ts:38-39 | the trimmed title and the trimmed notes each occur in the search field |
| `Schema.SearchTextOfBareTitle` | convex/tasks.ts:28 | a trimmed title without notes is its own search field |
| `Schema.SearchTextOfTrimmedParts` | convex/tasks.ts:28 | with a trimmed non-empty title and trimmed non-empty notes the search field is exactly title, space, notes |
| `Tasks.InIdOrder` | convex/tasks.ts:7 | the listing holds every task once, each under its own id, in increasing id order |
| `Tasks.TaskStore.List` | convex/tasks.ts:4-9 | `list` returns every stored task, each once, in creation order, and nothing else |
| `Tasks.TaskStore.Create` | convex/tasks.ts:11-41 | `create` adds exactly one task under a never-used id, equal to `NewTask` of its arguments. Other tasks are unchanged. The store invariant holds afterwards, and so does time ordering |
| `Tasks.TaskStore.Update` | convex/tasks.ts:43-85 | an absent id fails with NotFound and changes nothing. Otherwise the field-by-field patch leaves exactly that task equal to `Merged`, keeps the invariant, and keeps `createdAt <= updatedAt` when the clock has not gone back |
| `Tasks.TaskStore.Remove` | convex/tasks.ts:87-94 | the id is no longer stored, every other task is unchanged, and the invariant holds |
| `Tasks.NewTaskShape` | convex/tasks.ts:28-39 | a created task is in inbox, has `createdAt == updatedAt == now`, has no completion or archive time, stores title, notes, cadence and priority verbatim, and has a fresh search field |
| `Tasks.NewTaskOutsideSchema` | convex/tasks.ts:35 | every created task's column is `inbox`, which the schema's column validator rejects |
| `Tasks.MergedFields` | convex/tasks.ts:70-81 | a supplied field replaces the stored one and an omitted field keeps it. id, column, createdAt, completedAt and archivedAt never change. updatedAt is now and the search field is fresh |
| `Tasks.UpdateAcceptsEmptyTitle` | convex/tasks.ts:70-78 | an explicit empty title is stored as empty, and the search field becomes the trimmed notes |
| `Tasks.MergedKeepsTimesOrdered` | convex/tasks.ts:76 | with a clock that has not gone back, an updated task is not updated before it was created |
| `ArchiveView.KeepMatching` | src/components/ArchiveView.tsx:32-36 | the filter keeps the input order and keeps exactly the matching tasks, each as often as in the input |
| `ArchiveView.SearchActiveIffNotBlank` | src/components/ArchiveView.tsx:29 | search is active exactly when the term has a non-whitespace character |
| `ArchiveView.FilteredMeaning` | src/components/ArchiveView.tsx:29-37 | the result is a subsequence of the input. With no active search it is the whole list. With one, a task is in it exactly when its lower-cased search field contains the lower-cased trimmed term |
| `ArchiveView.FilterIgnoresCase` | src/components/ArchiveView.tsx:33-35 | terms that lower-case alike give the same active state and the same result |
| `ArchiveView.FoundByOwnTitle` | src/components/ArchiveView.tsx:31-37 | a task with a fresh search field is found by its own title, in any letter case and with any surrounding whitespace, whether or not the search is active |
| `ArchiveView.SelectedTask` | src/components/ArchiveView.tsx:39-40 | the result is the first task whose id is the selected one. It is none when no id is selected or no task has that id |
| `ArchiveView.CountLabelMeaning` | src/components/ArchiveView.tsx:57 | the label begins with exactly the count's rendering (which reads back as the count), reads "1 archived task" for one, and ends in "tasks" otherwise |
| `CadenceFilter.OfferedValues` | src/components/CadenceFilter.tsx:1-5 | the buttons offer daily, weekly and monthly, in that order, and every cadence except none |
| `CadenceFilter.ClickActiveClears` | src/components/CadenceFilter.tsx:19 | clicking the active filter reports null |
| `CadenceFilter.ClickInactiveSets` | src/components/CadenceFilter.tsx:19 | clicking any other filter reports that filter |
| `CadenceFilter.DoubleClickRestores` | src/components/CadenceFilter.tsx:19 | from null or from v, clicking v twice gives back the starting state |
| `CadenceFilter.ClicksStayInDomain` | src/components/CadenceFilter.tsx:19 | from null or an offered cadence, any sequence of button clicks leaves the filter null or offered, never none |
| `CadenceFilter.AtMostOnePressed` | src/components/CadenceFilter.tsx:21 | a button is pressed exactly when its value is the active filter, no two are pressed, and none is pressed when the filter is null |
| `QuickAddForm.QuickAdd.constructor` | src/components/QuickAdd.tsx:12 | the typed title starts empty |
| `TaskModalForm.TaskModal.constructor` | src/components/TaskModal.tsx:13-16 | the form starts with empty title and notes, cadence none and priority medium |
| `TaskModalForm.TaskModal.LoadForm` | src/components/TaskModal.tsx:32-39 | a task is copied into the form with absent notes shown as ""; with no task the form keeps its contents |
| `TaskModalForm.TaskModal.HandleSave` | src/components/TaskModal.tsx:41-55 | with no task or a blank title, nothing is sent and the dialog stays open. Otherwise the store's task becomes `Merged` with the save's arguments and the dialog closes. A failed update leaves the store unchanged and the dialog open |
| `TaskModalForm.TaskModal.HandleDelete` | src/components/TaskModal.tsx:57-61 | with no task nothing changes; otherwise exactly that task's id is removed and the dialog closes |
| `TaskModalForm.SaveArgsMeaning` | src/components/TaskModal.tsx:43-52 | a save is sent exactly when a task is open and the title is not blank. It carries the task's id and the trimmed non-empty title. It carries the notes unless the box is empty, in which case it carries none. It carries the current cadence and priority |
| `TaskModalForm.ClearedNotesKept` | src/components/TaskModal.tsx:50 | saving with an emptied notes box leaves the stored notes as they were |
| `TaskModalForm.SaveUnchangedForm` | src/components/TaskModal.tsx:32-52 | opening a task whose title is already trimmed and saving without edits changes only its update time |
| `QuickAddForm.QuickAdd.HandleClose` | src/components/QuickAdd.tsx:27-30 | closing empties the typed title and closes the dialog |
| `QuickAddForm.QuickAdd.HandleSubmit` | src/components/QuickAdd.tsx:32-44 | a blank title creates nothing, stays in the box and leaves the dialog open. Otherwise exactly one task, `NewTask` of the trimmed title, is created under the old counter, the counter advances by one, the box is emptied and the dialog closes |
| `QuickAddForm.QuickAddArgsMeaning` | src/components/QuickAdd.tsx:34-41 | a task is created exactly when the title is not blank. It gets the trimmed non-empty title, no notes, cadence none and priority medium |
| `QuickAddForm.QuickAddSearchText` | src/components/QuickAdd.tsx:37-41 | a quick-added task's search field equals its trimmed title |

## Left out

- Text.ToLower: maps only the ASCII letters A–Z. JavaScript's `toLowerCase` maps all of Unicode; the full Unicode case tables are not modelled.
- Strings are sequences of Unicode code points, while JavaScript strings are UTF-16 code units. This makes no difference to `trim`, because all whitespace lies in the Basic Multilingual Plane.
- The Convex runtime is not modelled: `async`/`await`, `ctx.db`, opaque id generation (modelled as a counter) and `Date.now()` (modelled as the `now` parameter).
  The runtime's own checks are not modelled either, such as rejecting a document outside the schema when it is inserted, or what `db.delete` does with an id that is absent. The model's `remove` then changes nothing.
- React rendering is not modelled: JSX, CSS classes, the dialogs' `showModal`/`close` effects (TaskModal.tsx:21-30, QuickAdd.tsx:16-25), the empty-list messages of the archive page, and `e.preventDefault()`.
- `useQuery` loading and `useDebounce` are timing and loading behaviour. The archived-task list and the debounced term are inputs. `listArchived` is called by the archive page but is not part of this model.
- CadenceFilter.Toggle: the active filter is `string | null` in the source (CadenceFilter.tsx:8) and `Option<Cadence>` here. Nothing is lost: a string that names no button behaves like `Some(NoCadence)`, pressing no button, and any click replaces it with that button's value.
- Date formatting with `toLocaleDateString` is locale-dependent library code.
- `useTheme` (local storage and the document's class list) is not modelled.
- Column moves, setting `completedAt`/`archivedAt`, the archival sweep, the server-side full-text index and the `by_column` indices (convex/schema.ts:42-48), and optimistic client patches are not modelled. None of them has code in the modelled files.
- Timestamps are unbounded integers. JavaScript numbers are floating point, which makes no difference for millisecond clock values.
