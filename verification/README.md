# TodoList — a verified model of the to-do list component

The application is one React component, `TodoList`. It holds an ordered list of
tasks, each a text, a completion flag and an optional due date. It also holds an
edit session (`editingIndex`: no task, or the position of the task being edited),
two input buffers behind the add/edit form (`inputValue`, `dueDate`) and a
filter (`"all"`, `"completed"`, `"pending"`). Five handlers change this state:
`handleSubmit`, `changeStatus`, `deleteTask`, `editTask` and the raw
`setFilter`. The rendered list `filteredTodo` is a projection of the state.

`todo_list.dfy` (module `TodoListComponent`) models this as:

- `Task`, a datatype, and `TodoList`, a class with the five state fields. Each
  `setX` of the source is a field assignment at the end of the handler.
- One method per handler. Each method states the complete new state in terms of
  the old state, including which fields stay as they were.
- Pure functions for the list operations the handlers perform on their copy of
  the array: `Edited`, `Toggled` and `Spliced` (array `splice(i, 1)`, where a
  start past the end removes nothing). Lemmas cover the involution of the
  toggle, the order and multiset of a deletion, and the non-empty-text invariant.
- `FilteredTodo`, the filter projection, with lemmas. The visible list keeps
  list order. It holds exactly the shown tasks, with their multiplicities. With
  any filter value other than `"completed"` or `"pending"` it is the whole list.
  The completed count plus the pending count is the list's length.
- The toast a submission raises is returned as an `Outcome` tag: `Warning`,
  `Updated` or `Added`.

Behaviour followed from the code:

- Only the empty string is rejected on submit. Whitespace-only text is accepted,
  because `!task` (TodoList.jsx:16) is false for every non-empty string
  (`SubmitWhitespace`).
- `deleteTask` does not reset `editingIndex`. When the stale index lies past the
  end of the list, the update branch reads `updatedTodo[editingIndex]`, which is
  undefined, and throws a TypeError before any state setter runs. The model
  returns `Outcome.TypeError` and leaves the state unchanged. When the stale
  index is in range, the update overwrites whichever task now sits there
  (`DeleteWhileEditing`).
- `changeStatus` and `editTask` read `todo[index]` and throw on an index past
  the end. Rows only ever pass indices below `|filteredTodo| <= |todo|`, so both
  methods require `index < |todo|`.

## Model

| member | source | states |
|---|---|---|
| `TodoListComponent.TodoList.constructor` | src/Components/TodoList.jsx:6-10 | The component starts with no tasks, no edit session, empty buffers and filter "all". |
| `TodoListComponent.TodoList.HandleSubmit` | src/Components/TodoList.jsx:12-46 | Empty text gives a Warning and changes nothing. Otherwise, with no edit session, it gives Added and appends `{text, false, date}` at the end. With an in-range edit index it gives Updated, rewrites that task's text and date, keeps its flag and closes the session. A stale index past the end gives TypeError and changes nothing. After Added or Updated both buffers are empty. The length grows by one exactly on Added, the filter is untouched, and the non-empty-text invariant is preserved. |
| `TodoListComponent.TodoList.ChangeStatus` | src/Components/TodoList.jsx:48-52 | The list becomes `Toggled(todo, index)`; the edit session, buffers and filter are unchanged; the non-empty-text invariant is preserved. |
| `TodoListComponent.TodoList.DeleteTask` | src/Components/TodoList.jsx:54-58 | The list becomes `Spliced(todo, index)`; the edit session is NOT reset, and the buffers and filter are unchanged; the non-empty-text invariant is preserved. |
| `TodoListComponent.TodoList.EditTask` | src/Components/TodoList.jsx:60-64 | The edit session points at `index`; the buffers hold that task's text and due date; the list and filter are unchanged. |
| `TodoListComponent.TodoList.SetFilter` | src/Components/TodoList.jsx:10 | The filter takes the given value; nothing else changes. |
| `TodoListComponent.TodoList.Visible` | src/Components/TodoList.jsx:67-71 | The rendered tasks are an order-preserving subsequence of the list. |
| `TodoListComponent.Edited` | src/Components/TodoList.jsx:25-27 | The update sets text and date at `i` and keeps its completion flag. The length and every other entry are unchanged. |
| `TodoListComponent.Toggled` | src/Components/TodoList.jsx:49-50 | Only the completion flag at `i` flips. Text, date, length and every other entry are unchanged. |
| `TodoListComponent.Spliced` | src/Components/TodoList.jsx:55-56 | With an in-range index the length drops by one, entries before `i` stay, and entries after `i` move one place down. With an index past the end nothing changes. |
| `TodoListComponent.ToggledTwice` | src/Components/TodoList.jsx:48-52 | Toggling the same task twice restores the original list. |
| `TodoListComponent.SplicedKeepsOrder` | src/Components/TodoList.jsx:54-58 | After a deletion the list is an order-preserving subsequence of the list before it. |
| `TodoListComponent.SplicedRemovesOne` | src/Components/TodoList.jsx:54-58 | A deletion removes exactly the task at `i` from the multiset of tasks. |
| `TodoListComponent.OperationsKeepNonEmptyTexts` | src/Components/TodoList.jsx:16-35 | The append (also to the empty list) and the update with non-empty text, the toggle, and the deletion at any index (a past-end one included) all keep "every task has non-empty text". |
| `TodoListComponent.FilteredTodo` | src/Components/TodoList.jsx:67-71 | The visible list is no longer than the list. Every entry passes the filter and comes from the list. |
| `TodoListComponent.FilteredKeepsOrder` | src/Components/TodoList.jsx:67-71 | The visible list is an order-preserving subsequence of the list. |
| `TodoListComponent.FilteredOccurrences` | src/Components/TodoList.jsx:67-71 | A task the filter shows occurs in the visible list as often as in the list. A task it hides does not occur. So "completed" shows exactly the done tasks and "pending" exactly the open ones. |
| `TodoListComponent.FilteredShowsAll` | src/Components/TodoList.jsx:70 | Any filter value other than "completed" or "pending" shows the whole list unchanged. |
| `TodoListComponent.FilteredCounts` | src/Components/TodoList.jsx:67-71 | The "completed" view has as many tasks as are done, the "pending" view as many as are open, and the two counts sum to the list's length. |
| `TodoListComponent.SourceIndex` | src/Components/TodoList.jsx:154-193 | The position in the full list of the task rendered as a given row: that entry is the row's task, and the position is at least the row number. |
| `TodoListComponent.SourceIndexIsRowPosition` | src/Components/TodoList.jsx:154-193 | The task at the position `SourceIndex` gives passes the filter, and exactly `row` shown tasks come before it. So the position is the row's own even when the list holds equal tasks. |
| `TodoListComponent.SourceIndexUnfiltered` | src/Components/TodoList.jsx:154-193 | Under a filter that shows everything, a row's number is its position in the full list, so the rows' indices are correct there. |
| `TodoListComponent.RowIndexAsWrittenMisdirects` | src/Components/TodoList.jsx:183 | Take the open task A followed by the done task B, under "completed". Row 0 shows B, but `changeStatus(0)` flips A and leaves B as it was. B sits at full-list position 1. |
| `TodoListComponent.AddToEmptyList` | src/Components/TodoList.jsx:33-41 | Submitting "Buy milk" with date 2024-01-01 to an empty list yields exactly that one open task and Added. |
| `TodoListComponent.ToggleThenShowPending` | src/Components/TodoList.jsx:48-71 | Take two open tasks A and B. Toggling A and selecting "pending" gives the list `[A done, B open]` and the view `[B open]`. |
| `TodoListComponent.EditThenSubmit` | src/Components/TodoList.jsx:23-64 | Editing a done task loads its text and date into the buffers. Submitting "A2" with date 2024-02-02 rewrites it, keeps it done, closes the session and gives Updated. |
| `TodoListComponent.SubmitWhitespace` | src/Components/TodoList.jsx:14-35 | A text of one space is accepted and stored as a task. |
| `TodoListComponent.DeleteWhileEditing` | src/Components/TodoList.jsx:23-58 | Deleting the task being edited leaves a stale index. At the end of the list the next submit throws TypeError. Otherwise the next submit overwrites the task that moved into that position. |

## Findings

| source | as written | input that shows it | evidently intended | confidence | as-written member | corrected member |
|---|---|---|---|---|---|---|
| src/Components/TodoList.jsx:154-193 | each rendered row passes its position in the filtered list to `changeStatus`, `editTask` and `deleteTask`, which index the full list | list `[A open, B done]`, filter "completed": the only row shows B, and clicking its toggle flips A | the handlers receive the full-list position of the task the row shows | high (not executed) | `RowIndexAsWrittenMisdirects` | `SourceIndex` |

The handlers in the model take full-list positions, that is, the positions
`SourceIndex` computes. Under a filter that shows everything, the two agree
(`SourceIndexUnfiltered`).

## Left out

- Rendering (JSX, styles, labels, the "No tasks to display." branch): presentation with no state logic.
- Toast notifications and `ToastContainer`: foreign fire-and-forget calls. Only the kind of toast is kept, as the `Outcome` returned by `HandleSubmit`. Messages and durations are left out.
- `e.preventDefault()` and `e.target.reset()`: browser plumbing. The `onChange` buffer setters are plain field assignments, written as such where a session sets a buffer.
- React's scheduling of state updates and re-rendering: each `setX` is an immediate assignment at the end of its handler.
- Aliasing of task objects: `[...todo]` is a shallow copy, so the source's field writes also mutate the task objects of the previous state array. No one reads that array again, so the model copies by value.
- A click on a row that applies the handler to the row's own index is not modelled as a method: the handlers take full-list positions. The misdirection is shown by `RowIndexAsWrittenMisdirects`.
- `TodoListComponent.TodoList.ChangeStatus` and `TodoListComponent.TodoList.EditTask` require an in-range index, because the source throws on an index past the end and its rows never pass one.
