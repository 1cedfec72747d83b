# Todo list client state, modelled in Dafny

This project models the client side of a small todo application: the React
`TodoList` component, which keeps the list of tasks, the text of the new-task
input, the selected filter, the id of the freshly created task (for a short
highlight) and the task under edit, and reconciles that list with the answers of
a REST task service; and the submit rule of the `EditTaskModal` dialog, which
trims the edited title, refuses a blank one and otherwise hands the task with
the new title to the list's save handler.

Layout:

- `outcomes.dfy` — `Option` (the source's `null`-or-value state) and
  `Outcome` (a service call that answered with a body, or failed).
- `trimming.dfy` — `String.prototype.trim` over the fixed ECMAScript white-space
  set (the WhiteSpace and LineTerminator productions, with the Zs space
  separators listed), with its reference characterisation: the result is the
  unique middle part with white space around it and none at its own ends.
- `subsequences.dfy` — `Keep`, the order-preserving selection that
  `Array.prototype.filter` performs, and the subsequence relation.
- `tasks.dfy` — the `Task` record, the `Filter` choices, and the list transforms
  the handlers use: replace by id (`map`), remove by id (`filter`), the filtered
  view; with their lemmas.
- `edit_task_modal.dfy` — the dialog's `handleSubmit`.
- `todo_list.dfy` — class `TaskStore` with the five `useState` fields and one
  method per handler. Each method that calls the service takes the service's
  answer as an `Outcome` parameter and returns the request it sends (`None` when
  it sends none). Three small client methods replay concrete scenarios against
  the method contracts.

The create request carries the input text as typed: the blank check trims, the
payload does not. Replacing and removing by id touch every entry with that id,
as `map` and `filter` do; the model does not assume ids are unique, and the
lemmas that need uniqueness take it as a hypothesis.

## Model

| member | source | states |
|---|---|---|
| `TodoList.TaskStore.constructor` | todo-project/frontend/src/components/TodoList.jsx:15-19 | initial state: no tasks, empty input, filter `All`, no highlight, nothing under edit |
| `TodoList.TaskStore.FetchTasks` | todo-project/frontend/src/components/TodoList.jsx:25-32 | sends one GET; the list becomes the server's list on success and stays as it was on failure |
| `TodoList.TaskStore.SetNewTask` | todo-project/frontend/src/components/TodoList.jsx:112 | the input text becomes the typed value |
| `TodoList.TaskStore.AddTask` | todo-project/frontend/src/components/TodoList.jsx:34-50 | no request exactly when the input is all white space; otherwise POSTs the untrimmed input with `completed` false; on success the list is the old list with the created task appended, the input is cleared and the created id is highlighted; otherwise list, input and highlight are unchanged |
| `TodoList.TaskStore.ClearHighlight` | todo-project/frontend/src/components/TodoList.jsx:46 | the highlight is reset to none |
| `TodoList.TaskStore.ToggleTask` | todo-project/frontend/src/components/TodoList.jsx:52-62 | PUTs the task with only `completed` inverted; on success every entry with the task's id becomes the server's answer, on failure the list is unchanged |
| `TodoList.TaskStore.DeleteTask` | todo-project/frontend/src/components/TodoList.jsx:64-71 | sends one DELETE for the id; on success the list is the old list without that id, on failure it is unchanged |
| `TodoList.TaskStore.EditTask` | todo-project/frontend/src/components/TodoList.jsx:73-81 | PUTs the edited record; on success entries with its id become the server's answer and the dialog closes; on failure list and task under edit are unchanged |
| `TodoList.TaskStore.SetFilter` | todo-project/frontend/src/components/TodoList.jsx:126-143 | the filter becomes the chosen one |
| `TodoList.TaskStore.StartEdit` | todo-project/frontend/src/components/TodoList.jsx:171 | the clicked task becomes the one under edit, replacing any other |
| `TodoList.TaskStore.CloseEdit` | todo-project/frontend/src/components/TodoList.jsx:195 | nothing is under edit afterwards |
| `TodoList.TaskStore.SubmitEdit` | todo-project/frontend/src/components/TodoList.jsx:192-197 | dialog submit wired to the save handler: no request when nothing is under edit or the input is blank (state unchanged); otherwise PUTs the task under edit with the trimmed title and reconciles as `EditTask` does |
| `TodoList.TaskStore.FilteredTasks` | todo-project/frontend/src/components/TodoList.jsx:83-87 | the view holds exactly the tasks that match the current filter, each as many times as it is listed, and is a subsequence of the list |
| `TodoList.ToggleScenario` | todo-project/frontend/src/components/TodoList.jsx:52-62 | list `[{1,"A",false}]` toggled with the server echoing the flip gives `[{1,"A",true}]` |
| `TodoList.CreateScenario` | todo-project/frontend/src/components/TodoList.jsx:34-50 | creating "Buy milk" on an empty list with the server returning id 7 posts `{"Buy milk", false}`, gives a one-task list and highlights id 7 |
| `TodoList.BlankCreateScenario` | todo-project/frontend/src/components/TodoList.jsx:36 | a blank input sends no request and leaves the list empty |
| `Tasks.ToggleRequest` | todo-project/frontend/src/components/TodoList.jsx:54-57 | the toggle body differs from the task in `completed` only, and that flag is inverted |
| `Tasks.ReplaceByIdAt` | todo-project/frontend/src/components/TodoList.jsx:58 | replacing by id keeps the length; position by position, entries with the id become the new record and all others are unchanged |
| `Tasks.ReplaceByIdKeepsUniqueIds` | todo-project/frontend/src/components/TodoList.jsx:76 | a replacement carrying the target id keeps ids unique |
| `Tasks.ToggleFlipsOnlyTarget` | todo-project/frontend/src/components/TodoList.jsx:54-58 | with unique ids and a server that echoes the request, a toggle flips exactly the target's `completed` and changes no other entry |
| `Tasks.AppendKeepsUniqueIds` | todo-project/frontend/src/components/TodoList.jsx:43 | appending a created task whose id is not yet listed keeps ids unique |
| `Tasks.RemoveByIdSpec` | todo-project/frontend/src/components/TodoList.jsx:67 | after removal no entry has the id, the result is a subsequence of the old list, and every other entry keeps its multiplicity |
| `Tasks.RemoveAbsentId` | todo-project/frontend/src/components/TodoList.jsx:67 | removing an id that no entry has leaves the list as it was |
| `Tasks.RemoveByIdKeepsUniqueIds` | todo-project/frontend/src/components/TodoList.jsx:67 | removal keeps ids unique |
| `Tasks.FilterViewSpec` | todo-project/frontend/src/components/TodoList.jsx:83-87 | a view holds a task iff it is listed and matches the filter, with its full multiplicity, as a subsequence of the list |
| `Tasks.FilterAllIsIdentity` | todo-project/frontend/src/components/TodoList.jsx:86 | the `All` view is the whole list in its order |
| `Tasks.FilterCountsSum` | todo-project/frontend/src/components/TodoList.jsx:84-85 | the `Completed` and `Pending` views together are as long as the list |
| `Tasks.RemovedIdNotShown` | todo-project/frontend/src/components/TodoList.jsx:67 | after removal the `All` view shows no task with the removed id |
| `EditTaskModal.HandleSubmit` | todo-project/frontend/src/components/EditTaskModal.jsx:37-43 | `onSave` is not called iff the input is all white space; otherwise it is called once with the task's id and `completed`, and the trimmed input as a non-empty title that has no white space at either end and is unchanged by trimming again |
| `Trimming.TrimSplits` | todo-project/frontend/src/components/EditTaskModal.jsx:39 | trimming removes only white space, from the two ends, and leaves no white space at either end |
| `Trimming.TrimUnique` | todo-project/frontend/src/components/EditTaskModal.jsx:39 | any split of a string into white space, a part without white space at its ends and white space has that part as its trim |
| `Trimming.TrimIdempotent` | todo-project/frontend/src/components/EditTaskModal.jsx:39 | trimming twice equals trimming once |
| `Trimming.TrimEmptyIff` | todo-project/frontend/src/components/TodoList.jsx:36 | a string trims to the empty string iff every character is white space |

## Left out

- The HTTP calls and the service address: each call is an `Outcome` parameter and each handler returns the request it would send; what the backend does with it is not part of this model.
- The backend controller and its OpenAPI configuration (`TaskController.java`, `OpenApiConfig.java`): a pass-through to a service that is not part of this model, and static metadata.
- The 500 ms timer that clears the highlight: time is not modelled; the reset is the explicit `ClearHighlight` method.
- Interleaving of requests: each handler in the source reads the `tasks` snapshot of the render that created it, so overlapping requests can lose updates; every method here acts atomically on the current state.
- The fetch on mount (TodoList.jsx:21-23) is not a separate member: it is a `FetchTasks` call made right after the constructor. The model also allows `FetchTasks` at any later time, which the component never does.
- The `console.error` logging of failures, which has no effect on state.
- Rendering: the markup, the CSS class builders `getFilterButtonClass` and `getTaskItemClass`, icons, and the "No … tasks found" line.
- The dialog's DOM effects: focus, the body overflow style, and the Escape-key and outside-click listeners (their effect, closing the dialog, is `CloseEdit`).
- The dialog's input field is not state of the model: `SubmitEdit` receives its current text as a parameter.
- Ids are unbounded integers; the JSON number range is not modelled.
