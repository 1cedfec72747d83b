/** The state of the TodoList component and its event handlers (TodoList.jsx).
    Each handler that talks to the task service takes the service's answer as an
    `Outcome` parameter and returns the request it sends, so that "no request is
    sent" and "what the request carries" are part of its contract. */
module TodoList {
  import opened Outcomes
  import opened Trimming
  import opened Subsequences
  import opened Tasks
  import EditTaskModal

  /** The four calls made to the task service. */
  datatype Request =
    | List                           // GET    /api/tasks
    | Create(draft: TaskDraft)       // POST   /api/tasks
    | Replace(id: Id, body: Task)    // PUT    /api/tasks/{id}
    | Remove(id: Id)                 // DELETE /api/tasks/{id}

  /** The component's five pieces of state. */
  class TaskStore {
    var tasks: seq<Task>
    var newTask: string
    var filter: Filter
    var animateTaskId: Option<Id>
    var editingTask: Option<Task>

    constructor ()
      ensures tasks == [] && newTask == "" && filter == All
      ensures animateTaskId == None && editingTask == None
    {
      tasks := [];
      newTask := "";
      filter := All;
      animateTaskId := None;
      editingTask := None;
    }

    /** `fetchTasks`: the list is replaced wholesale on success and kept on failure. */
    method FetchTasks(response: Outcome<seq<Task>>) returns (sent: Request)
      modifies this`tasks
      ensures sent == List
      ensures tasks == if response.Ok? then response.value else old(tasks)
    {
      sent := List;
      if response.Ok? {
        tasks := response.value;
      }
    }

    /** Typing in the new-task input box. */
    method SetNewTask(value: string)
      modifies this`newTask
      ensures newTask == value
    {
      newTask := value;
    }

    /** `addTask`: a blank input sends nothing and changes nothing; otherwise the
        untrimmed input is posted, and on success the created task is appended,
        the input is cleared and the new task is highlighted. */
    method AddTask(response: Outcome<Task>) returns (sent: Option<Request>)
      modifies this`tasks, this`newTask, this`animateTaskId
      ensures sent.None? <==> AllWhiteSpace(old(newTask))
      ensures sent.Some? ==> sent.value == Create(TaskDraft(old(newTask), false))
      ensures if sent.Some? && response.Ok? then
          tasks == old(tasks) + [response.value] && newTask == "" &&
          animateTaskId == Some(response.value.id)
        else
          tasks == old(tasks) && newTask == old(newTask) && animateTaskId == old(animateTaskId)
    {
      TrimEmptyIff(newTask);
      if Trim(newTask) == [] {
        return None;
      }
      sent := Some(Create(CreatePayload(newTask)));
      if response.Ok? {
        tasks := tasks + [response.value];
        newTask := "";
        animateTaskId := Some(response.value.id);
      }
    }

    /** The delayed reset of the highlight scheduled by `addTask`. */
    method ClearHighlight()
      modifies this`animateTaskId
      ensures animateTaskId == None
    {
      animateTaskId := None;
    }

    /** `toggleTask`: sends the task with `completed` inverted; on success every
        entry with the task's id becomes the server's answer. */
    method ToggleTask(task: Task, response: Outcome<Task>) returns (sent: Request)
      modifies this`tasks
      ensures sent == Replace(task.id, ToggleRequest(task))
      ensures tasks == if response.Ok? then ReplaceById(old(tasks), task.id, response.value) else old(tasks)
    {
      sent := Replace(task.id, ToggleRequest(task));
      if response.Ok? {
        tasks := ReplaceById(tasks, task.id, response.value);
      }
    }

    /** `deleteTask`: on success every entry with the id is dropped. */
    method DeleteTask(id: Id, response: Outcome<()>) returns (sent: Request)
      modifies this`tasks
      ensures sent == Remove(id)
      ensures tasks == if response.Ok? then RemoveById(old(tasks), id) else old(tasks)
    {
      sent := Remove(id);
      if response.Ok? {
        tasks := RemoveById(tasks, id);
      }
    }

    /** `handleEditTask`: sends the edited record; on success every entry with its
        id becomes the server's answer and the dialog closes, on failure the list
        is kept and the dialog stays open. */
    method EditTask(updatedTask: Task, response: Outcome<Task>) returns (sent: Request)
      modifies this`tasks, this`editingTask
      ensures sent == Replace(updatedTask.id, updatedTask)
      ensures if response.Ok? then
          tasks == ReplaceById(old(tasks), updatedTask.id, response.value) && editingTask == None
        else
          tasks == old(tasks) && editingTask == old(editingTask)
    {
      sent := Replace(updatedTask.id, updatedTask);
      if response.Ok? {
        tasks := ReplaceById(tasks, updatedTask.id, response.value);
        editingTask := None;
      }
    }

    /** One of the three filter buttons. */
    method SetFilter(f: Filter)
      modifies this`filter
      ensures filter == f
    {
      filter := f;
    }

    /** The pencil button: the task becomes the one under edit, replacing any other. */
    method StartEdit(task: Task)
      modifies this`editingTask
      ensures editingTask == Some(task)
    {
      editingTask := Some(task);
    }

    /** The dialog's `onClose`: the draft is discarded and nothing is sent. */
    method CloseEdit()
      modifies this`editingTask
      ensures editingTask == None
    {
      editingTask := None;
    }

    /** Submitting the edit dialog with `input` in its title field: the dialog's
        submit rule followed, when it calls `onSave`, by `handleEditTask`. The dialog
        renders nothing while no task is under edit, so then nothing happens. */
    method SubmitEdit(input: string, response: Outcome<Task>) returns (sent: Option<Request>)
      modifies this`tasks, this`editingTask
      ensures sent.None? <==> old(editingTask).None? || AllWhiteSpace(input)
      ensures sent.Some? ==>
        var saved := old(editingTask).value.(title := Trim(input));
        sent.value == Replace(saved.id, saved) &&
        if response.Ok? then
          tasks == ReplaceById(old(tasks), saved.id, response.value) && editingTask == None
        else
          tasks == old(tasks) && editingTask == old(editingTask)
      ensures sent.None? ==> tasks == old(tasks) && editingTask == old(editingTask)
    {
      if editingTask.None? {
        return None;
      }
      var saved := EditTaskModal.HandleSubmit(editingTask.value, input);
      if saved.None? {
        return None;
      }
      var request := EditTask(saved.value, response);
      sent := Some(request);
    }

    /** `filteredTasks`: the tasks shown under the current filter. */
    function FilteredTasks(): (view: seq<Task>)
      reads this
      ensures forall t :: t in view <==> t in tasks && Matches(filter, t)
      ensures forall t :: Matches(filter, t) ==> multiset(view)[t] == multiset(tasks)[t]
      ensures IsSubsequence(view, tasks)
    {
      FilterViewSpec(tasks, filter);
      FilterView(tasks, filter)
    }
  }

  /** A toggle of a pending task answered by the server with the flipped record. */
  method ToggleScenario() returns (shown: seq<Task>)
    ensures shown == [Task(1, "A", true)]
  {
    var store := new TaskStore();
    var _ := store.FetchTasks(Ok([Task(1, "A", false)]));
    var _ := store.ToggleTask(Task(1, "A", false), Ok(Task(1, "A", true)));
    shown := store.tasks;
  }

  /** Creating a task on an empty list: it is appended and highlighted. */
  method CreateScenario() returns (shown: seq<Task>, highlighted: Option<Id>, sent: Option<Request>)
    ensures shown == [Task(7, "Buy milk", false)] && highlighted == Some(7)
    ensures sent == Some(Create(TaskDraft("Buy milk", false)))
  {
    var store := new TaskStore();
    store.SetNewTask("Buy milk");
    assert !IsWhiteSpace(store.newTask[0]);
    sent := store.AddTask(Ok(Task(7, "Buy milk", false)));
    shown, highlighted := store.tasks, store.animateTaskId;
  }

  /** A blank title is rejected locally: no request, no change. */
  method BlankCreateScenario() returns (shown: seq<Task>, sent: Option<Request>)
    ensures shown == [] && sent == None
  {
    var store := new TaskStore();
    store.SetNewTask("   ");
    sent := store.AddTask(Ok(Task(7, "   ", false)));
    shown := store.tasks;
  }
}
