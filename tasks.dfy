/** The task records of the todo list and the pure list transforms that the
    component's handlers apply to the `tasks` state (TodoList.jsx). */
module Tasks {
  import opened Subsequences

  /** The server-assigned identifier (a number in the source). */
  type Id = int

  datatype Task = Task(id: Id, title: string, completed: bool)

  /** The three filter buttons; `All` is the initial filter. */
  datatype Filter = All | Completed | Pending

  /** The body of a create request: a task without an id. */
  datatype TaskDraft = TaskDraft(title: string, completed: bool)

  /** The create payload for the text in the input box, sent as typed. */
  function CreatePayload(newTask: string): TaskDraft {
    TaskDraft(newTask, false)
  }

  /** The body of a toggle request: the task with `completed` inverted. */
  function ToggleRequest(task: Task): (r: Task)
    ensures r.completed != task.completed
    ensures r.(completed := task.completed) == task
  {
    task.(completed := !task.completed)
  }

  /** `tasks.map(t => t.id === id ? updated : t)` */
  function ReplaceById(tasks: seq<Task>, id: Id, updated: Task): seq<Task> {
    if tasks == [] then []
    else [if tasks[0].id == id then updated else tasks[0]] + ReplaceById(tasks[1..], id, updated)
  }

  function NotId(id: Id): Task -> bool {
    (t: Task) => t.id != id
  }

  /** `tasks.filter(task => task.id !== id)` */
  function RemoveById(tasks: seq<Task>, id: Id): seq<Task> {
    Keep(tasks, NotId(id))
  }

  /** Whether a task is shown under a filter. */
  predicate Matches(filter: Filter, t: Task) {
    match filter
    case Completed => t.completed
    case Pending => !t.completed
    case All => true
  }

  function Selector(filter: Filter): Task -> bool {
    (t: Task) => Matches(filter, t)
  }

  /** The `filteredTasks` derivation. */
  function FilterView(tasks: seq<Task>, filter: Filter): seq<Task> {
    Keep(tasks, Selector(filter))
  }

  /** No two entries share an id. */
  predicate UniqueIds(tasks: seq<Task>) {
    forall i, j :: 0 <= i < j < |tasks| ==> tasks[i].id != tasks[j].id
  }

  /** Replacing by id keeps length and order: each entry with the id becomes
      `updated`, every other entry is left as it was. */
  lemma {:induction false} ReplaceByIdAt(tasks: seq<Task>, id: Id, updated: Task)
    ensures |ReplaceById(tasks, id, updated)| == |tasks|
    ensures forall i :: 0 <= i < |tasks| ==>
      ReplaceById(tasks, id, updated)[i] == if tasks[i].id == id then updated else tasks[i]
    decreases |tasks|
  {
    if tasks != [] {
      ReplaceByIdAt(tasks[1..], id, updated);
    }
  }

  /** A replacement that carries the target id keeps ids unique. */
  lemma ReplaceByIdKeepsUniqueIds(tasks: seq<Task>, id: Id, updated: Task)
    requires UniqueIds(tasks) && updated.id == id
    ensures UniqueIds(ReplaceById(tasks, id, updated))
  {
    ReplaceByIdAt(tasks, id, updated);
  }

  /** When the server echoes the toggle request for a listed task and ids are
      unique, exactly that task's `completed` flag flips and nothing else changes. */
  lemma ToggleFlipsOnlyTarget(tasks: seq<Task>, k: nat)
    requires UniqueIds(tasks) && k < |tasks|
    ensures var r := ReplaceById(tasks, tasks[k].id, ToggleRequest(tasks[k]));
      |r| == |tasks| &&
      r[k].id == tasks[k].id && r[k].title == tasks[k].title &&
      r[k].completed == !tasks[k].completed &&
      forall i :: 0 <= i < |tasks| && i != k ==> r[i] == tasks[i]
  {
    ReplaceByIdAt(tasks, tasks[k].id, ToggleRequest(tasks[k]));
  }

  /** After removing `id`: no entry has that id, the result is a subsequence of the
      old list, and every other entry is kept as often as it occurred. */
  lemma RemoveByIdSpec(tasks: seq<Task>, id: Id)
    ensures forall t :: t in RemoveById(tasks, id) ==> t.id != id
    ensures IsSubsequence(RemoveById(tasks, id), tasks)
    ensures forall t: Task :: t.id != id ==> multiset(RemoveById(tasks, id))[t] == multiset(tasks)[t]
  {
    KeepMembership(tasks, NotId(id));
    KeepIsSubsequence(tasks, NotId(id));
    KeepCount(tasks, NotId(id));
  }

  /** Removing an absent id changes nothing. */
  lemma RemoveAbsentId(tasks: seq<Task>, id: Id)
    requires forall i :: 0 <= i < |tasks| ==> tasks[i].id != id
    ensures RemoveById(tasks, id) == tasks
  {
    KeepEverything(tasks, NotId(id));
  }

  /** Removal keeps ids unique. */
  lemma {:induction false} RemoveByIdKeepsUniqueIds(tasks: seq<Task>, id: Id)
    requires UniqueIds(tasks)
    ensures UniqueIds(RemoveById(tasks, id))
    decreases |tasks|
  {
    if tasks != [] {
      RemoveByIdKeepsUniqueIds(tasks[1..], id);
      KeepMembership(tasks[1..], NotId(id));
      var rest := RemoveById(tasks[1..], id);
      forall j | 0 <= j < |rest| ensures rest[j].id != tasks[0].id {
        assert rest[j] in tasks[1..];
      }
    }
  }

  /** Appending a task whose id is not yet listed keeps ids unique. */
  lemma AppendKeepsUniqueIds(tasks: seq<Task>, created: Task)
    requires UniqueIds(tasks)
    requires forall t :: t in tasks ==> t.id != created.id
    ensures UniqueIds(tasks + [created])
  {
    var r := tasks + [created];
    forall i, j | 0 <= i < j < |r| ensures r[i].id != r[j].id {
      if j == |tasks| {
        assert r[i] in tasks;
      }
    }
  }

  /** A filtered view shows exactly the matching tasks, each as often as it is
      listed, in list order. */
  lemma FilterViewSpec(tasks: seq<Task>, filter: Filter)
    ensures forall t :: t in FilterView(tasks, filter) <==> t in tasks && Matches(filter, t)
    ensures forall t :: Matches(filter, t) ==> multiset(FilterView(tasks, filter))[t] == multiset(tasks)[t]
    ensures IsSubsequence(FilterView(tasks, filter), tasks)
  {
    KeepMembership(tasks, Selector(filter));
    KeepCount(tasks, Selector(filter));
    KeepIsSubsequence(tasks, Selector(filter));
  }

  /** The `All` filter shows the whole list in its original order. */
  lemma FilterAllIsIdentity(tasks: seq<Task>)
    ensures FilterView(tasks, All) == tasks
  {
    KeepEverything(tasks, Selector(All));
  }

  /** Every task is either completed or pending. */
  lemma FilterCountsSum(tasks: seq<Task>)
    ensures |FilterView(tasks, Completed)| + |FilterView(tasks, Pending)| == |tasks|
  {
    KeepPartition(tasks, Selector(Completed), Selector(Pending));
  }

  /** After a delete, even the unfiltered view holds no task with that id. */
  lemma RemovedIdNotShown(tasks: seq<Task>, id: Id)
    ensures forall t :: t in FilterView(RemoveById(tasks, id), All) ==> t.id != id
  {
    RemoveByIdSpec(tasks, id);
    FilterAllIsIdentity(RemoveById(tasks, id));
  }
}
