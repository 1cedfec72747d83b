/** The submit rule of the edit dialog (EditTaskModal.jsx). */
module EditTaskModal {
  import opened Outcomes
  import opened Trimming
  import opened Tasks

  /** Submitting the dialog for `task` with the text `input` in its title field:
      `Some(saved)` is the one record handed to `onSave`, `None` means the save
      callback is not called and the dialog stays open. */
  function HandleSubmit(task: Task, input: string): (saved: Option<Task>)
    ensures saved.None? <==> AllWhiteSpace(input)
    ensures saved.Some? ==>
      saved.value.id == task.id && saved.value.completed == task.completed &&
      saved.value.title == Trim(input) && saved.value.title != [] &&
      IsTrimmed(saved.value.title) && Trim(saved.value.title) == saved.value.title
  {
    var updatedTitle := Trim(input);
    TrimEmptyIff(input);
    TrimSplits(input);
    TrimIdempotent(input);
    if updatedTitle == [] then None else Some(task.(title := updatedTitle))
  }
}
