/** The task form (frontend/src/components/TaskModal.jsx): its two input fields,
    the prefill effect, the submit guard and which controls are disabled. */
module TaskForm {
  import opened Wrappers
  import opened Text
  import opened Kanban

  /** What the form hands to `onSave`. */
  datatype TaskData = TaskData(title: string, description: string)

  /** `handleSubmit`: a title that is empty after trimming stops the submit (the
      user gets an alert instead); otherwise `onSave` receives both fields trimmed. */
  function Submit(title: string, description: string): (r: Option<TaskData>)
    ensures r.None? <==> IsBlank(title)
    ensures r.Some? ==> r.value == TaskData(Trim(title), Trim(description))
    ensures r.Some? ==> r.value.title != [] && IsTrimmed(r.value.title) && IsTrimmed(r.value.description)
  {
    var t, d := Trim(title), Trim(description);
    TrimEmptyIffBlank(title);
    if t == [] then None else Some(TaskData(t, d))
  }

  /** The `disabled` attributes of the form's controls. */
  datatype Controls = Controls(closeDisabled: bool, inputsDisabled: bool,
                               cancelDisabled: bool, submitDisabled: bool)

  /** The controls while the parent reports `loading` and the title field holds
      `title`: everything is locked while loading, and submit also while the
      title is blank. */
  function ControlsFor(loading: bool, title: string): (r: Controls)
    ensures r.closeDisabled == loading && r.cancelDisabled == loading && r.inputsDisabled == loading
    ensures r.submitDisabled <==> loading || IsBlank(title)
  {
    TrimEmptyIffBlank(title);
    Controls(loading, loading, loading, loading || Trim(title) == [])
  }

  /** An enabled submit button always gets past the guard of `handleSubmit`, and
      a submit that the guard lets through was possible only with the button
      enabled or while loading. */
  lemma EnabledSubmitSaves(loading: bool, title: string, description: string)
    ensures !ControlsFor(loading, title).submitDisabled ==> Submit(title, description).Some?
    ensures Submit(title, description).Some? && !loading ==> !ControlsFor(loading, title).submitDisabled
  {
  }

  /** The modal's own state: the two field values. */
  class TaskModal {
    var title: string
    var description: string

    constructor ()
      ensures title == "" && description == ""
    {
      title := "";
      description := "";
    }

    /** The effect that runs when the `task` prop changes: copy an edited task's
        fields, with `null` read as "", or clear both for a new task. */
    method Prefill(task: Option<Task>)
      modifies this
      ensures task.None? ==> title == "" && description == ""
      ensures task.Some? ==> title == task.value.title
      ensures task.Some? ==> description == task.value.description.GetOr("")
    {
      if task.Some? {
        title := task.value.title;
        description := if task.value.description.Some? then task.value.description.value else "";
      } else {
        title := "";
        description := "";
      }
    }

    /** The `onChange` binding of the title input. */
    method ChangeTitle(value: string)
      modifies this`title
      ensures title == value
    {
      title := value;
    }

    /** The `onChange` binding of the description textarea. */
    method ChangeDescription(value: string)
      modifies this`description
      ensures description == value
    {
      description := value;
    }
  }
}
