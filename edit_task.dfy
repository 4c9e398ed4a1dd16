/** The edit screen: it loads one task into the form and submits the changed
    title and description back. */
module EditTask {
  import opened Api

  datatype Draft = Draft(title: string, description: string)

  const Blank := Draft("", "")
  const LoadFailedMessage := "Error fetching task. Please try again."
  const NoChangesMessage := "No changes detected to update."
  const CanceledMessage := "Task update canceled."
  const UpdateFailedMessage := "Error updating task. Please try again."

  /** The form still holds what was loaded: comparing both fields is
      comparing the whole draft. */
  predicate NothingChanged(task: Draft, initialTask: Draft)
    ensures NothingChanged(task, initialTask) <==> task == initialTask
  {
    task.title == initialTask.title && task.description == initialTask.description
  }

  /** What one submit did besides setting the state. */
  datatype Submitted = Submitted(asked: bool, sent: Option<Draft>)

  class EditForm {
    var task: Draft
    var initialTask: Draft
    var loading: bool
    var message: string
    var error: string
    /** Whether the screen has called `navigate("/")`. */
    var navigatedHome: bool

    constructor()
      ensures task == Blank && initialTask == Blank
      ensures !loading && message == "" && error == "" && !navigatedHome
    {
      task := Blank;
      initialTask := Blank;
      loading := false;
      message := "";
      error := "";
      navigatedHome := false;
    }

    /** The mount effect: fill both copies of the form from the task, or
        report the failure and leave for the list. */
    method FetchTask(outcome: Response<Task>)
      modifies this`task, this`initialTask, this`error, this`loading, this`navigatedHome
      ensures !loading
      ensures outcome.Ok? ==>
        var loaded := Draft(outcome.data.title, outcome.data.description);
        task == loaded && initialTask == loaded && error == old(error) && navigatedHome == old(navigatedHome)
      ensures !outcome.Ok? ==>
        task == old(task) && initialTask == old(initialTask) && error == LoadFailedMessage && navigatedHome
    {
      loading := true;
      if outcome.Ok? {
        task := Draft(outcome.data.title, outcome.data.description);
        initialTask := Draft(outcome.data.title, outcome.data.description);
      } else {
        error := LoadFailedMessage;
        navigatedHome := true;
      }
      loading := false;
    }

    /** Typing in the title or description box. */
    method EditTitle(value: string)
      modifies this`task
      ensures task == old(task).(title := value)
    {
      task := task.(title := value);
    }

    method EditDescription(value: string)
      modifies this`task
      ensures task == old(task).(description := value)
    {
      task := task.(description := value);
    }

    /** `handleSubmit`. Says whether the confirm dialog was shown and which
        body, if any, was PUT. */
    method HandleSubmit(confirmed: bool, outcome: Response<()>) returns (done: Submitted)
      modifies this`task, this`initialTask, this`message, this`error, this`loading, this`navigatedHome
      ensures message == ""
      ensures NothingChanged(old(task), old(initialTask)) ==>
        && done == Submitted(false, None) && error == NoChangesMessage
        && task == old(task) && initialTask == old(initialTask)
        && loading == old(loading) && navigatedHome == old(navigatedHome)
      ensures !NothingChanged(old(task), old(initialTask)) ==> done.asked
      ensures !NothingChanged(old(task), old(initialTask)) && !confirmed ==>
        && done.sent == None && error == CanceledMessage
        && task == old(task) && initialTask == old(initialTask)
        && loading == old(loading) && navigatedHome == old(navigatedHome)
      ensures !NothingChanged(old(task), old(initialTask)) && confirmed ==>
        done.sent == Some(old(task)) && !loading
      ensures !NothingChanged(old(task), old(initialTask)) && confirmed && outcome.Ok? ==>
        initialTask == old(task) && task == Blank && error == "" && navigatedHome
      ensures !NothingChanged(old(task), old(initialTask)) && confirmed && !outcome.Ok? ==>
        && task == old(task) && initialTask == old(initialTask)
        && error == ErrorText(outcome, UpdateFailedMessage) && navigatedHome == old(navigatedHome)
    {
      message := "";
      error := "";
      if NothingChanged(task, initialTask) {
        error := NoChangesMessage;
        return Submitted(false, None);
      }
      if confirmed {
        loading := true;
        done := Submitted(true, Some(task));
        if outcome.Ok? {
          initialTask := task;
          task := Blank;
          navigatedHome := true;
        } else {
          error := ErrorText(outcome, UpdateFailedMessage);
        }
        loading := false;
      } else {
        error := CanceledMessage;
        done := Submitted(true, None);
      }
    }
  }

  /** Submitting right after a successful load finds nothing to update and
      sends nothing. */
  method SubmitRightAfterLoad(form: EditForm, loaded: Task, confirmed: bool, outcome: Response<()>)
    returns (done: Submitted)
    modifies form
    ensures done == Submitted(false, None) && form.error == NoChangesMessage
    ensures form.task == Draft(loaded.title, loaded.description)
  {
    form.FetchTask(Ok(loaded));
    done := form.HandleSubmit(confirmed, outcome);
  }
}
