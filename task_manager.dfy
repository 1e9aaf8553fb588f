/**
 * The task-list component of the Task Manager page: a pending input string,
 * an ordered list of tasks and a flag that shows the "task added" notice.
 */
module TaskManager {
  import JsString
  import JsArray

  /** A stored task is a non-empty string that is already its own trim. */
  predicate IsTask(t: string) {
    t != [] && JsString.Trim(t) == t
  }

  /** The invariant of the task list: every element is a task. */
  predicate AllTasks(ts: seq<string>) {
    forall k :: 0 <= k < |ts| ==> IsTask(ts[k])
  }

  /** Appending the trim of a non-blank input keeps every element a task. */
  lemma AppendKeepsTasks(ts: seq<string>, input: string)
    requires AllTasks(ts)
    requires !JsString.IsBlank(input)
    ensures AllTasks(ts + [JsString.Trim(input)])
  {
    JsString.TrimEmptyIffBlank(input);
    JsString.TrimIdempotent(input);
  }

  /** Removing elements with splice keeps every remaining element a task. */
  lemma SpliceKeepsTasks(ts: seq<string>, start: int, deleteCount: int)
    requires AllTasks(ts)
    ensures AllTasks(JsArray.Splice(ts, start, deleteCount).remaining)
  {
  }

  /** The component's reactive data; methods mutate the fields in place. */
  class TaskList {
    var newTask: string
    var tasks: seq<string>
    var showMessage: bool

    /** Every stored task is non-blank and trimmed. */
    ghost predicate Valid()
      reads this
    {
      AllTasks(tasks)
    }

    /** data(): nothing typed, no tasks, notice hidden. */
    constructor ()
      ensures Valid()
      ensures newTask == [] && tasks == [] && !showMessage
    {
      newTask := [];
      tasks := [];
      showMessage := false;
    }

    /**
     * addTask(): blank input is ignored; otherwise its trim is appended, the
     * input is cleared and the notice is shown. The deferred hide is
     * HideMessage, which the environment may call at any later point.
     */
    method AddTask()
      requires Valid()
      modifies this
      ensures Valid()
      ensures JsString.IsBlank(old(newTask)) ==>
        tasks == old(tasks) && newTask == old(newTask) && showMessage == old(showMessage)
      ensures !JsString.IsBlank(old(newTask)) ==>
        tasks == old(tasks) + [JsString.Trim(old(newTask))] && newTask == [] && showMessage
    {
      JsString.TrimEmptyIffBlank(newTask);
      // a string is truthy exactly when it is not empty
      if JsString.Trim(newTask) != [] {
        AppendKeepsTasks(tasks, newTask);
        tasks := tasks + [JsString.Trim(newTask)];
        newTask := [];
        showMessage := true;
      }
    }

    /** deleteTask(index): tasks.splice(index, 1), discarding the returned array. */
    method DeleteTask(index: int)
      requires Valid()
      modifies this`tasks
      ensures Valid()
      ensures tasks == JsArray.Splice(old(tasks), index, 1).remaining
      ensures 0 <= index < |old(tasks)| ==> tasks == old(tasks)[..index] + old(tasks)[index + 1..]
      ensures |old(tasks)| <= index ==> tasks == old(tasks)
      ensures newTask == old(newTask) && showMessage == old(showMessage)
    {
      SpliceKeepsTasks(tasks, index, 1);
      if 0 <= index < |tasks| {
        JsArray.SpliceOneInRange(tasks, index);
      } else if |tasks| <= index {
        JsArray.SpliceOnePastEnd(tasks, index);
      }
      tasks := JsArray.Splice(tasks, index, 1).remaining;
    }

    /** The callback scheduled by addTask: hides the notice and nothing else. */
    method HideMessage()
      requires Valid()
      modifies this`showMessage
      ensures Valid()
      ensures !showMessage
      ensures tasks == old(tasks) && newTask == old(newTask)
    {
      showMessage := false;
    }
  }
}
