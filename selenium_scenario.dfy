/**
 * The add/delete flow that the browser test drives through the page, stated
 * against the task list directly. Typing appends to the input field, which
 * is bound to newTask; clearing the field empties it.
 */
module SeleniumScenario {
  import JsString
  import opened TaskManager

  const First: string := "Learn Selenium with JavaScript"
  const Second: string := "Build a Vue application"
  const Third: string := "Write Selenium tests"
  const Fourth: string := "Present Tech Talk"

  /** The four texts the test types are non-empty and carry no surrounding white space. */
  lemma TextsAreTrimmed()
    ensures First != [] && JsString.IsTrimmed(First)
    ensures Second != [] && JsString.IsTrimmed(Second)
    ensures Third != [] && JsString.IsTrimmed(Third)
    ensures Fourth != [] && JsString.IsTrimmed(Fourth)
  {
  }

  /** Typing text into the input field bound to newTask. */
  method TypeInto(list: TaskList, text: string)
    requires list.Valid()
    modifies list`newTask
    ensures list.Valid()
    ensures list.newTask == old(list.newTask) + text
  {
    list.newTask := list.newTask + text;
  }

  /** Adding a trimmed, non-empty text appends exactly that text. */
  method AddTyped(list: TaskList, text: string)
    requires list.Valid() && list.newTask == []
    requires text != [] && JsString.IsTrimmed(text)
    modifies list
    ensures list.Valid()
    ensures list.tasks == old(list.tasks) + [text]
    ensures list.newTask == [] && list.showMessage
  {
    JsString.TrimFixedPoint(text);
    assert !JsString.IsBlank(text) by {
      assert !JsString.IsWhiteSpace(text[0]);
    }
    TypeInto(list, text);
    assert list.newTask == text;
    list.AddTask();
  }

  /** The test's loop over further texts: each one is typed and added in turn. */
  method AddEach(list: TaskList, texts: seq<string>)
    requires list.Valid() && list.newTask == []
    requires forall k :: 0 <= k < |texts| ==> texts[k] != [] && JsString.IsTrimmed(texts[k])
    modifies list
    ensures list.Valid() && list.newTask == []
    ensures list.tasks == old(list.tasks) + texts
  {
    var i := 0;
    while i < |texts|
      invariant 0 <= i <= |texts|
      invariant list.Valid() && list.newTask == []
      invariant list.tasks == old(list.tasks) + texts[..i]
    {
      AddTyped(list, texts[i]);
      assert texts[..i + 1] == texts[..i] + [texts[i]];
      i := i + 1;
    }
    assert texts[..i] == texts;
  }

  /** Clearing the input field and pressing Add changes no task. */
  method SubmitCleared(list: TaskList)
    requires list.Valid()
    modifies list
    ensures list.Valid()
    ensures list.tasks == old(list.tasks) && list.newTask == [] && list.showMessage == old(list.showMessage)
  {
    list.newTask := [];
    list.AddTask();
  }

  /**
   * The counts and texts the test reads off the page, for any four texts
   * without surrounding white space: one task after the first add with the
   * notice shown, then hidden by the timer; four after three more adds with
   * the first text still first; three after deleting the first task with the
   * second text now first; still three after adding with an empty input.
   */
  method AddDeleteFlow(first: string, second: string, third: string, fourth: string)
    returns (countAfterFirst: nat, noticeShown: bool, noticeHidden: bool,
             countAfterFour: nat, firstTask: string,
             countAfterDelete: nat, firstAfterDelete: string,
             countAfterEmpty: nat)
    requires first != [] && JsString.IsTrimmed(first)
    requires second != [] && JsString.IsTrimmed(second)
    requires third != [] && JsString.IsTrimmed(third)
    requires fourth != [] && JsString.IsTrimmed(fourth)
    ensures countAfterFirst == 1 && noticeShown && noticeHidden
    ensures countAfterFour == 4 && firstTask == first
    ensures countAfterDelete == 3 && firstAfterDelete == second
    ensures countAfterEmpty == 3
  {
    var list := new TaskList();

    AddTyped(list, first);
    countAfterFirst := |list.tasks|;
    noticeShown := list.showMessage;
    list.HideMessage();
    noticeHidden := !list.showMessage;

    AddEach(list, [second, third, fourth]);
    assert list.tasks == [first, second, third, fourth];
    countAfterFour := |list.tasks|;
    firstTask := list.tasks[0];

    list.DeleteTask(0);
    assert list.tasks == [second, third, fourth];
    countAfterDelete := |list.tasks|;
    firstAfterDelete := list.tasks[0];

    SubmitCleared(list);
    countAfterEmpty := |list.tasks|;
  }

  /** The flow with the four texts the test types. */
  method SeleniumTestFlow() returns (countAfterFirst: nat, countAfterFour: nat, firstTask: string,
                                     countAfterDelete: nat, firstAfterDelete: string,
                                     countAfterEmpty: nat)
    ensures countAfterFirst == 1 && countAfterFour == 4 && firstTask == First
    ensures countAfterDelete == 3 && firstAfterDelete == Second && countAfterEmpty == 3
  {
    TextsAreTrimmed();
    var shown, hidden;
    countAfterFirst, shown, hidden, countAfterFour, firstTask, countAfterDelete, firstAfterDelete, countAfterEmpty :=
      AddDeleteFlow(First, Second, Third, Fourth);
  }
}
