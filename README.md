# Task Manager demo: the task-list component in Dafny

The Task Manager page is a Vue component with three pieces of reactive data:
`newTask`, the text in the input field; `tasks`, the ordered list of tasks;
and `showMessage`, which shows the "task added" notice. `addTask` trims the
input. If the trimmed text is empty it does nothing. Otherwise it appends the
trimmed text, clears the input, shows the notice, and schedules a timer that
hides the notice again. `deleteTask(index)` removes one task with
`Array.prototype.splice`.

The model has four modules, one file each:

- `JsString` (`js_string.dfy`): `String.prototype.trim`. This is TrimString
  from section 22.1.3.32 of ECMA-262 (ECMAScript 2024). It uses the full
  WhiteSpace and LineTerminator tables of sections 12.2 and 12.3, with the Zs
  code points of Unicode 15.1. `Trim` is proved to be the only trimmed string
  that sits between a blank prefix and a blank suffix of its input. From that
  follow idempotence, the fixed points of trimming, and the fact that the trim
  is empty exactly when the input is all white space.
- `JsArray` (`js_array.dfy`): `Array.prototype.splice(start, deleteCount)`
  with no items to insert. This is section 23.1.3.31 of ECMA-262, including
  the clamping of negative and too-large starts. It returns the array after
  the call and the array of removed elements. Splicing neither loses nor
  invents elements. `splice(i, 1)` removes exactly the element at `i` when `i`
  is in range, and nothing when `i` is at or past the end.
- `TaskManager` (`task_manager.dfy`): the component as the class `TaskList`.
  Its fields are `newTask`, `tasks` and `showMessage`. The methods `AddTask`,
  `DeleteTask` and `HideMessage` change those fields in place. `HideMessage`
  is the timer callback, and the environment may call it at any time. The
  invariant `Valid()` says that every stored task is non-empty and is its own
  trim. All three methods keep it.
- `SeleniumScenario` (`selenium_scenario.dfy`): the add/delete flow that the
  browser test checks. It is stated against `TaskList` directly, and its
  postcondition holds the counts and texts that the test asserts.

Two facts about app.js shape the model:

- `deleteTask` with an index outside the list is well defined, because
  `splice` (app.js:23) defines it: an index at or past the end removes
  nothing, and a negative index counts from the end. The model gives it
  exactly that meaning.
- Every successful add starts its own independent hide timer
  (app.js:17-19), and nothing cancels an earlier one. So `HideMessage` can
  happen at any point after an add.

## Model

| member | source | states |
|---|---|---|
| JsString.TrimStart | app.js:13 | the result is a suffix of the input, everything removed is white space, and the result is empty or starts with a non-white-space code point |
| JsString.TrimEnd | app.js:13 | the result is a prefix of the input, everything removed is white space, and the result is empty or ends with a non-white-space code point |
| JsString.Trim | app.js:13-14 | the trim of a string has no white space at either end, and it is a slice of the input between a blank prefix and a blank suffix |
| JsString.TrimStartBlankPrefix | app.js:13 | removing the leading white space of a blank prefix followed by a string that does not start with white space gives that string |
| JsString.TrimEndBlankSuffix | app.js:13 | removing the trailing white space of a string that does not end with white space followed by a blank suffix gives that string |
| JsString.TrimOfPadded | app.js:13-14 | a trimmed string padded with white space on both sides trims back to itself, so the trim is unique |
| JsString.TrimFixedPoint | app.js:14 | a string is its own trim exactly when it has no white space at either end |
| JsString.TrimIdempotent | app.js:14 | trimming a trimmed string changes nothing |
| JsString.TrimEmptyIffBlank | app.js:13 | `newTask.trim()` is the falsy empty string exactly when the input is empty or all white space |
| JsArray.Splice | app.js:23 | splice keeps the count: remaining plus removed elements equal the original array as a multiset, and their lengths add up to the original length |
| JsArray.ActualStart | app.js:23 | the start of the removal: a start from 0 to the length is kept, one past the length clamps to the length, a negative start from -length up counts from the end, and one below -length clamps to 0 |
| JsArray.ActualDeleteCount | app.js:23 | the number of deleted elements never runs past the end of the array, and equals deleteCount when deleteCount fits |
| JsArray.SpliceOneInRange | app.js:23 | `splice(i, 1)` with `0 <= i < length` returns `[a[i]]`, and leaves `a[..i] + a[i+1..]`, one shorter, with earlier elements in place and later ones moved down by one |
| JsArray.SpliceOnePastEnd | app.js:23 | `splice(i, 1)` with `i >= length` removes nothing and returns an empty array |
| JsArray.SpliceOneFromEnd | app.js:23 | `splice(i, 1)` with `-length <= i < 0` acts like `splice(length + i, 1)` |
| JsArray.SpliceOneBeforeStart | app.js:23 | `splice(i, 1)` with `i < -length` acts like `splice(0, 1)` |
| TaskManager.AppendKeepsTasks | app.js:13-14 | appending the trim of a non-blank input to a list of tasks gives a list of tasks |
| TaskManager.SpliceKeepsTasks | app.js:23 | splicing a list of tasks leaves a list of tasks |
| TaskManager.TaskList.constructor | app.js:4-10 | the initial state has empty input, no tasks and the notice hidden, and it satisfies the invariant |
| TaskManager.TaskList.AddTask | app.js:12-21 | blank input leaves all three fields unchanged. Otherwise the list becomes the old list plus the trimmed input, the input is cleared and the notice shown. The invariant is kept in both cases |
| TaskManager.TaskList.DeleteTask | app.js:22-24 | the list becomes what `splice(index, 1)` leaves: `tasks[..i] + tasks[i+1..]` for an index in range, and unchanged at or past the end. Input and notice are untouched, and the invariant is kept |
| TaskManager.TaskList.HideMessage | app.js:17-19 | the timer callback hides the notice and changes neither the input nor the list |
| SeleniumScenario.TextsAreTrimmed | test-selenium.js:64-109 | the texts the test types are non-empty and carry no surrounding white space |
| SeleniumScenario.TypeInto | test-selenium.js:117-120 | typing into the input field appends the typed text to `newTask` |
| SeleniumScenario.AddTyped | test-selenium.js:62-75 | typing a trimmed non-empty text into the cleared field and pressing Add appends exactly that text, clears the field and shows the notice |
| SeleniumScenario.AddEach | test-selenium.js:111-129 | typing and adding each of several trimmed non-empty texts in turn appends them all, in order |
| SeleniumScenario.SubmitCleared | test-selenium.js:178-189 | pressing Add after clearing the field leaves the list and the notice unchanged |
| SeleniumScenario.AddDeleteFlow | test-selenium.js:53-189 | for any four trimmed non-empty texts, the count is 1 after the first add, with the notice shown and then hidden by the timer. It is 4 after the three other adds, with the first text first. It is 3 after deleting index 0, with the second text now first. It stays 3 after an add with empty input |
| SeleniumScenario.SeleniumTestFlow | test-selenium.js:64-189 | with the test's own texts, the counts are 1, 4, 3 and 3, "Learn Selenium with JavaScript" is first before the delete, and "Build a Vue application" is first after it |

## Left out

- The Vue plumbing is not modelled: `createApp`, the reactivity of `data()`, `mount('#app')` and the `mounted()` console message (app.js:1-3, 26-29).
- The page template (`index.html`) is not part of this model. `TypeInto` stands in for its `v-model` binding of the input field to `newTask`.
- Real time is not modelled: neither the 2000 ms delay of `setTimeout` nor the interleaving of timers from overlapping adds. The callback is `HideMessage`, callable at any moment. So the model does not capture the fact that an earlier add's timer can hide the notice shortly after a later add. Nor can `AddDeleteFlow`'s "notice shown" step reflect timing: test-selenium.js:73-86 pauses 2000 ms and then 1000 ms after clicking Add before it looks up the notice, by which time the 2000 ms timer would already have hidden it.
- TaskManager.TaskList.DeleteTask: the index is a mathematical integer. JavaScript's `ToIntegerOrInfinity` conversion of non-integer, `NaN` or infinite arguments is not modelled, because the page only passes rendered list indices.
- JsString.IsWhiteSpace: the Zs table is fixed at Unicode 15.1. Strings are sequences of Unicode scalar values, so lone UTF-16 surrogates cannot be represented. They are never white space, so this does not affect trimming.
- JsArray.Splice: the item-inserting form of `splice` and the exceptions for arrays longer than 2^53 - 1 are not modelled, because `deleteTask` uses neither.
- The browser test as a program is not modelled: driver set-up, navigation, element lookup, clicks, scrolling, fixed pauses and `driver.quit()`. Only its assertions on the task list are used, in `SeleniumScenario`. The page title and the notice text are rendering details and are left out too.
