# Accessible todo list — a verified model of the component's state controller

The `AccessibleTodoList` web component keeps four fields: an ordered list of
tasks `{value, status}`, the pending text `_newTodo` of the input, the flag
`_disabledButton` of the add button, and `_liveRegionFeedback`, the text of a
polite live region that screen readers announce. Four handlers change them:
`onInputChange`, `addTodo`, `deleteTodo` and `checkTodo`. `render` turns them
into markup: a heading, either an empty-state message or one row per task, a
form, and the live region.

This project models that controller in Dafny. It has four modules:

- `Announcements` (`announcements.dfy`) holds the live-region messages
  "Task called X added" and "Task called X deleted". It also has a parser that
  reads a message back, which is the listener's side.
- `TodoState` (`todo_state.dfy`) holds the state record, the constructor's
  initial state and the four handlers as pure functions. The browser's
  `confirm(...)` dialog is the boolean parameter `confirmed` of `DeleteTodo`.
- `TodoView` (`todo_view.dfy`) holds `render`, `renderForm` and
  `renderListOfTodos` as functions that build an abstract view record.
- `TodoSession` (`todo_session.dfy`) runs sequences of user events through the
  handlers. It proves an invariant of every reachable state and bounds on the
  list length.

Behaviour of the code that is easy to misread:

- `addTodo` clears the pending text but never assigns `_disabledButton`. So
  "the button is disabled exactly when the input is empty" holds initially and
  after `onInputChange`, but not after an add (`AddTodoBreaksInputSync`). The
  half that always holds is "disabled implies empty" (`TodoSession.Invariant`).
- `checkTodo` announces nothing.
- An out-of-range index is not guarded. Then `_todoList[index]` is
  `undefined`, and reading `.value` or `.status` from it throws a TypeError before any field changes. The model returns the
  `TypeError` outcome. `deleteTodo` reads the name before it asks for
  confirmation, so it throws even when the user would have declined.
- The checkboxes are never bound to a task's `status`. So the rendered view
  does not depend on any status, and `checkTodo` leaves it unchanged
  (`CheckTodoInvisible`).
- `aria-invalid="${this._disabledButton}"` is a quoted attribute, so the model
  holds it as the string `"true"` or `"false"`.

## Model

| member | source | states |
|---|---|---|
| TodoState.InitialState | src/AccessibleTodoList.js:23-52 | The constructor's state (`TodoState.Initial`) has the two open tasks "Buy chocolate" and "Buy milk", no pending text, a disabled add button and an empty live region. The button is therefore in sync with the input. |
| TodoState.OnInputChange | src/AccessibleTodoList.js:59-64 | The pending text becomes the typed text. The button is disabled exactly when that text is empty. The list and the live region are unchanged. |
| TodoState.OnInputChangeLastWins | src/AccessibleTodoList.js:59-64 | Two inputs in a row leave the same state as the second one alone. |
| TodoState.AddTodo | src/AccessibleTodoList.js:76-85 | With pending text, the task is appended last as open and earlier tasks keep their positions. The length grows by one. The live region announces the addition and the input is cleared. The disabled flag keeps its old value. With no pending text, the state is unchanged. |
| TodoState.AddTodoBreaksInputSync | src/AccessibleTodoList.js:76-85 | Typing "Buy eggs" and adding leaves an empty input with an enabled button. Adding does not preserve "disabled exactly when empty". |
| TodoState.AddTodoKeepsDisabledImpliesEmpty | src/AccessibleTodoList.js:76-85 | Adding preserves "a disabled button means an empty input". |
| TodoState.AddTodoTwiceAddsOnce | src/AccessibleTodoList.js:76-85 | A second add right after the first does nothing, because the pending text was consumed. |
| TodoState.DeleteTodo | src/AccessibleTodoList.js:92-99 | It throws exactly when the index names no task. A declined confirmation changes nothing. A confirmed one removes that task, shifts later tasks down by one and keeps earlier ones. It announces the name read before removal. The input and disabled flag are kept. |
| TodoState.DeleteUndoesAdd | src/AccessibleTodoList.js:76-99 | Deleting the task just added gives back the list from before the add. The live region then reports that task's deletion. |
| TodoState.DeleteRemovesExactlyOne | src/AccessibleTodoList.js:96 | Inserting the removed task back at its index rebuilds the original list. The multiset of tasks loses exactly that task. |
| TodoState.DeclinedDeleteIsNoOp | src/AccessibleTodoList.js:93-95 | A declined delete is a no-op on a valid index and a TypeError otherwise. |
| TodoState.CheckTodo | src/AccessibleTodoList.js:112-114 | It throws exactly when the index names no task. Otherwise it flips that task's status and keeps its text. Every other task, the length, the input, the flag and the live region stay the same. |
| TodoState.CheckTodoInvolution | src/AccessibleTodoList.js:112-114 | Toggling the same task twice gives back the original state. |
| TodoState.CheckTodoKeepsValues | src/AccessibleTodoList.js:112-114 | Toggling keeps every task's text in place. |
| Announcements.Announce | src/AccessibleTodoList.js:80 | A message starts with "Task called ", then the task name, then " added" or " deleted". |
| Announcements.Parse | src/AccessibleTodoList.js:80-99 | A listener-side inverse of the "added" and "deleted" messages; it is not code in the component. Whatever text it accepts is exactly the message of the announcement it returns. |
| Announcements.ParseAnnounce | src/AccessibleTodoList.js:80-99 | Reading back an add or delete message recovers its kind and the task name. |
| Announcements.AnnounceInjective | src/AccessibleTodoList.js:80-99 | Two messages are equal only for the same kind and the same task name. So an addition is never confused with a deletion. |
| TodoView.RenderRows | src/AccessibleTodoList.js:144-167 | There is one row per task, in list order. Row k is bound to index k, and its checkbox label and choice value are the task text. Its delete button is labelled "Delete " followed by the text. |
| TodoView.Render | src/AccessibleTodoList.js:173-206 | The heading is "My Todo List". The empty state shows exactly when the list is empty and the row list exactly when it is not. The input shows the pending text. In the form (`TodoView.RenderForm`), the submit button's disabled attribute equals the flag, and aria-invalid reads "true" when the flag is set and "false" when it is not. The live region shows the feedback. |
| TodoView.RowsMatchTasks | src/AccessibleTodoList.js:146-158 | In the rendered view, row k carries index k, task k's text and the label "Delete " followed by that text. |
| TodoView.RenderedIndicesAreValid | src/AccessibleTodoList.js:153-157 | Every index a rendered row passes to its handlers names a live task. So clicking a row never throws. |
| TodoView.CheckTodoInvisible | src/AccessibleTodoList.js:112-114 | Toggling a task leaves the rendered view unchanged, because the checkboxes are not bound to the status. |
| TodoView.DeleteAnnouncedInLiveRegion | src/AccessibleTodoList.js:93-99 | After a confirmed delete, the live region parses as the deletion of the task that was at the index. |
| TodoView.AddAnnouncedInLiveRegion | src/AccessibleTodoList.js:76-85 | After an add, the live region parses as the addition of the pending text. The new last row shows that text and its "Delete " label. |
| TodoSession.Step | src/AccessibleTodoList.js:59-114 | Handling an event throws exactly when it is a delete or toggle at an index that names no task. |
| TodoSession.StepPreservesInvariant | src/AccessibleTodoList.js:59-114 | Every handler keeps two things true: a disabled button means an empty input, and every task has a non-empty text. |
| TodoSession.RunPreservesInvariant | src/AccessibleTodoList.js:59-114 | Any sequence of events from a state with the invariant ends in a state with it. |
| TodoSession.ReachableInvariant | src/AccessibleTodoList.js:30-114 | Every state reached from the constructor's state keeps the invariant. |
| TodoSession.StepLength | src/AccessibleTodoList.js:76-99 | An add with pending text grows the list by one. A confirmed delete shrinks it by one. Every other event keeps its length. |
| TodoSession.RunLengthBounds | src/AccessibleTodoList.js:76-99 | After any run that does not throw, the length is at least the old length minus the number of confirmed deletes. It is at most the old length plus the number of adds minus the number of confirmed deletes. |
| TodoSession.AppendOnlyWithoutDeletes | src/AccessibleTodoList.js:77 | With no delete events, the earlier task texts remain a prefix of the list, in the same order. |
| TodoSession.DeleteFirstInitialTask | src/AccessibleTodoList.js:30-33 | Confirming the deletion of the first initial task leaves only "Buy milk". The live region reads "Task called Buy chocolate deleted". |
| TodoSession.TypeAndAdd | src/AccessibleTodoList.js:59-85 | Typing "Buy eggs" and adding appends it as the last open task and clears the input. The live region reads "Task called Buy eggs added". |

## Left out

- Lit plumbing is left out because it is framework behaviour with no logic to state. This covers `requestUpdate`, the `html` templates, scoped element registration and styles (src/AccessibleTodoList.js:1-21). It also covers event wiring such as `model-value-changed` and `@click`. Any re-entry of `onInputChange` caused by the `.modelValue` binding is framework behaviour too.
- `e.preventDefault()` in `addTodo` is left out because it only stops the browser's form submission.
- The focus move to the heading after a confirmed delete is left out because it is a DOM side effect with no state in the model.
- The `confirm(...)` dialog is left out. Its answer is the `confirmed` parameter, and its prompt text is not modelled.
- The markup's fixed texts are left out because no handler reads them. These are the empty-state message, the placeholder, the input's aria-label and the cross icon. Only the heading text is kept.
- `TodoSession.Run` stops at the first event whose handler throws, while a browser keeps dispatching later events. Both throwing handlers fail before writing any field, so the reachable states are the same.
- Non-integer and non-number indices are left out. Indices are integers, which is what the rendered rows pass.
- JavaScript string length counts UTF-16 code units, and the model counts characters. Both are zero for exactly the same strings, which is all the handlers test.
- The styles, the story and the test file are not part of this model. The styles are CSS and the story is a demo page. The test expects a heading "My app", while the component renders "My Todo List".
