/**
  The state of the AccessibleTodoList component and the four handlers that
  change it: onInputChange, addTodo, deleteTodo and checkTodo.

  The component's mutable fields become one immutable record, and each handler
  becomes a function from the old record to the new one. The browser's
  `confirm(...)` dialog becomes the boolean `confirmed`.
 */
module TodoState {
  import opened Announcements

  /** One entry of the list: its text and whether it is ticked. */
  datatype Task = Task(value: string, status: bool)

  /** The component's fields `_todoList`, `_newTodo`, `_disabledButton` and
      `_liveRegionFeedback`. */
  datatype State = State(
    todoList: seq<Task>,
    newTodo: string,
    disabledButton: bool,
    liveRegionFeedback: string)

  /** The result of a handler that reads `_todoList[index]`. An index with no
      task makes that read yield `undefined`, and reading a property of it
      throws a TypeError before anything is changed. */
  datatype Outcome = Ok(state: State) | TypeError

  /** True exactly when `_todoList[index]` is a task. */
  predicate ValidIndex(s: State, index: int) {
    0 <= index < |s.todoList|
  }

  /** The add button is disabled exactly when there is no pending text. */
  predicate InputInSync(s: State) {
    s.disabledButton <==> |s.newTodo| == 0
  }

  /** The task texts, in display order. */
  function Values(todos: seq<Task>): (vs: seq<string>)
    ensures |vs| == |todos|
    ensures forall k :: 0 <= k < |todos| ==> vs[k] == todos[k].value
  {
    seq(|todos|, k requires 0 <= k < |todos| => todos[k].value)
  }

  /** The state set up by the constructor. */
  function Initial(): State {
    State([Task("Buy chocolate", false), Task("Buy milk", false)], "", true, "")
  }

  /** The constructor starts with two open tasks, no pending text, the add
      button disabled and a silent live region. */
  lemma InitialState()
    ensures |Initial().todoList| == 2
    ensures Values(Initial().todoList) == ["Buy chocolate", "Buy milk"]
    ensures forall k :: 0 <= k < |Initial().todoList| ==> !Initial().todoList[k].status
    ensures Initial().newTodo == "" && Initial().liveRegionFeedback == ""
    ensures Initial().disabledButton && InputInSync(Initial())
  {
  }

  /** onInputChange: remember the typed text and enable the add button
      exactly when that text is non-empty. */
  function OnInputChange(s: State, inputValue: string): (r: State)
    ensures r.newTodo == inputValue
    ensures InputInSync(r)
    ensures r.todoList == s.todoList
    ensures r.liveRegionFeedback == s.liveRegionFeedback
  {
    s.(newTodo := inputValue, disabledButton := !(|inputValue| > 0))
  }

  /** addTodo: with pending text, append it as an open task, announce it and
      clear the pending text; without, do nothing. The disabled flag is left
      as it was. */
  function AddTodo(s: State): (r: State)
    ensures |s.newTodo| > 0 ==>
      && |r.todoList| == |s.todoList| + 1
      && r.todoList[..|s.todoList|] == s.todoList
      && r.todoList[|s.todoList|] == Task(s.newTodo, false)
      && r.liveRegionFeedback == Announce(Added(s.newTodo))
      && r.newTodo == ""
      && r.disabledButton == s.disabledButton
    ensures |s.newTodo| == 0 ==> r == s
  {
    if |s.newTodo| > 0 then
      s.(todoList := s.todoList + [Task(s.newTodo, false)],
         liveRegionFeedback := Announce(Added(s.newTodo)),
         newTodo := "")
    else
      s
  }

  /** deleteTodo: read the task's name, ask for confirmation and, if given,
      remove that task and announce its name. */
  function DeleteTodo(s: State, index: int, confirmed: bool): (r: Outcome)
    ensures r.TypeError? <==> !ValidIndex(s, index)
    ensures r.Ok? && !confirmed ==> r.state == s
    ensures r.Ok? && confirmed ==>
      && |r.state.todoList| == |s.todoList| - 1
      && (forall k :: 0 <= k < index ==> r.state.todoList[k] == s.todoList[k])
      && (forall k :: index <= k < |r.state.todoList| ==> r.state.todoList[k] == s.todoList[k + 1])
      && r.state.liveRegionFeedback == Announce(Deleted(s.todoList[index].value))
      && r.state.newTodo == s.newTodo
      && r.state.disabledButton == s.disabledButton
  {
    if !ValidIndex(s, index) then
      TypeError
    else
      var taskName := s.todoList[index].value;
      if confirmed then
        Ok(s.(todoList := s.todoList[..index] + s.todoList[index + 1..],
              liveRegionFeedback := Announce(Deleted(taskName))))
      else
        Ok(s)
  }

  /** checkTodo: flip the status of one task. Nothing is announced. */
  function CheckTodo(s: State, index: int): (r: Outcome)
    ensures r.TypeError? <==> !ValidIndex(s, index)
    ensures r.Ok? ==>
      && |r.state.todoList| == |s.todoList|
      && r.state.todoList[index] == Task(s.todoList[index].value, !s.todoList[index].status)
      && (forall k :: 0 <= k < |s.todoList| && k != index ==> r.state.todoList[k] == s.todoList[k])
      && r.state.newTodo == s.newTodo
      && r.state.disabledButton == s.disabledButton
      && r.state.liveRegionFeedback == s.liveRegionFeedback
  {
    if !ValidIndex(s, index) then
      TypeError
    else
      var t := s.todoList[index];
      Ok(s.(todoList := s.todoList[index := t.(status := !t.status)]))
  }

  // ----- Properties relating several handlers -----

  /** Typing again replaces what was typed before: only the last input counts. */
  lemma OnInputChangeLastWins(s: State, first: string, second: string)
    ensures OnInputChange(OnInputChange(s, first), second) == OnInputChange(s, second)
  {
  }

  /** The sync between the add button and the pending text is not kept by
      addTodo: after adding, the text is empty but the button stays enabled. */
  lemma AddTodoBreaksInputSync()
    ensures var typed := OnInputChange(Initial(), "Buy eggs");
      InputInSync(typed) && !InputInSync(AddTodo(typed))
  {
  }

  /** What addTodo always keeps: a disabled button means there is no pending
      text. */
  lemma AddTodoKeepsDisabledImpliesEmpty(s: State)
    requires s.disabledButton ==> |s.newTodo| == 0
    ensures var r := AddTodo(s); r.disabledButton ==> |r.newTodo| == 0
  {
  }

  /** A second addTodo right after a successful one does nothing: the pending
      text has already been consumed. */
  lemma AddTodoTwiceAddsOnce(s: State)
    ensures AddTodo(AddTodo(s)) == AddTodo(s)
  {
  }

  /** Deleting the task just added restores the list, and the live region then
      reports the deletion of that same task. */
  lemma DeleteUndoesAdd(s: State)
    requires |s.newTodo| > 0
    ensures var added := AddTodo(s);
      var r := DeleteTodo(added, |s.todoList|, true);
      && r.Ok?
      && r.state.todoList == s.todoList
      && r.state.liveRegionFeedback == Announce(Deleted(s.newTodo))
  {
  }

  /** Putting the deleted task back at its index gives the original list, so
      a confirmed delete removes exactly that one task and keeps the others
      in their order. */
  lemma DeleteRemovesExactlyOne(s: State, index: int)
    requires ValidIndex(s, index)
    ensures var r := DeleteTodo(s, index, true).state.todoList;
      && r[..index] + [s.todoList[index]] + r[index..] == s.todoList
      && multiset(r) + multiset{s.todoList[index]} == multiset(s.todoList)
  {
    var r := DeleteTodo(s, index, true).state.todoList;
    assert r[..index] == s.todoList[..index];
    assert r[index..] == s.todoList[index + 1..];
    assert s.todoList == s.todoList[..index] + [s.todoList[index]] + s.todoList[index + 1..];
  }

  /** A declined deletion changes nothing, but an index with no task still
      throws: the task's name is read before the question is asked. */
  lemma DeclinedDeleteIsNoOp(s: State, index: int)
    ensures DeleteTodo(s, index, false) == if ValidIndex(s, index) then Ok(s) else TypeError
  {
  }

  /** Toggling the same task twice gives back the original state. */
  lemma CheckTodoInvolution(s: State, index: int)
    requires ValidIndex(s, index)
    ensures CheckTodo(CheckTodo(s, index).state, index) == Ok(s)
  {
  }

  /** Toggling keeps every task's text; only the statuses can differ. */
  lemma CheckTodoKeepsValues(s: State, index: int)
    requires ValidIndex(s, index)
    ensures Values(CheckTodo(s, index).state.todoList) == Values(s.todoList)
  {
  }
}
