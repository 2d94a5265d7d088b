/**
  What `render` produces, as an abstract view record instead of a template:
  the heading, either the empty-state message or the list of rows, the form,
  and the live region. Each row remembers the index its checkbox and delete
  button pass to checkTodo and deleteTodo.
 */
module TodoView {
  import opened Announcements
  import opened TodoState

  /** One `<li>`: the checkbox's label and choice value, the delete button's
      accessible name, and the index bound into both click handlers. */
  datatype Row = Row(index: nat, checkboxLabel: string, choiceValue: string, deleteLabel: string)

  /** The part of the section between the heading and the form. */
  datatype Body = EmptyState | ListOfTodos(rows: seq<Row>)

  /** The form: the text input's bound value and `aria-invalid` attribute,
      and the submit button's `disabled` attribute. */
  datatype Form = Form(inputValue: string, ariaInvalid: string, submitDisabled: bool)

  datatype View = View(heading: string, body: Body, form: Form, liveRegion: string)

  const Heading: string := "My Todo List"

  /** An attribute written as `attr="${flag}"` holds the text of the flag. */
  function BoolAttribute(flag: bool): string {
    if flag then "true" else "false"
  }

  /** renderListOfTodos, from position `from` of the list on. */
  function RenderRows(todos: seq<Task>, from: nat): (rows: seq<Row>)
    ensures |rows| == |todos|
    ensures forall k :: 0 <= k < |rows| ==>
      && rows[k].index == from + k
      && rows[k].checkboxLabel == todos[k].value
      && rows[k].choiceValue == todos[k].value
      && rows[k].deleteLabel == "Delete " + todos[k].value
    decreases |todos|
  {
    if |todos| == 0 then []
    else
      var t := todos[0];
      [Row(from, t.value, t.value, "Delete " + t.value)] + RenderRows(todos[1..], from + 1)
  }

  /** renderForm. */
  function RenderForm(s: State): Form {
    Form(s.newTodo, BoolAttribute(s.disabledButton), s.disabledButton)
  }

  /** render: the empty state when there are no tasks, the list otherwise. */
  function Render(s: State): (v: View)
    ensures v.heading == Heading
    ensures v.body.EmptyState? <==> |s.todoList| == 0
    ensures v.body.ListOfTodos? <==> |s.todoList| > 0
    ensures v.body.ListOfTodos? ==> |v.body.rows| == |s.todoList|
    ensures v.form.inputValue == s.newTodo
    ensures v.form.submitDisabled == s.disabledButton
    ensures v.form.ariaInvalid == (if s.disabledButton then "true" else "false")
    ensures v.liveRegion == s.liveRegionFeedback
  {
    var body := if |s.todoList| == 0 then EmptyState else ListOfTodos(RenderRows(s.todoList, 0));
    View(Heading, body, RenderForm(s), s.liveRegionFeedback)
  }

  /** Row k shows task k: its text on the checkbox and "Delete <text>" on the
      delete button, and both handlers are bound to index k. */
  lemma RowsMatchTasks(s: State, k: int)
    requires 0 <= k < |s.todoList|
    ensures var v := Render(s);
      && v.body.ListOfTodos?
      && v.body.rows[k].index == k
      && v.body.rows[k].checkboxLabel == s.todoList[k].value
      && v.body.rows[k].deleteLabel == "Delete " + s.todoList[k].value
  {
  }

  /** Every index a rendered row hands to its handlers names a live task, so
      clicking a row never reaches the TypeError path of checkTodo or
      deleteTodo. */
  lemma RenderedIndicesAreValid(s: State, row: Row)
    requires Render(s).body.ListOfTodos? && row in Render(s).body.rows
    ensures ValidIndex(s, row.index)
    ensures CheckTodo(s, row.index).Ok?
    ensures forall confirmed: bool :: DeleteTodo(s, row.index, confirmed).Ok?
  {
  }

  /** The rows depend only on the task texts. */
  lemma RenderRowsIgnoresStatus(a: seq<Task>, b: seq<Task>, from: nat)
    requires Values(a) == Values(b)
    ensures RenderRows(a, from) == RenderRows(b, from)
  {
    var ra, rb := RenderRows(a, from), RenderRows(b, from);
    assert |a| == |Values(a)| == |Values(b)| == |b|;
    forall k | 0 <= k < |ra|
      ensures ra[k] == rb[k]
    {
      assert a[k].value == Values(a)[k] == Values(b)[k] == b[k].value;
    }
  }

  /** No task's status reaches the view (the checkboxes are not bound to it),
      so checkTodo leaves the rendered view exactly as it was. */
  lemma CheckTodoInvisible(s: State, index: int)
    requires ValidIndex(s, index)
    ensures Render(CheckTodo(s, index).state) == Render(s)
  {
    CheckTodoKeepsValues(s, index);
    RenderRowsIgnoresStatus(CheckTodo(s, index).state.todoList, s.todoList, 0);
  }

  /** After a confirmed delete, the live region names the deleted task. */
  lemma DeleteAnnouncedInLiveRegion(s: State, index: int)
    requires ValidIndex(s, index)
    ensures Parse(Render(DeleteTodo(s, index, true).state).liveRegion)
         == Some(Deleted(s.todoList[index].value))
  {
    ParseAnnounce(Deleted(s.todoList[index].value));
  }

  /** After a successful add, the live region names the added task and the
      new last row is that task. */
  lemma AddAnnouncedInLiveRegion(s: State)
    requires |s.newTodo| > 0
    ensures var v := Render(AddTodo(s));
      && Parse(v.liveRegion) == Some(Added(s.newTodo))
      && v.body.ListOfTodos?
      && v.body.rows[|s.todoList|].checkboxLabel == s.newTodo
      && v.body.rows[|s.todoList|].deleteLabel == "Delete " + s.newTodo
  {
  }
}
