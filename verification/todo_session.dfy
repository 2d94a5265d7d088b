/**
  A session is a sequence of user events, each handled by one of the four
  handlers in turn. The run stops at the first event whose handler throws.
  A browser would go on dispatching later events, but both throwing handlers
  fail before they write any field, so the states a session can reach are
  the same either way.
  This module states what holds after any such run: the invariant that every
  reachable state keeps, bounds on the list length, and append-only order when
  nothing is deleted.
 */
module TodoSession {
  import opened TodoState

  /** A user interaction and the handler it reaches. */
  datatype Event =
    | InputChanged(text: string)
    | AddClicked
    | DeleteClicked(index: int, confirmed: bool)
    | CheckClicked(index: int)

  /** Runs the handler for one event. */
  function Step(s: State, e: Event): (r: Outcome)
    ensures r.TypeError? <==> (e.DeleteClicked? || e.CheckClicked?) && !ValidIndex(s, e.index)
  {
    match e
    case InputChanged(text) => Ok(OnInputChange(s, text))
    case AddClicked => Ok(AddTodo(s))
    case DeleteClicked(index, confirmed) => DeleteTodo(s, index, confirmed)
    case CheckClicked(index) => CheckTodo(s, index)
  }

  /** Runs the events in order, stopping at the first TypeError. */
  function Run(s: State, events: seq<Event>): Outcome
    decreases |events|
  {
    if |events| == 0 then Ok(s)
    else
      match Step(s, events[0])
      case TypeError => TypeError
      case Ok(next) => Run(next, events[1..])
  }

  /** What holds in every reachable state: a disabled add button means there
      is no pending text, and no task has an empty text. The converse of the
      first part does not hold after addTodo (see AddTodoBreaksInputSync). */
  predicate Invariant(s: State) {
    && (s.disabledButton ==> |s.newTodo| == 0)
    && forall k :: 0 <= k < |s.todoList| ==> |s.todoList[k].value| > 0
  }

  lemma InitialInvariant()
    ensures Invariant(Initial())
  {
  }

  lemma StepPreservesInvariant(s: State, e: Event)
    requires Invariant(s)
    ensures Step(s, e).Ok? ==> Invariant(Step(s, e).state)
  {
  }

  lemma {:induction false} RunPreservesInvariant(s: State, events: seq<Event>)
    requires Invariant(s)
    ensures Run(s, events).Ok? ==> Invariant(Run(s, events).state)
    decreases |events|
  {
    if |events| > 0 {
      StepPreservesInvariant(s, events[0]);
      if Step(s, events[0]).Ok? {
        RunPreservesInvariant(Step(s, events[0]).state, events[1..]);
      }
    }
  }

  /** Every state reachable from the constructor's keeps the invariant. */
  lemma ReachableInvariant(events: seq<Event>)
    ensures Run(Initial(), events).Ok? ==> Invariant(Run(Initial(), events).state)
  {
    InitialInvariant();
    RunPreservesInvariant(Initial(), events);
  }

  /** Number of add events. */
  function Adds(events: seq<Event>): nat
    decreases |events|
  {
    if |events| == 0 then 0
    else (if events[0].AddClicked? then 1 else 0) + Adds(events[1..])
  }

  /** Number of delete events whose confirmation was given. */
  function ConfirmedDeletes(events: seq<Event>): nat
    decreases |events|
  {
    if |events| == 0 then 0
    else (if events[0].DeleteClicked? && events[0].confirmed then 1 else 0) + ConfirmedDeletes(events[1..])
  }

  /** One event changes the length by at most one: up for an add with pending
      text, down for a confirmed delete of a live task, otherwise not at all. */
  lemma StepLength(s: State, e: Event)
    requires Step(s, e).Ok?
    ensures var n, m := |s.todoList|, |Step(s, e).state.todoList|;
      && (e.AddClicked? && |s.newTodo| > 0 ==> m == n + 1)
      && (e.DeleteClicked? && e.confirmed ==> m == n - 1)
      && (!(e.AddClicked? && |s.newTodo| > 0) && !(e.DeleteClicked? && e.confirmed) ==> m == n)
  {
  }

  /** Each confirmed delete removed a task, so the list never shrinks by more
      than the number of confirmed deletes, and never grows by more than the
      number of adds minus that number. */
  lemma {:induction false} RunLengthBounds(s: State, events: seq<Event>)
    requires Run(s, events).Ok?
    ensures |s.todoList| - ConfirmedDeletes(events) <= |Run(s, events).state.todoList|
    ensures |Run(s, events).state.todoList| <= |s.todoList| + Adds(events) - ConfirmedDeletes(events)
    decreases |events|
  {
    if |events| > 0 {
      var next := Step(s, events[0]).state;
      StepLength(s, events[0]);
      RunLengthBounds(next, events[1..]);
    }
  }

  /** Without deletions, tasks are only ever appended: the earlier list's
      texts stay in front, in the same order. */
  lemma {:induction false} AppendOnlyWithoutDeletes(s: State, events: seq<Event>)
    requires Run(s, events).Ok?
    requires forall k :: 0 <= k < |events| ==> !events[k].DeleteClicked?
    ensures Values(s.todoList) <= Values(Run(s, events).state.todoList)
    decreases |events|
  {
    if |events| > 0 {
      var e := events[0];
      var next := Step(s, e).state;
      assert Values(s.todoList) <= Values(next.todoList) by {
        match e
        case InputChanged(_) =>
        case AddClicked =>
          if |s.newTodo| > 0 {
            assert next.todoList[..|s.todoList|] == s.todoList;
          }
        case CheckClicked(index) =>
          CheckTodoKeepsValues(s, index);
      }
      assert forall k :: 0 <= k < |events[1..]| ==> !events[1..][k].DeleteClicked? by {
        forall k | 0 <= k < |events[1..]|
          ensures !events[1..][k].DeleteClicked?
        {
          assert events[1..][k] == events[k + 1];
        }
      }
      AppendOnlyWithoutDeletes(next, events[1..]);
    }
  }

  /** From the initial state, confirming the deletion of the first task
      leaves only the second and announces the first by name. */
  lemma DeleteFirstInitialTask()
    ensures var r := Run(Initial(), [DeleteClicked(0, true)]);
      && r.Ok?
      && r.state.todoList == [Task("Buy milk", false)]
      && r.state.liveRegionFeedback == "Task called Buy chocolate deleted"
  {
  }

  /** Typing "Buy eggs" and adding appends it last and clears the input. */
  lemma TypeAndAdd()
    ensures var r := Run(Initial(), [InputChanged("Buy eggs"), AddClicked]);
      && r.Ok?
      && r.state.todoList == Initial().todoList + [Task("Buy eggs", false)]
      && r.state.newTodo == ""
      && r.state.liveRegionFeedback == "Task called Buy eggs added"
  {
  }
}
