/** A model of the TodoList component: an ordered list of tasks, an edit session
    that points at one task by position, two input buffers backing the form, and
    a filter that selects which tasks are visible. The event handlers change the
    component state; the visible list is a pure projection of it. */
module TodoListComponent {

  /** One to-do entry. Tasks have no identity beyond their position in the list. */
  datatype Task = Task(task: string, completed: bool, dueDate: string)

  datatype Option<T> = None | Some(value: T)

  /** What a submission reports: the toast it raises, or the TypeError the update
      branch throws when the edited position no longer exists. */
  datatype Outcome = Warning | Updated | Added | TypeError

  /** The invariant every submission keeps: no stored task has empty text. */
  predicate NonEmptyTexts(todo: seq<Task>)
  {
    forall k :: 0 <= k < |todo| ==> todo[k].task != ""
  }

  /** `a` is `b` with some entries dropped and the rest in their original order. */
  predicate Subsequence(a: seq<Task>, b: seq<Task>)
    decreases |b|
  {
    if b == [] then a == []
    else (a != [] && a[0] == b[0] && Subsequence(a[1..], b[1..])) || Subsequence(a, b[1..])
  }

  /** Number of tasks in `todo` whose completion flag is `done`. */
  function CountWith(todo: seq<Task>, done: bool): nat
  {
    if todo == [] then 0
    else (if todo[0].completed == done then 1 else 0) + CountWith(todo[1..], done)
  }

  // ---------------------------------------------------------------------------
  // The list operations the handlers perform on their copy of the array

  /** The task at `i` with its text and due date replaced; its completion flag is kept. */
  function Edited(todo: seq<Task>, i: nat, text: string, date: string): (r: seq<Task>)
    requires i < |todo|
    ensures |r| == |todo|
    ensures r[i].task == text && r[i].dueDate == date && r[i].completed == todo[i].completed
    ensures forall k :: 0 <= k < |todo| && k != i ==> r[k] == todo[k]
  {
    todo[i := todo[i].(task := text, dueDate := date)]
  }

  /** The task at `i` with its completion flag flipped. */
  function Toggled(todo: seq<Task>, i: nat): (r: seq<Task>)
    requires i < |todo|
    ensures |r| == |todo|
    ensures r[i].completed == !todo[i].completed
    ensures r[i].task == todo[i].task && r[i].dueDate == todo[i].dueDate
    ensures forall k :: 0 <= k < |todo| && k != i ==> r[k] == todo[k]
  {
    todo[i := todo[i].(completed := !todo[i].completed)]
  }

  /** `splice(i, 1)` on an array: removes the entry at `i` and shifts the later
      ones down by one; a start past the end removes nothing. */
  function Spliced(todo: seq<Task>, i: nat): (r: seq<Task>)
    ensures i < |todo| ==> |r| == |todo| - 1
    ensures i < |todo| ==> forall k :: 0 <= k < i ==> r[k] == todo[k]
    ensures i < |todo| ==> forall k :: i <= k < |r| ==> r[k] == todo[k + 1]
    ensures i >= |todo| ==> r == todo
  {
    if i < |todo| then todo[..i] + todo[i + 1..] else todo
  }

  lemma ToggledTwice(todo: seq<Task>, i: nat)
    requires i < |todo|
    ensures Toggled(Toggled(todo, i), i) == todo
  {
  }

  lemma {:induction false} SubsequenceReflexive(s: seq<Task>)
    ensures Subsequence(s, s)
    decreases |s|
  {
    if s != [] {
      SubsequenceReflexive(s[1..]);
    }
  }

  lemma {:induction false} SplicedKeepsOrder(todo: seq<Task>, i: nat)
    ensures Subsequence(Spliced(todo, i), todo)
    decreases |todo|
  {
    if i >= |todo| {
      SubsequenceReflexive(todo);
    } else if i == 0 {
      assert Spliced(todo, 0) == todo[1..];
      SubsequenceReflexive(todo[1..]);
    } else {
      var r := Spliced(todo, i);
      assert r[0] == todo[0];
      assert r[1..] == Spliced(todo[1..], i - 1);
      SplicedKeepsOrder(todo[1..], i - 1);
    }
  }

  lemma SplicedRemovesOne(todo: seq<Task>, i: nat)
    requires i < |todo|
    ensures multiset(Spliced(todo, i)) + multiset{todo[i]} == multiset(todo)
  {
    assert todo == todo[..i] + [todo[i]] + todo[i + 1..];
  }

  /** Every list operation a handler applies keeps the non-empty-text invariant,
      provided the text an update writes is non-empty. */
  lemma OperationsKeepNonEmptyTexts(todo: seq<Task>, i: nat, text: string, date: string)
    requires NonEmptyTexts(todo)
    ensures i < |todo| && text != "" ==> NonEmptyTexts(Edited(todo, i, text, date))
    ensures text != "" ==> NonEmptyTexts(todo + [Task(text, false, date)])
    ensures i < |todo| ==> NonEmptyTexts(Toggled(todo, i))
    ensures NonEmptyTexts(Spliced(todo, i))
  {
  }

  // ---------------------------------------------------------------------------
  // The visible list

  /** Whether a task passes the current filter: "completed" shows the done ones,
      "pending" the open ones, and every other value shows everything. */
  predicate Shows(filter: string, t: Task)
  {
    if filter == "completed" then t.completed
    else if filter == "pending" then !t.completed
    else true
  }

  /** `todo.filter(...)`: the tasks the current filter shows, in list order. */
  function FilteredTodo(todo: seq<Task>, filter: string): (r: seq<Task>)
    ensures |r| <= |todo|
    ensures forall k :: 0 <= k < |r| ==> Shows(filter, r[k])
    ensures forall t :: t in r ==> t in todo
  {
    if todo == [] then []
    else (if Shows(filter, todo[0]) then [todo[0]] else []) + FilteredTodo(todo[1..], filter)
  }

  lemma {:induction false} FilteredKeepsOrder(todo: seq<Task>, filter: string)
    ensures Subsequence(FilteredTodo(todo, filter), todo)
    decreases |todo|
  {
    if todo != [] {
      var r := FilteredTodo(todo, filter);
      FilteredKeepsOrder(todo[1..], filter);
      if Shows(filter, todo[0]) {
        assert r[0] == todo[0] && r[1..] == FilteredTodo(todo[1..], filter);
      } else {
        assert r == FilteredTodo(todo[1..], filter);
      }
    }
  }

  /** Each task occurs in the visible list exactly as often as in the full list
      when the filter shows it, and not at all otherwise. */
  lemma {:induction false} FilteredOccurrences(todo: seq<Task>, filter: string, t: Task)
    ensures multiset(FilteredTodo(todo, filter))[t] == if Shows(filter, t) then multiset(todo)[t] else 0
    decreases |todo|
  {
    if todo != [] {
      FilteredOccurrences(todo[1..], filter, t);
      assert todo == [todo[0]] + todo[1..];
    }
  }

  lemma {:induction false} FilteredShowsAll(todo: seq<Task>, filter: string)
    requires filter != "completed" && filter != "pending"
    ensures FilteredTodo(todo, filter) == todo
    decreases |todo|
  {
    if todo != [] {
      FilteredShowsAll(todo[1..], filter);
      assert todo == [todo[0]] + todo[1..];
    }
  }

  lemma {:induction false} FilteredCounts(todo: seq<Task>)
    ensures |FilteredTodo(todo, "completed")| == CountWith(todo, true)
    ensures |FilteredTodo(todo, "pending")| == CountWith(todo, false)
    ensures CountWith(todo, true) + CountWith(todo, false) == |todo|
    decreases |todo|
  {
    if todo != [] {
      FilteredCounts(todo[1..]);
    }
  }

  // ---------------------------------------------------------------------------
  // Rows and the indices they pass to the handlers

  /** The position in the full list of the task rendered as row `row`. */
  function SourceIndex(todo: seq<Task>, filter: string, row: nat): (i: nat)
    requires row < |FilteredTodo(todo, filter)|
    ensures row <= i < |todo|
    ensures todo[i] == FilteredTodo(todo, filter)[row]
    decreases |todo|
  {
    if Shows(filter, todo[0]) && row == 0 then 0
    else 1 + SourceIndex(todo[1..], filter, if Shows(filter, todo[0]) then row - 1 else row)
  }

  /** The position `SourceIndex` gives is the row's own even when the list holds
      equal tasks: the task there is shown, and exactly `row` shown tasks precede it. */
  lemma {:induction false} SourceIndexIsRowPosition(todo: seq<Task>, filter: string, row: nat)
    requires row < |FilteredTodo(todo, filter)|
    ensures Shows(filter, todo[SourceIndex(todo, filter, row)])
    ensures |FilteredTodo(todo[..SourceIndex(todo, filter, row)], filter)| == row
    decreases |todo|
  {
    var i := SourceIndex(todo, filter, row);
    if Shows(filter, todo[0]) && row == 0 {
      assert todo[..i] == [];
    } else {
      var r := if Shows(filter, todo[0]) then row - 1 else row;
      SourceIndexIsRowPosition(todo[1..], filter, r);
      assert todo[..i] == [todo[0]] + todo[1..][..i - 1];
    }
  }

  lemma {:induction false} SourceIndexUnfiltered(todo: seq<Task>, filter: string, row: nat)
    requires filter != "completed" && filter != "pending"
    requires row < |todo|
    ensures row < |FilteredTodo(todo, filter)| && SourceIndex(todo, filter, row) == row
    decreases |todo|
  {
    FilteredShowsAll(todo, filter);
    if row > 0 {
      FilteredShowsAll(todo[1..], filter);
      SourceIndexUnfiltered(todo[1..], filter, row - 1);
    }
  }

  /** The rows hand their position in the visible list to handlers that index the
      full list: under "completed", row 0 of [open A, done B] shows B, but the
      toggle it triggers flips A and leaves B as it was. */
  lemma RowIndexAsWrittenMisdirects()
    ensures var todo := [Task("A", false, ""), Task("B", true, "")];
      FilteredTodo(todo, "completed") == [todo[1]]
      && Toggled(todo, 0)[0] == Task("A", true, "")
      && Toggled(todo, 0)[1] == todo[1]
      && SourceIndex(todo, "completed", 0) == 1
  {
  }

  // ---------------------------------------------------------------------------
  // The component

  class TodoList {
    var todo: seq<Task>
    var editingIndex: Option<nat>
    var inputValue: string
    var dueDate: string
    var filter: string

    /** The initial state of the `useState` hooks. */
    constructor ()
      ensures todo == [] && editingIndex == None
      ensures inputValue == "" && dueDate == "" && filter == "all"
    {
      todo := [];
      editingIndex := None;
      inputValue := "";
      dueDate := "";
      filter := "all";
    }

    /** The tasks currently rendered. */
    function Visible(): (r: seq<Task>)
      reads this
      ensures Subsequence(r, todo)
    {
      FilteredKeepsOrder(todo, filter);
      FilteredTodo(todo, filter)
    }

    /** Submits the form: rejects an empty text, otherwise updates the task being
        edited or appends a new one, and clears both buffers. Only the empty
        string is rejected; whitespace counts as text. */
    method HandleSubmit() returns (outcome: Outcome)
      modifies this
      ensures filter == old(filter)
      ensures old(inputValue) == "" ==>
        outcome == Warning && todo == old(todo) && editingIndex == old(editingIndex)
        && inputValue == old(inputValue) && dueDate == old(dueDate)
      ensures old(inputValue) != "" && old(editingIndex).None? ==>
        outcome == Added && todo == old(todo) + [Task(old(inputValue), false, old(dueDate))]
        && editingIndex == None && inputValue == "" && dueDate == ""
      ensures old(inputValue) != "" && old(editingIndex).Some? && old(editingIndex).value < |old(todo)| ==>
        outcome == Updated && todo == Edited(old(todo), old(editingIndex).value, old(inputValue), old(dueDate))
        && editingIndex == None && inputValue == "" && dueDate == ""
      ensures old(inputValue) != "" && old(editingIndex).Some? && old(editingIndex).value >= |old(todo)| ==>
        outcome == TypeError && todo == old(todo) && editingIndex == old(editingIndex)
        && inputValue == old(inputValue) && dueDate == old(dueDate)
      ensures outcome == Added ==> |todo| == |old(todo)| + 1
      ensures outcome != Added ==> |todo| == |old(todo)|
      ensures NonEmptyTexts(old(todo)) ==> NonEmptyTexts(todo)
    {
      var task := inputValue;
      if task == "" {
        return Warning;
      }
      match editingIndex {
        case Some(i) =>
          if i >= |todo| {
            // `updatedTodo[editingIndex]` is undefined: the assignment throws
            // before any state setter runs.
            return TypeError;
          }
          var updatedTodo := todo;
          updatedTodo := updatedTodo[i := updatedTodo[i].(task := task)];
          updatedTodo := updatedTodo[i := updatedTodo[i].(dueDate := dueDate)];
          todo := updatedTodo;
          editingIndex := None;
          outcome := Updated;
        case None =>
          todo := todo + [Task(task, false, dueDate)];
          outcome := Added;
      }
      inputValue := "";
      dueDate := "";
    }

    /** Flips the completion flag of the task at `index`. */
    method ChangeStatus(index: nat)
      requires index < |todo|
      modifies this
      ensures todo == Toggled(old(todo), index)
      ensures NonEmptyTexts(old(todo)) ==> NonEmptyTexts(todo)
      ensures editingIndex == old(editingIndex) && inputValue == old(inputValue)
      ensures dueDate == old(dueDate) && filter == old(filter)
    {
      var newTodo := todo;
      newTodo := newTodo[index := newTodo[index].(completed := !newTodo[index].completed)];
      todo := newTodo;
    }

    /** Removes the task at `index` with splice semantics. The edit session is
        left as it was, so a stale `editingIndex` may now name another task or
        lie past the end. */
    method DeleteTask(index: nat)
      modifies this
      ensures todo == Spliced(old(todo), index)
      ensures NonEmptyTexts(old(todo)) ==> NonEmptyTexts(todo)
      ensures editingIndex == old(editingIndex) && inputValue == old(inputValue)
      ensures dueDate == old(dueDate) && filter == old(filter)
    {
      var newTodo := todo;
      if index < |newTodo| {
        newTodo := newTodo[..index] + newTodo[index + 1..];
      }
      todo := newTodo;
    }

    /** Starts editing the task at `index`, loading its text and due date into
        the buffers. */
    method EditTask(index: nat)
      requires index < |todo|
      modifies this
      ensures editingIndex == Some(index)
      ensures inputValue == old(todo)[index].task && dueDate == old(todo)[index].dueDate
      ensures todo == old(todo) && filter == old(filter)
    {
      editingIndex := Some(index);
      inputValue := todo[index].task;
      dueDate := todo[index].dueDate;
    }

    /** The raw filter setter behind the three filter buttons. */
    method SetFilter(value: string)
      modifies this
      ensures filter == value
      ensures todo == old(todo) && editingIndex == old(editingIndex)
      ensures inputValue == old(inputValue) && dueDate == old(dueDate)
    {
      filter := value;
    }
  }

  // ---------------------------------------------------------------------------
  // Sessions against the component

  /** Adding "Buy milk" due 2024-01-01 to an empty list. */
  method AddToEmptyList() returns (todo: seq<Task>, outcome: Outcome)
    ensures outcome == Added && todo == [Task("Buy milk", false, "2024-01-01")]
  {
    var c := new TodoList();
    c.inputValue := "Buy milk";
    c.dueDate := "2024-01-01";
    outcome := c.HandleSubmit();
    todo := c.todo;
  }

  /** Toggling the first of two open tasks and then showing the pending ones. */
  method ToggleThenShowPending() returns (todo: seq<Task>, visible: seq<Task>)
    ensures todo == [Task("A", true, ""), Task("B", false, "")]
    ensures visible == [Task("B", false, "")]
  {
    var c := new TodoList();
    c.todo := [Task("A", false, ""), Task("B", false, "")];
    c.ChangeStatus(0);
    c.SetFilter("pending");
    todo := c.todo;
    assert todo[1..] == [todo[1]] && todo[1..][1..] == [];
    assert FilteredTodo(todo[1..], "pending") == [todo[1]];
    visible := c.Visible();
  }

  /** Editing a task and submitting new text and date, keeping its flag. */
  method EditThenSubmit() returns (todo: seq<Task>, editing: Option<nat>, outcome: Outcome)
    ensures outcome == Updated && editing == None
    ensures todo == [Task("A2", true, "2024-02-02")]
  {
    var c := new TodoList();
    c.todo := [Task("A", true, "2024-01-01")];
    c.EditTask(0);
    assert c.inputValue == "A" && c.dueDate == "2024-01-01";
    c.inputValue := "A2";
    c.dueDate := "2024-02-02";
    outcome := c.HandleSubmit();
    todo, editing := c.todo, c.editingIndex;
  }

  /** A whitespace-only text is stored as a task. */
  method SubmitWhitespace() returns (todo: seq<Task>, outcome: Outcome)
    ensures outcome == Added && todo == [Task(" ", false, "")]
  {
    var c := new TodoList();
    c.inputValue := " ";
    outcome := c.HandleSubmit();
    todo := c.todo;
  }

  /** Deleting the task being edited leaves the edit session pointing past the
      end (the next submit throws) or at the task that moved into its place
      (the next submit overwrites that one). */
  method DeleteWhileEditing() returns (pastEnd: Outcome, shifted: seq<Task>)
    ensures pastEnd == TypeError
    ensures shifted == [Task("C", false, "")]
  {
    var c := new TodoList();
    c.todo := [Task("A", false, "")];
    c.EditTask(0);
    c.DeleteTask(0);
    c.inputValue := "A";
    pastEnd := c.HandleSubmit();

    var d := new TodoList();
    d.todo := [Task("A", false, ""), Task("B", false, "")];
    d.EditTask(0);
    d.DeleteTask(0);
    d.inputValue := "C";
    var _ := d.HandleSubmit();
    shifted := d.todo;
  }
}
