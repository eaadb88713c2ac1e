/** The state of the `TodoList` component and its event handlers. The
    component's `useState` fields are the fields of the class; each handler
    replaces `todos` (or the editing fields) by a value computed from the old
    state, and touches nothing else. */
module TodoListComponent {
  import opened Wrappers
  import opened Text
  import opened TodoModel

  class TodoList {
    var todos: seq<Todo>
    var inputValue: string
    var filter: FilterType
    var sortBy: SortType
    var editingId: Option<string>
    var editingText: string

    /** Mounting with `initialTodos` (default `[]`); local storage is not part
        of this model. */
    constructor (initialTodos: seq<Todo>)
      ensures todos == initialTodos && inputValue == ""
      ensures filter == All && sortBy == Newest
      ensures editingId == None && editingText == ""
    {
      todos := initialTodos;
      inputValue := "";
      filter := All;
      sortBy := Newest;
      editingId := None;
      editingText := "";
    }

    /** The input's `onChange`. */
    method SetInputValue(value: string)
      modifies this`inputValue
      ensures inputValue == value
    {
      inputValue := value;
    }

    /** `addTodo`: a non-blank input becomes a new active todo at the end of the
        list, with the trimmed text, and the input is cleared; a blank input
        changes nothing. `newId` and `now` stand for `Date.now()`. */
    method AddTodo(newId: string, now: int)
      modifies this`todos, this`inputValue
      ensures Trim(old(inputValue)) != "" ==>
        todos == old(todos) + [Todo(newId, Trim(old(inputValue)), false, now)] && inputValue == ""
      ensures Trim(old(inputValue)) == "" ==>
        todos == old(todos) && inputValue == old(inputValue)
    {
      var text := Trim(inputValue);
      if text != "" {
        todos := todos + [Todo(newId, text, false, now)];
        inputValue := "";
      }
    }

    /** `toggleTodo(id)`. */
    method ToggleTodo(id: string)
      modifies this`todos
      ensures todos == ToggleById(old(todos), id)
    {
      todos := ToggleById(todos, id);
    }

    /** `deleteTodo(id)`. */
    method DeleteTodo(id: string)
      modifies this`todos
      ensures todos == DeleteById(old(todos), id)
    {
      todos := DeleteById(todos, id);
    }

    /** `startEditing(todo)`: the edit field opens with the todo's text. */
    method StartEditing(todo: Todo)
      modifies this`editingId, this`editingText
      ensures editingId == Some(todo.id) && editingText == todo.text
    {
      editingId := Some(todo.id);
      editingText := todo.text;
    }

    /** The edit field's `onChange`. */
    method SetEditingText(value: string)
      modifies this`editingText
      ensures editingText == value
    {
      editingText := value;
    }

    /** `saveEdit`: the todos with the edited id get the trimmed text, but only
        when the id is truthy (not null, not "") and the trimmed text is not
        empty; editing ends in every case. */
    method SaveEdit()
      modifies this`todos, this`editingId, this`editingText
      ensures old(editingId).Some? && old(editingId).value != "" && Trim(old(editingText)) != "" ==>
        todos == EditText(old(todos), old(editingId).value, Trim(old(editingText)))
      ensures !(old(editingId).Some? && old(editingId).value != "" && Trim(old(editingText)) != "") ==>
        todos == old(todos)
      ensures editingId == None && editingText == ""
    {
      var text := Trim(editingText);
      if editingId.Some? && editingId.value != "" && text != "" {
        todos := EditText(todos, editingId.value, text);
      }
      editingId := None;
      editingText := "";
    }

    /** `cancelEdit`: editing ends, the todos are untouched. */
    method CancelEdit()
      modifies this`editingId, this`editingText
      ensures editingId == None && editingText == ""
    {
      editingId := None;
      editingText := "";
    }

    /** `clearCompleted`. */
    method ClearCompleted()
      modifies this`todos
      ensures todos == ActiveTodos(old(todos))
      ensures StatsOf(todos).completed == 0 && StatsOf(todos).total == StatsOf(old(todos)).active
    {
      ClearCompletedStats(todos);
      todos := ActiveTodos(todos);
    }

    /** `toggleAll`. */
    method ToggleAllTodos()
      modifies this`todos
      ensures todos == ToggleAll(old(todos))
    {
      todos := ToggleAll(todos);
    }

    /** The filter buttons. */
    method SetFilter(f: FilterType)
      modifies this`filter
      ensures filter == f
    {
      filter := f;
    }

    /** The sort select. */
    method SetSortBy(s: SortType)
      modifies this`sortBy
      ensures sortBy == s
    {
      sortBy := s;
    }

    /** The list items rendered. */
    function Displayed(): (r: seq<Todo>)
      reads this
      ensures SortedBy(r, SortKey(sortBy))
      ensures multiset(r) == multiset(Filtered(todos, filter))
    {
      FilteredAndSorted(todos, filter, sortBy)
    }
  }

  /** The test that adds "New todo item" to an empty list and the one that
      submits only spaces: one todo, active, versus nothing. */
  method AddScenario() returns (afterAdd: Stats, afterBlank: Stats)
    ensures afterAdd == Stats(1, 0, 1)
    ensures afterBlank == Stats(0, 0, 0)
  {
    var list := new TodoList([]);
    list.SetInputValue("New todo item");
    assert Trim("New todo item") == "New todo item" by {
      TrimPadded([], "New todo item", []);
      assert [] + "New todo item" + [] == "New todo item";
    }
    list.AddTodo("1", 0);
    afterAdd := StatsOf(list.todos);
    CompletedZero(list.todos);

    var blank := new TodoList([]);
    blank.SetInputValue("   ");
    blank.AddTodo("2", 0);
    afterBlank := StatsOf(blank.todos);
  }
}
