/** The list computations of the `TodoList` component: the `Todo` record, the
    `map`/`filter`/`every` expressions its handlers apply to `todos`, the
    statistics, and the filtered and sorted list it displays. */
module TodoModel {

  /** A todo; `createdAt` is the creation time in milliseconds. */
  datatype Todo = Todo(id: string, text: string, completed: bool, createdAt: int)

  datatype FilterType = All | ActiveOnly | CompletedOnly

  /** The sort orders by creation time. ("alphabetical" is not part of this model.) */
  datatype SortType = Newest | Oldest

  datatype Stats = Stats(total: nat, completed: nat, active: int)

  /** `todos.filter(p)`. */
  function Filter(s: seq<Todo>, p: Todo -> bool): (r: seq<Todo>)
    ensures |r| <= |s|
    ensures forall i :: 0 <= i < |r| ==> p(r[i])
  {
    if s == [] then [] else (if p(s[0]) then [s[0]] else []) + Filter(s[1..], p)
  }

  /** The filtered list holds exactly the elements that pass, each as often as
      in the input. */
  lemma {:induction false} FilterMembers(s: seq<Todo>, p: Todo -> bool)
    ensures forall x :: x in Filter(s, p) <==> x in s && p(x)
    ensures forall x :: p(x) ==> multiset(Filter(s, p))[x] == multiset(s)[x]
    ensures forall x :: !p(x) ==> multiset(Filter(s, p))[x] == 0
  {
    if s != [] {
      FilterMembers(s[1..], p);
      assert s == [s[0]] + s[1..];
    }
  }

  /** Filtering keeps the order: it distributes over concatenation. */
  lemma {:induction false} FilterAppend(a: seq<Todo>, b: seq<Todo>, p: Todo -> bool)
    ensures Filter(a + b, p) == Filter(a, p) + Filter(b, p)
  {
    if a == [] {
      assert a + b == b;
    } else {
      assert (a + b)[0] == a[0];
      assert (a + b)[1..] == a[1..] + b;
      FilterAppend(a[1..], b, p);
    }
  }

  /** Filtering keeps every element that passes and drops every one that fails. */
  lemma {:induction false} FilterSingleton(x: Todo, p: Todo -> bool)
    ensures Filter([x], p) == if p(x) then [x] else []
  {
    assert [x][1..] == [];
  }

  /** `todos.map(t => t.id === id ? { ...t, completed: !t.completed } : t)`. */
  function ToggleById(todos: seq<Todo>, id: string): (r: seq<Todo>)
    ensures |r| == |todos|
    ensures forall i :: 0 <= i < |r| ==>
      && r[i].id == todos[i].id && r[i].text == todos[i].text
      && r[i].createdAt == todos[i].createdAt
      && r[i].completed == (if todos[i].id == id then !todos[i].completed else todos[i].completed)
  {
    if todos == [] then []
    else
      var t := todos[0];
      [if t.id == id then t.(completed := !t.completed) else t] + ToggleById(todos[1..], id)
  }

  /** Toggling the same id twice restores the list. */
  lemma ToggleTwice(todos: seq<Todo>, id: string)
    ensures ToggleById(ToggleById(todos, id), id) == todos
  {
    var r := ToggleById(ToggleById(todos, id), id);
    assert forall i :: 0 <= i < |todos| ==> r[i] == todos[i];
  }

  /** `todos.filter(t => t.id !== id)`. */
  function DeleteById(todos: seq<Todo>, id: string): (r: seq<Todo>)
    ensures |r| <= |todos|
    ensures forall i :: 0 <= i < |r| ==> r[i].id != id
  {
    Filter(todos, (t: Todo) => t.id != id)
  }

  /** Deleting removes exactly the todos with that id and keeps the rest in
      order. */
  lemma DeleteSpec(todos: seq<Todo>, id: string, a: seq<Todo>, b: seq<Todo>)
    ensures forall t :: t in DeleteById(todos, id) <==> t in todos && t.id != id
    ensures DeleteById(a + b, id) == DeleteById(a, id) + DeleteById(b, id)
    ensures (forall i :: 0 <= i < |todos| ==> todos[i].id != id) ==> DeleteById(todos, id) == todos
  {
    FilterAppend(a, b, (t: Todo) => t.id != id);
    FilterMembers(todos, (t: Todo) => t.id != id);
    if forall i :: 0 <= i < |todos| ==> todos[i].id != id {
      FilterKeepsAll(todos, (t: Todo) => t.id != id);
    }
  }

  lemma {:induction false} FilterKeepsAll(s: seq<Todo>, p: Todo -> bool)
    requires forall i :: 0 <= i < |s| ==> p(s[i])
    ensures Filter(s, p) == s
  {
    if s != [] {
      FilterKeepsAll(s[1..], p);
      assert s == [s[0]] + s[1..];
    }
  }

  /** `todos.map(t => t.id === id ? { ...t, text } : t)`, as `saveEdit` applies it. */
  function EditText(todos: seq<Todo>, id: string, text: string): (r: seq<Todo>)
    ensures |r| == |todos|
    ensures forall i :: 0 <= i < |r| ==>
      && r[i].id == todos[i].id && r[i].completed == todos[i].completed
      && r[i].createdAt == todos[i].createdAt
      && r[i].text == (if todos[i].id == id then text else todos[i].text)
  {
    if todos == [] then []
    else
      var t := todos[0];
      [if t.id == id then t.(text := text) else t] + EditText(todos[1..], id, text)
  }

  /** The active todos: `todos.filter(t => !t.completed)`, what `clearCompleted` keeps. */
  function ActiveTodos(todos: seq<Todo>): (r: seq<Todo>)
    ensures |r| <= |todos|
    ensures forall i :: 0 <= i < |r| ==> !r[i].completed
  {
    Filter(todos, (t: Todo) => !t.completed)
  }

  /** The completed todos: `todos.filter(t => t.completed)`. */
  function CompletedTodos(todos: seq<Todo>): (r: seq<Todo>)
    ensures |r| <= |todos|
    ensures forall i :: 0 <= i < |r| ==> r[i].completed
  {
    Filter(todos, (t: Todo) => t.completed)
  }

  /** The active and the completed todos partition the list. */
  lemma {:induction false} Partition(todos: seq<Todo>)
    ensures |ActiveTodos(todos)| + |CompletedTodos(todos)| == |todos|
    ensures multiset(ActiveTodos(todos)) + multiset(CompletedTodos(todos)) == multiset(todos)
  {
    if todos != [] {
      var t, rest := todos[0], todos[1..];
      Partition(rest);
      assert ActiveTodos(todos) == (if !t.completed then [t] else []) + ActiveTodos(rest);
      assert CompletedTodos(todos) == (if t.completed then [t] else []) + CompletedTodos(rest);
      assert todos == [t] + rest;
      assert multiset(todos) == multiset{t} + multiset(rest);
    }
  }

  /** `todos.every(t => t.completed)`; true for the empty list. */
  predicate AllCompleted(todos: seq<Todo>)
    ensures AllCompleted(todos) <==> forall t :: t in todos ==> t.completed
    ensures todos == [] ==> AllCompleted(todos)
  {
    forall i :: 0 <= i < |todos| ==> todos[i].completed
  }

  /** `stats`: total, completed and active counts. */
  function StatsOf(todos: seq<Todo>): (s: Stats)
    ensures s.total == |todos|
    ensures s.completed == |CompletedTodos(todos)|
    ensures s.active == |ActiveTodos(todos)| && s.active >= 0
    ensures s.completed + s.active == s.total
  {
    Partition(todos);
    var completed := |CompletedTodos(todos)|;
    Stats(|todos|, completed, |todos| - completed)
  }

  /** The completed count is 0 exactly when no todo is completed. */
  lemma CompletedZero(todos: seq<Todo>)
    ensures StatsOf(todos).completed == 0 <==> forall i :: 0 <= i < |todos| ==> !todos[i].completed
  {
    var completed := CompletedTodos(todos);
    FilterMembers(todos, (t: Todo) => t.completed);
    if exists i :: 0 <= i < |todos| && todos[i].completed {
      var i :| 0 <= i < |todos| && todos[i].completed;
      assert todos[i] in completed;
    } else {
    }
  }

  /** The active count is 0 exactly when every todo is completed. */
  lemma ActiveZero(todos: seq<Todo>)
    ensures StatsOf(todos).active == 0 <==> AllCompleted(todos)
  {
    var active := ActiveTodos(todos);
    FilterMembers(todos, (t: Todo) => !t.completed);
    if !AllCompleted(todos) {
      var i :| 0 <= i < |todos| && !todos[i].completed;
      assert todos[i] in active;
    }
  }

  /** `clearCompleted` leaves no completed todo and as many todos as were active. */
  lemma ClearCompletedStats(todos: seq<Todo>)
    ensures StatsOf(ActiveTodos(todos)).completed == 0
    ensures StatsOf(ActiveTodos(todos)).total == StatsOf(todos).active
  {
    CompletedZero(ActiveTodos(todos));
  }

  /** `todos.map(t => ({ ...t, completed }))`. */
  function SetAllCompleted(todos: seq<Todo>, completed: bool): (r: seq<Todo>)
    ensures |r| == |todos|
    ensures forall i :: 0 <= i < |r| ==>
      r[i] == todos[i].(completed := completed)
  {
    if todos == [] then [] else [todos[0].(completed := completed)] + SetAllCompleted(todos[1..], completed)
  }

  /** `toggleAll`: all become active when all were completed, otherwise all
      become completed. */
  function ToggleAll(todos: seq<Todo>): (r: seq<Todo>)
    ensures |r| == |todos|
    ensures forall i :: 0 <= i < |r| ==> r[i].completed != AllCompleted(todos)
  {
    SetAllCompleted(todos, !AllCompleted(todos))
  }

  /** `toggleAll` never changes ids, texts or times, and the outcome is uniform. */
  lemma ToggleAllSpec(todos: seq<Todo>)
    ensures |ToggleAll(todos)| == |todos|
    ensures AllCompleted(todos) ==> forall i :: 0 <= i < |todos| ==> !ToggleAll(todos)[i].completed
    ensures !AllCompleted(todos) ==> AllCompleted(ToggleAll(todos))
    ensures forall i :: 0 <= i < |todos| ==>
      ToggleAll(todos)[i].id == todos[i].id && ToggleAll(todos)[i].text == todos[i].text
  {
  }

  /** On a list that is not entirely completed, `toggleAll` twice makes every
      todo active. */
  lemma ToggleAllTwice(todos: seq<Todo>)
    requires !AllCompleted(todos)
    ensures ToggleAll(ToggleAll(todos)) == SetAllCompleted(todos, false)
    ensures StatsOf(ToggleAll(ToggleAll(todos))).completed == 0
  {
    var once := ToggleAll(todos);
    assert AllCompleted(once);
    var twice := ToggleAll(once);
    assert |twice| == |todos|;
    assert forall i :: 0 <= i < |todos| ==> twice[i] == todos[i].(completed := false);
    CompletedZero(twice);
  }

  /** The footer (toggle-all and clear buttons) shows only for a non-empty list. */
  predicate FooterVisible(todos: seq<Todo>) {
    |todos| > 0
  }

  /** The clear-completed button shows only when some todo is completed. */
  predicate ClearCompletedVisible(todos: seq<Todo>) {
    FooterVisible(todos) && StatsOf(todos).completed > 0
  }

  /** The toggle-all button's label. */
  function ToggleAllLabel(todos: seq<Todo>): string {
    if AllCompleted(todos) then "Uncheck All" else "Check All"
  }

  /** The clear button shows exactly when some todo is completed, and the
      label promises what `toggleAll` does. */
  lemma FooterSpec(todos: seq<Todo>)
    ensures ClearCompletedVisible(todos) <==> exists i :: 0 <= i < |todos| && todos[i].completed
    ensures ToggleAllLabel(todos) == "Check All" ==> AllCompleted(ToggleAll(todos))
    ensures ToggleAllLabel(todos) == "Uncheck All" ==>
      forall i :: 0 <= i < |todos| ==> !ToggleAll(todos)[i].completed
  {
    CompletedZero(todos);
  }

  // ---- sorting ----

  predicate SortedBy(s: seq<Todo>, key: Todo -> int) {
    forall i, j :: 0 <= i < j < |s| ==> key(s[i]) <= key(s[j])
  }

  /** Inserts `x` before the first element whose key is not smaller. */
  function Insert(x: Todo, s: seq<Todo>, key: Todo -> int): (r: seq<Todo>)
    requires SortedBy(s, key)
    ensures SortedBy(r, key)
    ensures multiset(r) == multiset(s) + multiset{x}
    ensures r[0] == x || (s != [] && r[0] == s[0])
  {
    if s == [] || key(x) <= key(s[0]) then
      [x] + s
    else
      var rest := Insert(x, s[1..], key);
      assert s == [s[0]] + s[1..];
      assert key(s[0]) <= key(rest[0]);
      assert forall j :: 0 <= j < |rest| ==> key(s[0]) <= key(rest[j]);
      [s[0]] + rest
  }

  /** A stable insertion sort by an integer key, on a copy of the list. */
  function SortByKey(s: seq<Todo>, key: Todo -> int): (r: seq<Todo>)
    ensures SortedBy(r, key)
    ensures multiset(r) == multiset(s)
  {
    if s == [] then []
    else
      assert s == [s[0]] + s[1..];
      Insert(s[0], SortByKey(s[1..], key), key)
  }

  /** The comparator of each sort order as a key: newest first sorts by the
      negated time, oldest first by the time. */
  function SortKey(sortBy: SortType): Todo -> int {
    match sortBy
    case Newest => (t: Todo) => -t.createdAt
    case Oldest => (t: Todo) => t.createdAt
  }

  /** The filter step of `filteredAndSortedTodos`. */
  function Filtered(todos: seq<Todo>, filter: FilterType): seq<Todo> {
    match filter
    case All => todos
    case ActiveOnly => ActiveTodos(todos)
    case CompletedOnly => CompletedTodos(todos)
  }

  /** `filteredAndSortedTodos`: the filtered list sorted by the chosen order. */
  function FilteredAndSorted(todos: seq<Todo>, filter: FilterType, sortBy: SortType): (r: seq<Todo>)
    ensures SortedBy(r, SortKey(sortBy))
    ensures multiset(r) == multiset(Filtered(todos, filter))
  {
    SortByKey(Filtered(todos, filter), SortKey(sortBy))
  }

  /** What is displayed is a permutation of the filtered list; with no
      filter, of the whole list. */
  lemma DisplayedPermutation(todos: seq<Todo>, filter: FilterType, sortBy: SortType)
    ensures multiset(FilteredAndSorted(todos, filter, sortBy)) == multiset(Filtered(todos, filter))
    ensures filter == All ==> multiset(FilteredAndSorted(todos, filter, sortBy)) == multiset(todos)
  {
  }

  /** Lists with the same multiset have the same members. */
  lemma SameMembers(a: seq<Todo>, b: seq<Todo>)
    requires multiset(a) == multiset(b)
    ensures forall t :: t in a <==> t in b
  {
    forall t ensures t in a <==> t in b {
      assert t in a <==> t in multiset(a);
      assert t in b <==> t in multiset(b);
    }
  }

  /** The active and completed filters select by the completed flag. */
  lemma DisplayedMembers(todos: seq<Todo>, filter: FilterType, sortBy: SortType)
    ensures filter == ActiveOnly ==>
      forall t :: t in FilteredAndSorted(todos, filter, sortBy) <==> t in todos && !t.completed
    ensures filter == CompletedOnly ==>
      forall t :: t in FilteredAndSorted(todos, filter, sortBy) <==> t in todos && t.completed
  {
    SameMembers(FilteredAndSorted(todos, filter, sortBy), Filtered(todos, filter));
    if filter == ActiveOnly {
      FilterMembers(todos, (t: Todo) => !t.completed);
    } else if filter == CompletedOnly {
      FilterMembers(todos, (t: Todo) => t.completed);
    }
  }

  /** Newest first orders by descending creation time, oldest first by
      ascending creation time. */
  lemma DisplayedOrder(todos: seq<Todo>, filter: FilterType, sortBy: SortType)
    ensures sortBy == Newest ==> forall i, j :: 0 <= i < j < |FilteredAndSorted(todos, filter, sortBy)| ==>
      FilteredAndSorted(todos, filter, sortBy)[i].createdAt >= FilteredAndSorted(todos, filter, sortBy)[j].createdAt
    ensures sortBy == Oldest ==> forall i, j :: 0 <= i < j < |FilteredAndSorted(todos, filter, sortBy)| ==>
      FilteredAndSorted(todos, filter, sortBy)[i].createdAt <= FilteredAndSorted(todos, filter, sortBy)[j].createdAt
  {
    var r := FilteredAndSorted(todos, filter, sortBy);
    assert SortedBy(r, SortKey(sortBy));
  }
}
