/**
 The todo-list app: one slice `{ todos }` holding an ordered list of records,
 changed by ADD_TODO, TOGGLE_TODO and DELETE_TODO. Ids come from `uuidv4()`
 in the action creator; here they are a parameter of the creator.
 */
module Todos {
  import Seqs
  import Store

  datatype Todo = Todo(id: string, title: string, status: bool)

  datatype State = State(todos: seq<Todo>)

  /** Every action type the store can be handed; `Unrecognised(kind)` stands for
      any `type` other than those of the other constructors; `kind` is never one of their type strings. */
  datatype Action =
    | AddTodo(payload: Todo)
    | ToggleTodo(id: string)
    | DeleteTodo(id: string)
    | Unrecognised(kind: string)

  /** `initialState`: no todos. */
  const Initial: State := State([])

  /** The `addTodo(title)` action creator, with the freshly generated `id` passed in. */
  function NewTodo(id: string, title: string): (a: Action)
    ensures a.AddTodo? && a.payload.id == id && a.payload.title == title && !a.payload.status
  {
    AddTodo(Todo(id, title, false))
  }

  /** The TOGGLE_TODO `map`: flip `status` on the records whose id is `id`. */
  function Toggle(todos: seq<Todo>, id: string): (r: seq<Todo>)
    ensures |r| == |todos|
    ensures forall i :: 0 <= i < |todos| ==>
      && r[i].id == todos[i].id
      && r[i].title == todos[i].title
      && (r[i].status != todos[i].status <==> todos[i].id == id)
  {
    seq(|todos|, i requires 0 <= i < |todos| =>
      if todos[i].id == id then todos[i].(status := !todos[i].status) else todos[i])
  }

  /** The predicate DELETE_TODO filters with: keep the records whose id is not `id`. */
  function Keeps(id: string): Todo -> bool {
    (t: Todo) => t.id != id
  }

  /** The DELETE_TODO `filter`: drop every record whose id is `id`. */
  function Remove(todos: seq<Todo>, id: string): (r: seq<Todo>)
    ensures Seqs.IsSubsequence(r, todos)
    ensures forall i :: 0 <= i < |r| ==> r[i].id != id && r[i] in todos
    ensures forall i :: 0 <= i < |todos| && todos[i].id != id ==> todos[i] in r
    ensures multiset(r) <= multiset(todos)
    ensures forall i :: 0 <= i < |todos| && todos[i].id != id ==> multiset(r)[todos[i]] == multiset(todos)[todos[i]]
  {
    Seqs.Filter(todos, Keeps(id))
  }

  /** `todoReducer`. */
  function Reduce(s: State, a: Action): (r: State)
    ensures a.AddTodo? ==>
      && |r.todos| == |s.todos| + 1
      && r.todos[..|s.todos|] == s.todos
      && r.todos[|s.todos|] == a.payload
    ensures a.ToggleTodo? ==> r.todos == Toggle(s.todos, a.id)
    ensures a.DeleteTodo? ==> r.todos == Remove(s.todos, a.id)
    ensures a.Unrecognised? ==> r == s
  {
    match a
    case AddTodo(t) => s.(todos := s.todos + [t])
    case ToggleTodo(id) => s.(todos := Toggle(s.todos, id))
    case DeleteTodo(id) => s.(todos := Remove(s.todos, id))
    case Unrecognised(_) => s
  }

  /** Toggling the same id twice restores the list. */
  lemma ToggleInvolution(todos: seq<Todo>, id: string)
    ensures Toggle(Toggle(todos, id), id) == todos
  {
    var r := Toggle(Toggle(todos, id), id);
    assert forall i :: 0 <= i < |todos| ==> r[i] == todos[i];
  }

  /** Toggling an id no record carries changes nothing. */
  lemma ToggleAbsent(todos: seq<Todo>, id: string)
    requires forall i :: 0 <= i < |todos| ==> todos[i].id != id
    ensures Toggle(todos, id) == todos
  {
    var r := Toggle(todos, id);
    assert forall i :: 0 <= i < |todos| ==> r[i] == todos[i];
  }

  /** Deleting an id no record carries changes nothing. */
  lemma RemoveAbsent(todos: seq<Todo>, id: string)
    requires forall i :: 0 <= i < |todos| ==> todos[i].id != id
    ensures Remove(todos, id) == todos
  {
    Seqs.FilterKeepsAll(todos, Keeps(id));
  }

  /** DELETE_TODO is idempotent. */
  lemma RemoveIdempotent(todos: seq<Todo>, id: string)
    ensures Remove(Remove(todos, id), id) == Remove(todos, id)
  {
    Seqs.FilterIdempotent(todos, Keeps(id));
  }

  /** Dispatching TOGGLE_TODO twice with the same id restores the state. */
  lemma ToggleTwiceRestores(s: State, id: string)
    ensures Reduce(Reduce(s, ToggleTodo(id)), ToggleTodo(id)) == s
  {
    ToggleInvolution(s.todos, id);
  }

  /**
   Adding a todo with an id not yet in use: afterwards exactly one record carries
   that id, it is the last one, not completed, with the given title.
   */
  lemma AddThenFind(s: State, id: string, title: string)
    requires forall i :: 0 <= i < |s.todos| ==> s.todos[i].id != id
    ensures var r := Reduce(s, NewTodo(id, title)).todos;
      && |r| == |s.todos| + 1
      && r[|s.todos|] == Todo(id, title, false)
      && forall i :: 0 <= i < |r| && r[i].id == id ==> i == |s.todos|
  {
  }

  /** Add "Buy milk", complete it, delete it: the list is empty again. */
  lemma AddToggleDeleteScenario(id: string)
    ensures Store.Run(Reduce, Initial, [NewTodo(id, "Buy milk")])
         == State([Todo(id, "Buy milk", false)])
    ensures Store.Run(Reduce, Initial, [NewTodo(id, "Buy milk"), ToggleTodo(id)])
         == State([Todo(id, "Buy milk", true)])
    ensures Store.Run(Reduce, Initial, [NewTodo(id, "Buy milk"), ToggleTodo(id), DeleteTodo(id)])
         == Initial
  {
    var add, toggle, delete := NewTodo(id, "Buy milk"), ToggleTodo(id), DeleteTodo(id);
    assert [add, toggle, delete][..2] == [add, toggle];
    assert [add, toggle][..1] == [add];
    assert [add][..0] == [];
    var one := Reduce(Initial, add);
    assert Store.Run(Reduce, Initial, [add]) == one;
    var two := Reduce(one, toggle);
    assert two.todos[0] == Todo(id, "Buy milk", true);
    assert Store.Run(Reduce, Initial, [add, toggle]) == two;
    assert Remove(two.todos, id) == [];
  }
}
