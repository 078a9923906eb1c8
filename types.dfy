/** The records exchanged between the routes, the query cache and the components. */
module Types {

  /** A todo as stored and as cached; the timestamps are ISO strings taken from the clock. */
  datatype Todo = Todo(id: string, text: string, completed: bool, createdAt: string, updatedAt: string)

  /** A tab of the list view; tabs are shown in ascending `sortOrder`. */
  datatype Tab = Tab(id: string, name: string, sortOrder: int)

  /** A named list inside a tab. */
  datatype TodoList = TodoList(id: string, tabId: string, name: string, sortOrder: int)

  /** The body cached for one collection: the todos of a day, or of a list in a tab. */
  datatype Collection =
    | DayTodos(date: string, todos: seq<Todo>)
    | ListTodos(listId: string, tabId: string, todos: seq<Todo>)
  {
    /** `{ ...snapshot, todos }`: the same collection with other todos. */
    function WithTodos(ts: seq<Todo>): (c: Collection)
      ensures c.todos == ts
      ensures c.DayTodos? == this.DayTodos?
      ensures c.DayTodos? ==> c.date == this.date
      ensures c.ListTodos? ==> c.listId == this.listId && c.tabId == this.tabId
    {
      match this
      case DayTodos(date, _) => DayTodos(date, ts)
      case ListTodos(listId, tabId, _) => ListTodos(listId, tabId, ts)
    }
  }

  /** The ids of a sequence of todos, in order. */
  function Ids(ts: seq<Todo>): (ids: seq<string>)
    ensures |ids| == |ts|
    ensures forall i :: 0 <= i < |ts| ==> ids[i] == ts[i].id
  {
    if ts == [] then [] else [ts[0].id] + Ids(ts[1..])
  }
}
