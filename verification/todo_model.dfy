/**
 The data model of the todo client: the items the remote service stores, the
 body of a create request, the error classification shown in the banner, the
 outcome of a remote call, and the state record the `App` component keeps.
 */
module TodoModel {

  datatype Option<+T> = None | Some(value: T)

  /** How a remote request settled: its promise resolved with a value or was rejected. */
  datatype Response<+T> = Resolved(value: T) | Rejected

  /** A todo item; `id` is assigned by the remote service (0 for the placeholder). */
  datatype Todo = Todo(id: int, userId: int, title: string, completed: bool)

  /** The body of a create request: a todo without its id. */
  datatype NewTodo = NewTodo(userId: int, title: string, completed: bool)

  /** The error classification; one is active at a time, `NoError` when the banner is empty. */
  datatype ErrorMessage = NoError | Load | Add | Delete | Update | EmptyTitle

  /**
   The state of the `App` component: the stored items, the placeholder shown
   while a create request is in flight, the ids marked as pending, the active
   error, the loading flag and the text of the new-todo input.
   */
  datatype AppState = AppState(
    todos: seq<Todo>,
    tempTodo: Option<Todo>,
    pendingIds: seq<int>,
    error: ErrorMessage,
    isLoading: bool,
    newTodoTitle: string)

  /** The state on mount, before the load handler runs. */
  const Initial: AppState := AppState([], None, [], NoError, false, "")

  /** The synchronous part of a handler: the state it leaves and the request it issues. */
  datatype Step<+R> = Step(state: AppState, request: R)
}
