/**
 The handlers of the `App` component as pure transitions on `AppState`.

 Each handler is split in two. Its start step is the synchronous state updates
 it makes before the remote request goes out. Its settle step is the updates
 made when the request's promise resolves or rejects. The remote outcome is a
 parameter of the settle step. Where the handler's callback reads the `todos`
 it closed over instead of the current state, the settle step also takes that
 call-time snapshot as a parameter.
 */
module App {
  import opened TodoModel
  import opened JsString
  import opened JsArray
  import opened TodoSeq

  // ----- load (uploadingTodos) -----

  /** Clears the error and raises the loading flag before the list is fetched. */
  function LoadStart(s: AppState): (r: AppState)
    ensures r.error == NoError && r.isLoading
    ensures r.todos == s.todos && r.tempTodo == s.tempTodo
    ensures r.pendingIds == s.pendingIds && r.newTodoTitle == s.newTodoTitle
  {
    s.(error := NoError, isLoading := true)
  }

  /** The fetched list replaces the store wholesale; a failed fetch raises `Load`. */
  function LoadSettle(s: AppState, response: Response<seq<Todo>>): (r: AppState)
    ensures !r.isLoading
    ensures response.Resolved? ==> r.todos == response.value && r.error == s.error
    ensures response.Rejected? ==> r.todos == s.todos && r.error == Load
    ensures r.tempTodo == s.tempTodo && r.pendingIds == s.pendingIds
    ensures r.newTodoTitle == s.newTodoTitle
  {
    match response
    case Resolved(items) => s.(todos := items, isLoading := false)
    case Rejected => s.(error := Load, isLoading := false)
  }

  // ----- create (handleSubmit) -----

  /**
   Submitting the new-todo form. The emptiness check looks at the untrimmed
   input, so an input of white space only is sent, with title "". When a
   request is issued, the placeholder todo (id 0) is shown meanwhile.
   */
  function SubmitStart(s: AppState, userId: int): (r: Step<Option<NewTodo>>)
    ensures r.request.None? <==> s.newTodoTitle == ""
    ensures r.request.None? ==> r.state == s.(error := EmptyTitle)
    ensures r.request.Some? ==>
      && r.request.value.userId == userId
      && r.request.value.title == Trim(s.newTodoTitle)
      && !r.request.value.completed
      && r.state.tempTodo == Some(Todo(0, userId, r.request.value.title, false))
      && r.state.isLoading && r.state.error == NoError
      && r.state.todos == s.todos && r.state.pendingIds == s.pendingIds
      && r.state.newTodoTitle == s.newTodoTitle
  {
    var draft := NewTodo(userId, Trim(s.newTodoTitle), false);
    if s.newTodoTitle != "" then
      var placeholder := Todo(0, draft.userId, draft.title, draft.completed);
      Step(s.(error := NoError, isLoading := true, tempTodo := Some(placeholder)), Some(draft))
    else
      Step(s.(error := EmptyTitle), None)
  }

  /**
   The created todo, as the service returned it, goes to the end of the
   current list and the input is cleared; a failure raises `Add`. Either way
   the placeholder goes away and loading stops.
   */
  function SubmitSettle(s: AppState, response: Response<Todo>): (r: AppState)
    ensures r.tempTodo == None && !r.isLoading && r.pendingIds == s.pendingIds
    ensures response.Resolved? ==>
      && |r.todos| == |s.todos| + 1
      && r.todos[..|s.todos|] == s.todos
      && r.todos[|s.todos|] == response.value
      && r.newTodoTitle == "" && r.error == s.error
    ensures response.Rejected? ==>
      r.todos == s.todos && r.error == Add && r.newTodoTitle == s.newTodoTitle
  {
    match response
    case Resolved(created) =>
      s.(todos := s.todos + [created], newTodoTitle := "", tempTodo := None, isLoading := false)
    case Rejected =>
      s.(error := Add, tempTodo := None, isLoading := false)
  }

  // ----- delete (deleteSelectedTodo) -----

  /** Clears the error, raises the loading flag and marks only `targetId` as pending. */
  function DeleteStart(s: AppState, targetId: int): (r: AppState)
    ensures r.error == NoError && r.isLoading && r.pendingIds == [targetId]
    ensures r.todos == s.todos && r.tempTodo == s.tempTodo
    ensures r.newTodoTitle == s.newTodoTitle
  {
    s.(error := NoError, isLoading := true, pendingIds := [targetId])
  }

  /**
   On success every item with `targetId` leaves the current list and the rest
   keep their order. On failure the list becomes `snapshot`, the list as it
   was when the handler was called, and `Delete` is raised. Either way the
   pending ids are cleared and loading stops.
   */
  function DeleteSettle(s: AppState, targetId: int, snapshot: seq<Todo>, response: Response<()>): (r: AppState)
    ensures r.pendingIds == [] && !r.isLoading
    ensures r.tempTodo == s.tempTodo && r.newTodoTitle == s.newTodoTitle
    ensures response.Resolved? ==>
      && (forall t :: t in r.todos <==> t in s.todos && t.id != targetId)
      && (forall t {:trigger multiset(r.todos)[t]} :: multiset(r.todos)[t] == if t.id == targetId then 0 else multiset(s.todos)[t])
      && IsSubseq(r.todos, s.todos)
      && r.error == s.error
    ensures response.Rejected? ==> r.todos == snapshot && r.error == Delete
  {
    match response
    case Resolved(_) =>
      RemoveIdsIsSubseq(s.todos, [targetId]);
      RemoveIdsCounts(s.todos, [targetId]);
      s.(todos := RemoveIds(s.todos, [targetId]), pendingIds := [], isLoading := false)
    case Rejected =>
      s.(todos := snapshot, error := Delete, pendingIds := [], isLoading := false)
  }

  // ----- toggle (handleTodoStatus) -----

  /**
   Raises the loading flag and marks the todo's id pending; the error is not
   cleared. The update request carries the same id and title, `completed`
   negated, and the session's user id.
   */
  function ToggleStart(s: AppState, todo: Todo, userId: int): (r: Step<Todo>)
    ensures r.request.id == todo.id && r.request.title == todo.title
    ensures r.request.completed == !todo.completed && r.request.userId == userId
    ensures r.state.isLoading && r.state.pendingIds == [todo.id]
    ensures r.state.error == s.error && r.state.todos == s.todos
    ensures r.state.tempTodo == s.tempTodo && r.state.newTodoTitle == s.newTodoTitle
  {
    Step(s.(isLoading := true, pendingIds := [todo.id]), Todo(todo.id, userId, todo.title, !todo.completed))
  }

  /**
   On success the locally built `flipped` todo replaces one element of the
   current list. The index is that of the returned todo's id in `snapshot`,
   the list as it was when the handler was called, or -1 when it is absent
   there, and it goes through `splice` clamping. On failure the list is kept
   and `Update` is raised. Either way the pending ids are cleared and loading
   stops.
   */
  function ToggleSettle(s: AppState, flipped: Todo, snapshot: seq<Todo>, response: Response<Todo>): (r: AppState)
    ensures r.pendingIds == [] && !r.isLoading
    ensures r.tempTodo == s.tempTodo && r.newTodoTitle == s.newTodoTitle
    ensures response.Resolved? ==> r.error == s.error
    ensures response.Resolved? ==> forall k :: FirstIndexOf(snapshot, response.value.id, k) && k < |s.todos| ==>
      && |r.todos| == |s.todos|
      && r.todos[k] == flipped
      && forall j :: 0 <= j < |s.todos| && j != k ==> r.todos[j] == s.todos[j]
    ensures response.Resolved? ==> forall k :: FirstIndexOf(snapshot, response.value.id, k) && k >= |s.todos| ==>
      r.todos == s.todos + [flipped]
    ensures response.Resolved? && NoItemWithId(snapshot, response.value.id) ==>
      if s.todos == [] then r.todos == [flipped]
      else r.todos == s.todos[..|s.todos| - 1] + [flipped]
    ensures response.Rejected? ==> r.todos == s.todos && r.error == Update
  {
    match response
    case Resolved(patched) =>
      var k := FindIndex(snapshot, patched.id);
      var updated := SpliceReplaceOne(s.todos, k, flipped);
      assert s.todos != [] && k == -1 ==> updated == s.todos[..|s.todos| - 1] + [flipped];
      s.(todos := updated, pendingIds := [], isLoading := false)
    case Rejected =>
      s.(error := Update, pendingIds := [], isLoading := false)
  }

  // ----- bulk clear (clearAllCompletedTodos) -----

  /**
   Raises the loading flag and collects the ids of the completed todos; one
   delete request goes out per id. With nothing completed no request is
   issued, nothing is scheduled to lower the flag, and nothing else changes.
   The error is not cleared.
   */
  function ClearStart(s: AppState): (r: Step<seq<int>>)
    ensures r.request == CompletedIds(s.todos)
    ensures forall i :: 0 <= i < |s.todos| && s.todos[i].completed ==> s.todos[i].id in r.request
    ensures forall id :: id in r.request ==>
      exists i :: 0 <= i < |s.todos| && s.todos[i].completed && s.todos[i].id == id
    ensures r.request == [] ==> r.state == s.(isLoading := true)
    ensures r.request != [] ==> r.state == s.(isLoading := true, pendingIds := r.request)
  {
    var ids := CompletedIds(s.todos);
    if |ids| > 0 then Step(s.(isLoading := true, pendingIds := ids), ids)
    else Step(s.(isLoading := true), ids)
  }

  /** One of the bulk delete requests failed: `Delete` is raised and nothing else changes. */
  function ClearDeleteFailed(s: AppState): (r: AppState)
    ensures r.error == Delete
    ensures r.todos == s.todos && r.pendingIds == s.pendingIds && r.isLoading == s.isLoading
    ensures r.tempTodo == s.tempTodo && r.newTodoTitle == s.newTodoTitle
  {
    s.(error := Delete)
  }

  /**
   The delayed batch update: every item whose id is among the deletes that
   succeeded so far leaves the current list, the others keep their order, the
   pending ids are cleared and loading stops.
   */
  function ClearSettle(s: AppState, successIds: seq<int>): (r: AppState)
    ensures forall t :: t in r.todos <==> t in s.todos && t.id !in successIds
    ensures forall t {:trigger multiset(r.todos)[t]} :: multiset(r.todos)[t] == if t.id in successIds then 0 else multiset(s.todos)[t]
    ensures IsSubseq(r.todos, s.todos)
    ensures r.pendingIds == [] && !r.isLoading
    ensures r.error == s.error && r.tempTodo == s.tempTodo && r.newTodoTitle == s.newTodoTitle
  {
    RemoveIdsIsSubseq(s.todos, successIds);
    RemoveIdsCounts(s.todos, successIds);
    s.(todos := RemoveIds(s.todos, successIds), pendingIds := [], isLoading := false)
  }

  // ----- derived -----

  /** Drives the toggle-all control: every stored todo is completed (true when there are none). */
  function IsAllTodosCompleted(s: AppState): (r: bool)
    ensures r <==> forall t :: t in s.todos ==> t.completed
  {
    AllCompleted(s.todos)
  }
}
