/**
 Properties of whole handler runs: a start step followed by its settle step,
 including the behaviour the handlers show when the list changes while a
 request is in flight.
 */
module AppProperties {
  import opened TodoModel
  import opened JsString
  import opened JsArray
  import opened TodoSeq
  import opened App

  // ----- load -----

  /**
   A load run replaces the list with the fetched one, or leaves it as it was
   and raises `Load`; loading stops either way. On mount this leaves the
   list empty when the fetch fails.
   */
  lemma LoadRun(s: AppState, response: Response<seq<Todo>>)
    ensures var r := LoadSettle(LoadStart(s), response);
      && !r.isLoading
      && (response.Resolved? ==> r.todos == response.value && r.error == NoError)
      && (response.Rejected? ==> r.todos == s.todos && r.error == Load)
    ensures response.Rejected? ==> LoadSettle(LoadStart(Initial), response).todos == []
  {
  }

  // ----- create -----

  /** An empty input issues no request, raises `EmptyTitle` and changes nothing else. */
  lemma SubmitEmptyTitle(s: AppState, userId: int)
    requires s.newTodoTitle == ""
    ensures SubmitStart(s, userId).request == None
    ensures SubmitStart(s, userId).state == s.(error := EmptyTitle)
  {
  }

  /**
   An input of white space only passes the emptiness check, because it tests
   the untrimmed text: a request is issued with the empty title.
   */
  lemma {:induction false} SubmitWhiteSpaceOnly(s: AppState, userId: int)
    requires s.newTodoTitle != "" && AllWhiteSpace(s.newTodoTitle)
    ensures SubmitStart(s, userId).request == Some(NewTodo(userId, "", false))
    ensures SubmitStart(s, userId).state.tempTodo == Some(Todo(0, userId, "", false))
  {
    assert Trim(s.newTodoTitle) == [];
  }

  /** The same for a concrete input of three spaces. */
  lemma SubmitThreeSpaces(s: AppState, userId: int)
    requires s.newTodoTitle == "   "
    ensures SubmitStart(s, userId).request == Some(NewTodo(userId, "", false))
  {
    SubmitWhiteSpaceOnly(s, userId);
  }

  /**
   A successful create run appends the todo the service returned at the end
   of the list, clears the input, removes the placeholder and stops loading.
   The request carried the trimmed title.
   */
  lemma SubmitRunSucceeds(s: AppState, userId: int, created: Todo)
    requires s.newTodoTitle != ""
    ensures var st := SubmitStart(s, userId);
      && st.request == Some(NewTodo(userId, Trim(s.newTodoTitle), false))
      && SubmitSettle(st.state, Resolved(created))
         == s.(todos := s.todos + [created], newTodoTitle := "", tempTodo := None,
               isLoading := false, error := NoError)
  {
    var st := SubmitStart(s, userId);
    var r := SubmitSettle(st.state, Resolved(created));
    assert r.todos == r.todos[..|s.todos|] + [r.todos[|s.todos|]];
  }

  /** A failed create run keeps the list and the input, raises `Add`, and removes the placeholder. */
  lemma SubmitRunFails(s: AppState, userId: int)
    requires s.newTodoTitle != ""
    ensures SubmitSettle(SubmitStart(s, userId).state, Rejected)
         == s.(error := Add, tempTodo := None, isLoading := false)
  {
  }

  // ----- delete -----

  /**
   A successful delete run leaves no item with the id, keeps every other item
   in its order, and ends with no pending ids, loading stopped and no error.
   */
  lemma DeleteRunSucceeds(s: AppState, targetId: int)
    ensures var r := DeleteSettle(DeleteStart(s, targetId), targetId, s.todos, Resolved(()));
      && (forall t :: t in r.todos ==> t.id != targetId)
      && r.todos == RemoveIds(s.todos, [targetId])
      && r.pendingIds == [] && !r.isLoading && r.error == NoError
  {
  }

  /**
   Restoring the call-time list on failure brings back an item that another
   handler deleted while the request was in flight.
   */
  lemma DeleteFailureResurrects()
    ensures var a := Todo(1, 7, "a", false);
            var b := Todo(2, 7, "b", false);
            var s := AppState([a, b], None, [], NoError, false, "");
            var started := DeleteStart(s, 1);
            var meanwhile := DeleteSettle(DeleteStart(started, 2), 2, [a, b], Resolved(()));
            && meanwhile.todos == [a]
            && DeleteSettle(meanwhile, 1, s.todos, Rejected).todos == [a, b]
  {
    var a := Todo(1, 7, "a", false);
    var b := Todo(2, 7, "b", false);
    assert RemoveIds([a, b], [2]) == [a] + RemoveIds([b], [2]);
  }

  // ----- toggle -----

  /**
   A toggle run whose list did not change in flight, on a list with unique
   ids, replaces the toggled todo in place by the copy with `completed`
   negated and the session's user id, and leaves every other item and the
   length as they were.
   */
  lemma ToggleRunSucceeds(s: AppState, todo: Todo, userId: int, patched: Todo, k: int)
    requires UniqueIds(s.todos)
    requires 0 <= k < |s.todos| && s.todos[k] == todo
    requires patched.id == todo.id
    ensures var st := ToggleStart(s, todo, userId);
            var r := ToggleSettle(st.state, st.request, s.todos, Resolved(patched));
      && |r.todos| == |s.todos|
      && r.todos[k] == Todo(todo.id, userId, todo.title, !todo.completed)
      && (forall j :: 0 <= j < |s.todos| && j != k ==> r.todos[j] == s.todos[j])
      && UniqueIds(r.todos)
      && r.pendingIds == [] && !r.isLoading && r.error == s.error
  {
    var st := ToggleStart(s, todo, userId);
    assert FirstIndexOf(s.todos, patched.id, k);
    ReplaceSameIdKeepsUnique(s.todos, k, st.request);
  }

  /**
   When the returned id is not in the call-time list, `findIndex` gives -1 and
   `splice(-1, 1, …)` overwrites the last item of the current list, or fills
   an empty one.
   */
  lemma ToggleMissingId(s: AppState, flipped: Todo, snapshot: seq<Todo>, patched: Todo)
    requires NoItemWithId(snapshot, patched.id)
    ensures var r := ToggleSettle(s, flipped, snapshot, Resolved(patched));
      && (s.todos == [] ==> r.todos == [flipped])
      && (s.todos != [] ==> |r.todos| == |s.todos| && r.todos[|s.todos| - 1] == flipped
                            && r.todos[..|s.todos| - 1] == s.todos[..|s.todos| - 1])
  {
  }

  /**
   The index comes from the call-time list. Here the list was `[a, b]`, `a`
   was deleted while the request for `b` was in flight, and the index 1 now
   points just past the end of `[b]`: the toggled copy is appended next to the
   original, duplicating its id.
   */
  lemma ToggleStaleIndexDuplicates()
    ensures var a := Todo(1, 7, "a", false);
            var b := Todo(2, 7, "b", false);
            var b' := Todo(2, 7, "b", true);
            var current := AppState([b], None, [2], NoError, true, "");
            var r := ToggleSettle(current, b', [a, b], Resolved(b'));
            && r.todos == [b, b']
            && !UniqueIds(r.todos)
  {
    var a := Todo(1, 7, "a", false);
    var b := Todo(2, 7, "b", false);
    var b' := Todo(2, 7, "b", true);
    assert FirstIndexOf([a, b], 2, 1);
    var r := ToggleSettle(AppState([b], None, [2], NoError, true, ""), b', [a, b], Resolved(b'));
    assert r.todos[0].id == r.todos[1].id;
  }

  /**
   When the toggled item is not the last of the call-time list, the stale
   index lands on another item instead. Here the list was `[a, b, c]`, `a` was
   deleted while the request for `b` was in flight, and the index 1 now holds
   `c`: the toggled copy overwrites `c`, which is lost, and `b` stays beside it.
   */
  lemma ToggleStaleIndexOverwrites()
    ensures var a := Todo(1, 7, "a", false);
            var b := Todo(2, 7, "b", false);
            var c := Todo(3, 7, "c", false);
            var b' := Todo(2, 7, "b", true);
            var current := AppState([b, c], None, [2], NoError, true, "");
            var r := ToggleSettle(current, b', [a, b, c], Resolved(b'));
            && r.todos == [b, b']
            && c in current.todos && c !in r.todos
            && !UniqueIds(r.todos)
  {
    var a := Todo(1, 7, "a", false);
    var b := Todo(2, 7, "b", false);
    var c := Todo(3, 7, "c", false);
    var b' := Todo(2, 7, "b", true);
    assert FirstIndexOf([a, b, c], 2, 1);
    var r := ToggleSettle(AppState([b, c], None, [2], NoError, true, ""), b', [a, b, c], Resolved(b'));
    assert r.todos == [b, b'];
    assert r.todos[0].id == r.todos[1].id;
  }

  // ----- bulk clear -----

  /**
   With no completed todo, clear-completed issues no request and leaves the
   list and the pending ids alone, but the loading flag it raised stays up.
   */
  lemma ClearNothingCompleted(s: AppState)
    requires forall t :: t in s.todos ==> !t.completed
    ensures ClearStart(s).request == []
    ensures ClearStart(s).state == s.(isLoading := true)
  {
    NoCompletedNoIds(s.todos);
  }

  /**
   When some todo is completed, so that the batch update is scheduled, every
   bulk delete succeeded, the list did not change meanwhile and ids are
   unique, the batch update leaves exactly the active todos, in their order;
   the toggle-all control then reads true only for an empty list.
   */
  lemma ClearRunAllSucceed(s: AppState)
    requires ClearStart(s).request != []
    requires UniqueIds(s.todos)
    ensures var st := ClearStart(s);
            var r := ClearSettle(st.state, st.request);
      && (forall t :: t in r.todos <==> t in s.todos && !t.completed)
      && IsSubseq(r.todos, s.todos)
      && (IsAllTodosCompleted(r) <==> r.todos == [])
      && r.pendingIds == [] && !r.isLoading
  {
    var st := ClearStart(s);
    var r := ClearSettle(st.state, st.request);
    forall t | t in s.todos ensures t.id in st.request <==> t.completed {
      var i :| 0 <= i < |s.todos| && s.todos[i] == t;
      if t.id in st.request {
        var j :| 0 <= j < |s.todos| && s.todos[j].completed && s.todos[j].id == t.id;
        assert i == j;
      }
    }
    if r.todos != [] {
      assert r.todos[0] in r.todos;
    }
  }

  /**
   When some todo is completed, so that the batch update is scheduled, at
   least one bulk delete failed and none succeeded before the batch update,
   the list is left exactly as it was, while the pending ids are cleared and
   loading stops; the failure has raised `Delete` meanwhile.
   */
  lemma ClearRunNoneSucceed(s: AppState)
    requires ClearStart(s).request != []
    ensures var st := ClearStart(s);
            var failed := ClearDeleteFailed(st.state);
            var r := ClearSettle(failed, []);
      && r.todos == s.todos && r.error == Delete
      && r.pendingIds == [] && !r.isLoading
  {
    RemoveIdsNoMatch(s.todos, []);
  }

  /**
   The worked example: clearing `[1 done, 2 active, 3 done]` when the deletes
   of 1 and 3 succeeded leaves `[2 active]`.
   */
  lemma ClearExample()
    ensures var t1 := Todo(1, 7, "one", true);
            var t2 := Todo(2, 7, "two", false);
            var t3 := Todo(3, 7, "three", true);
            var s := AppState([t1, t2, t3], None, [], NoError, false, "");
            var st := ClearStart(s);
            && st.request == [1, 3]
            && ClearSettle(st.state, [1, 3]).todos == [t2]
  {
    var t1 := Todo(1, 7, "one", true);
    var t2 := Todo(2, 7, "two", false);
    var t3 := Todo(3, 7, "three", true);
    assert CompletedIds([t1, t2, t3]) == [1] + CompletedIds([t2, t3]);
    assert CompletedIds([t2, t3]) == CompletedIds([t3]);
    assert RemoveIds([t1, t2, t3], [1, 3]) == RemoveIds([t2, t3], [1, 3]);
    assert RemoveIds([t2, t3], [1, 3]) == [t2] + RemoveIds([t3], [1, 3]);
  }

  // ----- the unique-id invariant -----

  /**
   A delete settle only removes items or puts back the call-time list, so it
   keeps the ids in the store unique.
   */
  lemma DeleteSettleKeepsUniqueIds(s: AppState, targetId: int, snapshot: seq<Todo>, response: Response<()>)
    requires UniqueIds(s.todos) && UniqueIds(snapshot)
    ensures UniqueIds(DeleteSettle(s, targetId, snapshot, response).todos)
  {
    RemoveIdsKeepsUnique(s.todos, [targetId]);
  }

  /** The batch update only removes items, so it keeps the ids in the store unique. */
  lemma ClearSettleKeepsUniqueIds(s: AppState, successIds: seq<int>)
    requires UniqueIds(s.todos)
    ensures UniqueIds(ClearSettle(s, successIds).todos)
  {
    RemoveIdsKeepsUnique(s.todos, successIds);
  }
}
