# Todo client state machine

This project is a Dafny model of the state-transition logic of the `App`
component of a single-user todo client (React, TypeScript). The component
keeps a list of todos fetched from a remote service. It shows a placeholder
while a create request is in flight and marks the ids under a mutating
request as pending. It also holds one error classification and a loading flag.

The model treats the component's state as an immutable record (`AppState`:
`todos`, `tempTodo`, `pendingIds`, `error`, `isLoading`, `newTodoTitle`). Each
handler is split into two pure transitions:

- a **start** step: the synchronous state updates made before the remote
  request goes out, which also returns the request issued;
- a **settle** step: the updates made when the request's promise resolves or
  rejects. The outcome (`Response<T>` = `Resolved(value)` | `Rejected`) is a
  parameter. Where the callback reads the `todos` the handler closed over,
  rather than the current state, the call-time snapshot is a parameter too.

Modules:

- `TodoModel` (todo_model.dfy): `Todo`, the create-request body `NewTodo`,
  `ErrorMessage`, `Response`, `AppState`, and `Step` (a start step's state
  plus its request).
- `JsString` (js_string.dfy): ECMAScript `String.prototype.trim`, with its
  WhiteSpace and LineTerminator character sets.
- `JsArray` (js_array.dfy): `Array.prototype.splice(start, 1, item)` with its
  start clamping, and the order-preserving subsequence relation.
- `TodoSeq` (todo_seq.dfy): filter-by-ids, `findIndex` by id, the ids of
  completed items, `every(completed)`, and the unique-id invariant.
- `App` (app.dfy): the start and settle transitions of load, create, delete,
  toggle and bulk clear, and the derived `IsAllTodosCompleted`.
- `AppProperties` (app_properties.dfy): lemmas about whole handler runs,
  including what happens when the list changes while a request is in flight.

Behaviour of `src/App.tsx` that a reader might not expect, kept as written:

- The empty-title check tests the untrimmed input. So `"   "` is sent, with
  title `""`, instead of raising `EmptyTitle`.
- A failed delete puts back the list captured when the handler was called.
  This can bring back an item that was deleted meanwhile
  (`DeleteFailureResurrects`).
- A successful toggle splices at the index the returned id had in the
  call-time list, not at the item's current position. An id missing from
  that list gives index -1, which overwrites the last item, or fills an empty
  list. When an earlier item was deleted meanwhile, the stale index points one
  place too far. If the toggled item was last, its flipped copy is appended
  and its id is duplicated (`ToggleStaleIndexDuplicates`). Otherwise the copy
  overwrites the item that followed it, which is lost, and the id is again
  duplicated (`ToggleStaleIndexOverwrites`).
- Clear-completed with nothing completed raises the loading flag, and nothing
  in this handler is scheduled to lower it. It stays raised until some other
  handler settles.
- Toggle and clear-completed do not clear the previous error first. Load,
  create and delete do.
- The toggle request carries the session's user id, not the todo's own.

## Model

| member | source | states |
|---|---|---|
| App.LoadStart | src/App.tsx:69-72 | load clears the error and raises the loading flag; nothing else changes |
| App.LoadSettle | src/App.tsx:73-76 | a fetched list replaces the store wholesale, a failed fetch keeps it and raises `Load`; loading stops either way |
| AppProperties.LoadRun | src/App.tsx:69-77 | a whole load run ends not loading, with the fetched list and no error, or with `Load`; on mount a failed load leaves the store empty |
| App.SubmitStart | src/App.tsx:100-131 | a request is issued exactly when the untrimmed input is non-empty; it carries the trimmed title, not completed, and the session user id; the placeholder (id 0, same title) is shown; an empty input only raises `EmptyTitle` |
| App.SubmitSettle | src/App.tsx:119-128 | success appends the returned todo at the end, keeps the rest as a prefix and clears the input; failure keeps the list and raises `Add`; the placeholder goes and loading stops either way |
| AppProperties.SubmitEmptyTitle | src/App.tsx:110-131 | an empty input issues no request, raises `EmptyTitle` and changes nothing else |
| AppProperties.SubmitWhiteSpaceOnly | src/App.tsx:104-117 | an input of white space only passes the check and sends the title `""` |
| AppProperties.SubmitThreeSpaces | src/App.tsx:104-117 | the input `"   "` sends a create request with the title `""` |
| AppProperties.SubmitRunSucceeds | src/App.tsx:100-128 | a successful create run sends the trimmed title and ends with the list plus the returned todo, an empty input, no placeholder, not loading, no error |
| AppProperties.SubmitRunFails | src/App.tsx:119-128 | a failed create run keeps list and input, raises `Add`, removes the placeholder and stops loading |
| App.DeleteStart | src/App.tsx:79-82 | delete clears the error, raises the loading flag and marks exactly the target id pending |
| App.DeleteSettle | src/App.tsx:84-97 | success keeps every copy of each item of the current list whose id differs from the target and no copy of the others, in their original order; failure puts back the call-time list and raises `Delete`; pending ids are cleared and loading stops either way |
| AppProperties.DeleteRunSucceeds | src/App.tsx:79-97 | after a successful delete run no item has the target id, the others are kept in order, nothing is pending, loading stopped, no error |
| AppProperties.DeleteFailureResurrects | src/App.tsx:90-93 | an item deleted by another request while a delete was in flight comes back when that delete fails |
| App.ToggleStart | src/App.tsx:143-152 | toggle raises the loading flag, marks the todo's id pending, keeps the error, and sends a copy with the same id and title, `completed` negated and the session user id |
| App.ToggleSettle | src/App.tsx:154-171 | success replaces the element of the current list at the first index of the returned id in the call-time list (length kept, others unchanged); an index past the end appends; an absent id overwrites the last item or fills an empty list; failure keeps the list and raises `Update`; pending cleared and loading stopped either way |
| AppProperties.ToggleRunSucceeds | src/App.tsx:143-171 | when the list did not change in flight, the toggled todo is replaced in place by its flipped copy, every other item and the length are kept, and ids stay unique |
| AppProperties.ToggleMissingId | src/App.tsx:155-165 | a returned id absent from the call-time list makes the splice overwrite the last item, or fill an empty list |
| AppProperties.ToggleStaleIndexDuplicates | src/App.tsx:156-164 | when the first of two items is deleted while the toggle of the second is in flight, the flipped copy is appended beside the original and the id is duplicated |
| AppProperties.ToggleStaleIndexOverwrites | src/App.tsx:156-164 | when the first of three items is deleted while the toggle of the second is in flight, the flipped copy overwrites the third item, which is lost, and the id is duplicated |
| App.ClearStart | src/App.tsx:35-48 | clear-completed requests the deletion of exactly the ids of completed todos, in store order, and marks them pending; with none it issues nothing and changes nothing but the raised loading flag |
| App.ClearDeleteFailed | src/App.tsx:54-56 | a failing bulk delete raises `Delete` and changes nothing else |
| App.ClearSettle | src/App.tsx:59-65 | the batch update keeps every copy of each item whose id is not among the succeeded ids and no copy of the others, in their original order, clears the pending ids and stops loading, keeping the error |
| AppProperties.ClearNothingCompleted | src/App.tsx:35-47 | with nothing completed no delete is requested, list and pending ids are unchanged, and the loading flag stays raised |
| AppProperties.ClearRunAllSucceed | src/App.tsx:35-65 | when some todo is completed (so the batch update is scheduled), with unique ids and every delete successful, exactly the active todos remain, in order, and toggle-all reads true only for the empty list |
| AppProperties.ClearRunNoneSucceed | src/App.tsx:35-65 | when some todo is completed (so the batch update is scheduled), at least one bulk delete failed and none succeeded before the batch update, the list is unchanged, `Delete` is raised, nothing is pending and loading stops |
| AppProperties.ClearExample | src/App.tsx:35-65 | clearing `[1 done, 2 active, 3 done]` with deletes of 1 and 3 succeeding requests `[1, 3]` and leaves `[2 active]` |
| AppProperties.DeleteSettleKeepsUniqueIds | src/App.tsx:84-97 | either outcome of a delete settle keeps the store's ids unique, given unique ids in the current and call-time lists |
| AppProperties.ClearSettleKeepsUniqueIds | src/App.tsx:59-65 | the batch-clear settle keeps the store's ids unique |
| App.IsAllTodosCompleted | src/App.tsx:136 | toggle-all reads true exactly when every stored todo is completed, so also for an empty list |
| TodoSeq.AllCompleted | src/App.tsx:136 | `every(completed)` holds exactly when each element is completed |
| TodoSeq.AllCompletedIffAllCollected | src/App.tsx:36-47 | every todo is completed exactly when clear-completed collects one id per todo |
| TodoSeq.CompletedIds | src/App.tsx:40-44 | the collected ids are exactly the ids of completed todos |
| TodoSeq.CompletedIdsAppend | src/App.tsx:40-44 | collecting distributes over concatenation, so ids come out in store order |
| TodoSeq.NoCompletedNoIds | src/App.tsx:40-46 | with no completed todo nothing is collected |
| TodoSeq.CollectCompletedIds | src/App.tsx:37-44 | the `for…of` loop pushes exactly the ids of completed todos, one per completed todo, in store order |
| TodoSeq.RemoveIds | src/App.tsx:60-62 | the filtered list holds exactly the items whose id is not listed |
| TodoSeq.RemoveIdsCounts | src/App.tsx:60-62 | filtering drops every copy of an item with a listed id and keeps every copy of the others |
| TodoSeq.RemoveIdsIsSubseq | src/App.tsx:60-62 | filtering keeps survivors in their original relative order |
| TodoSeq.RemoveIdsIsLongest | src/App.tsx:60-62 | the filtered list is the unique longest order-preserving selection avoiding the listed ids |
| TodoSeq.RemoveIdsNoMatch | src/App.tsx:60-62 | filtering by ids no item has returns the list unchanged |
| TodoSeq.RemoveIdsKeepsUnique | src/App.tsx:86-88 | filtering keeps ids unique |
| TodoSeq.FindIndex | src/App.tsx:158-160 | `findIndex` gives the first index holding the id, or -1 exactly when no item has it |
| TodoSeq.ReplaceSameIdKeepsUnique | src/App.tsx:162 | replacing an element by an item with the same id keeps ids unique |
| JsArray.SpliceStart | src/App.tsx:162 | the splice start is clamped into `[0, len]`, a negative start counting back from the end |
| JsArray.SpliceReplaceOne | src/App.tsx:162 | `splice(start, 1, item)` replaces the element at the clamped start, or appends when that is the end |
| JsString.Trim | src/App.tsx:106 | the trimmed title is empty exactly when the input is all white space, and otherwise starts and ends with a non-space |
| JsString.TrimIsInfix | src/App.tsx:106 | the trimmed title is a contiguous slice of the input with only white space cut off either side |

## Left out

- Rendering: the JSX, `TodoList`, `Header`, `Footer`, `ErrorNotification` and `UserWarning`. They are presentational. The `!USER_ID` early return only picks what is rendered.
- Filtering (`filteringTodos`, `FilterTypes`): their module is not part of this model. `ErrorMessage` is modelled as a plain enumeration because its definition lives there too.
- The remote calls `getTodos`, `addTodo`, `deleteTodo` and `updateTodoStatus`: their module is not part of this model. Each one appears only as the `Response` passed to a settle step. `USER_ID` comes from the same module and is a `userId` parameter.
- Timing and interleaving: the 300 ms timer of clear-completed and promise ordering. `ClearSettle` takes whatever set of succeeded ids exists when the timer fires, and a delete settling after the timer is not modelled. Each settle step is one atomic transition.
- React lifecycle: `useMemo` and `useEffect` running the load once on mount. `LoadRun` starts from `Initial` for that case.
- The setters handed to child components (`setNewTodoTitle` for typing, `setErrorMessage` for dismissing the banner) and `setFilterType`: each is a plain field assignment.
- Numbers: ids are JavaScript numbers and are modelled as unbounded integers. Strings are sequences of Unicode scalar values, not UTF-16 code units.
