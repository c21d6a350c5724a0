/**
 Operations on the ordered list of todos that the handlers of the `App`
 component perform: removing items by id (the `filter` calls), finding an
 item's index by id (`findIndex`), collecting the ids of completed items, and
 asking whether every item is completed (`every`).
 */
module TodoSeq {
  import opened TodoModel
  import opened JsArray

  /** The items of `xs` whose id is not listed in `ids`, in store order. */
  function RemoveIds(xs: seq<Todo>, ids: seq<int>): (r: seq<Todo>)
    ensures forall t :: t in r <==> t in xs && t.id !in ids
    ensures |r| <= |xs|
  {
    if xs == [] then []
    else if xs[0].id in ids then RemoveIds(xs[1..], ids)
    else [xs[0]] + RemoveIds(xs[1..], ids)
  }

  /** Removing ids keeps the surviving items in their original relative order. */
  lemma {:induction false} RemoveIdsIsSubseq(xs: seq<Todo>, ids: seq<int>)
    ensures IsSubseq(RemoveIds(xs, ids), xs)
  {
    if xs != [] {
      RemoveIdsIsSubseq(xs[1..], ids);
      var tail := RemoveIds(xs[1..], ids);
      if xs[0].id in ids {
        SkipHead(tail, xs);
      } else {
        assert ([xs[0]] + tail)[1..] == tail;
      }
    }
  }

  /** A subsequence of the tail is a subsequence of the whole. */
  lemma {:induction false} SkipHead(a: seq<Todo>, b: seq<Todo>)
    requires b != [] && IsSubseq(a, b[1..])
    ensures IsSubseq(a, b)
    decreases |b|, 1
  {
    if a != [] && a[0] == b[0] {
      // The greedy match consumes b[0] here; it still finds the rest in b[1..].
      SubseqDropHead(a, b[1..]);
    }
  }

  /** Dropping the first element of a subsequence keeps it a subsequence. */
  lemma {:induction false} SubseqDropHead(a: seq<Todo>, b: seq<Todo>)
    requires a != [] && IsSubseq(a, b)
    ensures IsSubseq(a[1..], b)
    decreases |b| + 1, 0
  {
    if a[0] == b[0] {
      if a[1..] != [] {
        SkipHead(a[1..], b);
      }
    } else {
      SubseqDropHead(a, b[1..]);
      SkipHead(a[1..], b);
    }
  }

  /**
   Removing ids drops every copy of a matching item and keeps every copy of
   any other item: the filter never merges or duplicates equal items.
   */
  lemma {:induction false} RemoveIdsCounts(xs: seq<Todo>, ids: seq<int>)
    ensures forall t {:trigger multiset(RemoveIds(xs, ids))[t]} :: multiset(RemoveIds(xs, ids))[t] == if t.id in ids then 0 else multiset(xs)[t]
  {
    if xs != [] {
      RemoveIdsCounts(xs[1..], ids);
      assert xs == [xs[0]] + xs[1..];
      assert multiset(xs) == multiset([xs[0]]) + multiset(xs[1..]);
      if xs[0].id !in ids {
        assert multiset(RemoveIds(xs, ids)) == multiset([xs[0]]) + multiset(RemoveIds(xs[1..], ids));
      }
    }
  }

  /**
   No order-preserving selection of items that avoids `ids` is longer than
   `RemoveIds(xs, ids)`.
   */
  lemma {:induction false} AvoidingSubseqBound(r: seq<Todo>, xs: seq<Todo>, ids: seq<int>)
    requires IsSubseq(r, xs)
    requires forall t :: t in r ==> t.id !in ids
    ensures |r| <= |RemoveIds(xs, ids)|
    decreases |xs|
  {
    if r != [] {
      if r[0] == xs[0] {
        assert r[0] in r;
        AvoidingSubseqBound(r[1..], xs[1..], ids);
      } else {
        AvoidingSubseqBound(r, xs[1..], ids);
      }
    }
  }

  /**
   `RemoveIds(xs, ids)` is the unique longest order-preserving selection of
   items of `xs` none of which has an id in `ids`: removing by id drops exactly
   the matching items and keeps every other one, in order.
   */
  lemma {:induction false} RemoveIdsIsLongest(r: seq<Todo>, xs: seq<Todo>, ids: seq<int>)
    requires IsSubseq(r, xs)
    requires forall t :: t in r ==> t.id !in ids
    requires |r| >= |RemoveIds(xs, ids)|
    ensures r == RemoveIds(xs, ids)
    decreases |xs|
  {
    if xs == [] {
    } else if r == [] {
      assert RemoveIds(xs, ids) == [];
    } else if r[0] == xs[0] {
      assert r[0] in r;
      assert RemoveIds(xs, ids) == [xs[0]] + RemoveIds(xs[1..], ids);
      RemoveIdsIsLongest(r[1..], xs[1..], ids);
    } else if xs[0].id in ids {
      RemoveIdsIsLongest(r, xs[1..], ids);
    } else {
      AvoidingSubseqBound(r, xs[1..], ids);
      assert false;
    }
  }

  /** When no item's id is listed, removing the ids leaves the list as it is. */
  lemma {:induction false} RemoveIdsNoMatch(xs: seq<Todo>, ids: seq<int>)
    requires forall t :: t in xs ==> t.id !in ids
    ensures RemoveIds(xs, ids) == xs
  {
    if xs != [] {
      assert xs[0] in xs;
      assert forall t :: t in xs[1..] ==> t in xs;
      RemoveIdsNoMatch(xs[1..], ids);
    }
  }

  /** `k` is the first index of `xs` holding an item with `id`. */
  predicate FirstIndexOf(xs: seq<Todo>, id: int, k: int)
  {
    0 <= k < |xs| && xs[k].id == id && forall i :: 0 <= i < k ==> xs[i].id != id
  }

  /** No item of `xs` has `id`. */
  predicate NoItemWithId(xs: seq<Todo>, id: int)
  {
    forall i :: 0 <= i < |xs| ==> xs[i].id != id
  }

  /** `xs.findIndex(t => t.id === id)`: the first index holding `id`, or -1. */
  function FindIndex(xs: seq<Todo>, id: int): (r: int)
    ensures r == -1 <==> NoItemWithId(xs, id)
    ensures r != -1 ==> FirstIndexOf(xs, id, r)
  {
    if xs == [] then -1
    else if xs[0].id == id then 0
    else
      var k := FindIndex(xs[1..], id);
      if k == -1 then -1 else k + 1
  }

  /** The ids of the completed items of `xs`, in store order. */
  function CompletedIds(xs: seq<Todo>): (r: seq<int>)
    ensures |r| <= |xs|
    ensures forall i :: 0 <= i < |xs| && xs[i].completed ==> xs[i].id in r
    ensures forall id :: id in r ==> exists i :: 0 <= i < |xs| && xs[i].completed && xs[i].id == id
  {
    if xs == [] then []
    else
      var rest := CompletedIds(xs[1..]);
      assert forall i :: 1 <= i < |xs| ==> xs[i] == xs[1..][i - 1];
      if xs[0].completed then [xs[0].id] + rest else rest
  }

  /**
   Collecting completed ids distributes over concatenation and contributes
   one id per completed item, so the ids come out in store order.
   */
  lemma {:induction false} CompletedIdsAppend(a: seq<Todo>, b: seq<Todo>)
    ensures CompletedIds(a + b) == CompletedIds(a) + CompletedIds(b)
  {
    if a != [] {
      assert (a + b)[0] == a[0];
      assert (a + b)[1..] == a[1..] + b;
      CompletedIdsAppend(a[1..], b);
      if a[0].completed {
        assert [a[0].id] + CompletedIds(a[1..]) + CompletedIds(b)
            == [a[0].id] + (CompletedIds(a[1..]) + CompletedIds(b));
      }
    } else {
      assert a + b == b;
    }
  }

  /** A list without completed items yields no ids to delete. */
  lemma {:induction false} NoCompletedNoIds(xs: seq<Todo>)
    requires forall t :: t in xs ==> !t.completed
    ensures CompletedIds(xs) == []
  {
    if xs != [] {
      assert xs[0] in xs;
      assert forall t :: t in xs[1..] ==> t in xs;
      NoCompletedNoIds(xs[1..]);
    }
  }

  /** The loop of the clear-completed handler that pushes the id of every completed item. */
  method CollectCompletedIds(todos: seq<Todo>) returns (ids: seq<int>)
    ensures ids == CompletedIds(todos)
  {
    ids := [];
    var n := 0;
    while n < |todos|
      invariant n <= |todos|
      invariant ids == CompletedIds(todos[..n])
    {
      var todo := todos[n];
      CompletedIdsAppend(todos[..n], [todo]);
      assert todos[..n + 1] == todos[..n] + [todo];
      if todo.completed {
        ids := ids + [todo.id];
      }
      n := n + 1;
    }
    assert todos[..n] == todos;
  }

  /** `xs.every(t => t.completed)`; true of the empty list. */
  function AllCompleted(xs: seq<Todo>): (r: bool)
    ensures r <==> forall i :: 0 <= i < |xs| ==> xs[i].completed
  {
    if xs == [] then true
    else xs[0].completed && AllCompleted(xs[1..])
  }

  /** Every item is completed exactly when clear-completed would collect one id per item. */
  lemma {:induction false} AllCompletedIffAllCollected(xs: seq<Todo>)
    ensures AllCompleted(xs) <==> |CompletedIds(xs)| == |xs|
  {
    if xs != [] {
      AllCompletedIffAllCollected(xs[1..]);
    }
  }

  /** No two items share an id. */
  predicate UniqueIds(xs: seq<Todo>)
  {
    forall i, j :: 0 <= i < j < |xs| ==> xs[i].id != xs[j].id
  }

  /** Removing items by id keeps ids unique. */
  lemma {:induction false} RemoveIdsKeepsUnique(xs: seq<Todo>, ids: seq<int>)
    requires UniqueIds(xs)
    ensures UniqueIds(RemoveIds(xs, ids))
  {
    if xs != [] {
      RemoveIdsKeepsUnique(xs[1..], ids);
      var tail := RemoveIds(xs[1..], ids);
      if xs[0].id !in ids {
        forall t | t in tail ensures t.id != xs[0].id {
          var k :| 1 <= k < |xs| && xs[k] == t;
        }
        var r := [xs[0]] + tail;
        forall i, j | 0 <= i < j < |r| ensures r[i].id != r[j].id {
          if i == 0 { assert r[j] in tail; } else { assert r[i] == tail[i - 1] && r[j] == tail[j - 1]; }
        }
      }
    }
  }

  /** Replacing one element by an item with the same id keeps ids unique. */
  lemma ReplaceSameIdKeepsUnique(xs: seq<Todo>, k: int, item: Todo)
    requires UniqueIds(xs)
    requires 0 <= k < |xs| && xs[k].id == item.id
    ensures UniqueIds(SpliceReplaceOne(xs, k, item))
  {
    var r := SpliceReplaceOne(xs, k, item);
    forall i, j | 0 <= i < j < |r| ensures r[i].id != r[j].id {
      assert r[i].id == xs[i].id && r[j].id == xs[j].id;
    }
  }
}
