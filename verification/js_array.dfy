/**
 The pieces of ECMAScript's `Array.prototype` the handlers rely on that are not
 specific to todos: `splice` replacing one element, with its clamping of the
 start position, and the order-preserving subsequence relation that `filter`
 results stand in.
 */
module JsArray {

  /**
   The position `splice(start, …)` actually starts at on an array of length
   `len`: a negative start counts back from the end, and the result is clamped
   to `[0, len]`.
   */
  function SpliceStart(start: int, len: nat): (k: nat)
    ensures k <= len
    ensures 0 <= start <= len ==> k == start
    ensures start > len ==> k == len
    ensures start < 0 && len + start >= 0 ==> k == len + start
    ensures len + start < 0 ==> k == 0
  {
    if start < 0 then (if len + start < 0 then 0 else len + start)
    else if start < len then start
    else len
  }

  /**
   The array `xs.splice(start, 1, item)` leaves behind: the element at the
   clamped start is replaced by `item`, or `item` is appended when the clamped
   start is the end of the array (where there is nothing to delete).
   */
  function SpliceReplaceOne<T>(xs: seq<T>, start: int, item: T): (r: seq<T>)
    ensures SpliceStart(start, |xs|) < |xs| ==>
      && |r| == |xs|
      && r[SpliceStart(start, |xs|)] == item
      && forall j :: 0 <= j < |xs| && j != SpliceStart(start, |xs|) ==> r[j] == xs[j]
    ensures SpliceStart(start, |xs|) == |xs| ==> r == xs + [item]
  {
    var k := SpliceStart(start, |xs|);
    var deleteCount := if |xs| - k < 1 then |xs| - k else 1;
    xs[..k] + [item] + xs[k + deleteCount..]
  }

  /** `a` is `b` with some elements left out, the rest in their original order. */
  predicate IsSubseq<T(==)>(a: seq<T>, b: seq<T>)
    decreases |b|
  {
    if a == [] then true
    else if b == [] then false
    else if a[0] == b[0] then IsSubseq(a[1..], b[1..])
    else IsSubseq(a, b[1..])
  }
}
