/**
 The small part of the JavaScript runtime that the dashboard handlers rely on:
 `null`/`undefined` as an option, the browser's `File`, and the array built-ins
 `slice`, `splice(i, 1)`, `filter((x, i) => i !== index)` and element
 assignment past the end of an array (which leaves holes).
 */
module Js {

  /** `null` or `undefined` (None) versus a present value (Some). */
  datatype Option<+T> = None | Some(value: T)

  /** A browser `File`; the handlers only ever look at its name. */
  datatype File = File(name: string)

  function Min(a: int, b: int): int { if a <= b then a else b }

  function Max(a: int, b: int): int { if a <= b then b else a }

  /** Resolves an index argument of `slice` or `splice` against an array of
      length `n`: a negative argument counts back from the end, and the
      result is clamped into [0, n]. */
  function RelativeIndex(i: int, n: nat): (k: nat)
    ensures k <= n
    ensures 0 <= i ==> k == Min(i, n)
    ensures i < 0 ==> k == Max(n + i, 0)
  {
    if i < 0 then (if n + i < 0 then 0 else n + i)
    else if i < n then i
    else n
  }

  /** `xs.slice(start, end)`: a fresh array holding the elements from the
      resolved start up to (not including) the resolved end. */
  function Slice<T>(xs: seq<T>, start: int, end: int): (r: seq<T>)
    ensures |r| == Max(RelativeIndex(end, |xs|) - RelativeIndex(start, |xs|), 0)
    ensures forall j :: 0 <= j < |r| ==> RelativeIndex(start, |xs|) + j < |xs| && r[j] == xs[RelativeIndex(start, |xs|) + j]
  {
    var from := RelativeIndex(start, |xs|);
    var to := RelativeIndex(end, |xs|);
    if from < to then xs[from..to] else []
  }

  /** The sequence without its element at position `k`, the rest in order. */
  function RemoveAt<T>(xs: seq<T>, k: int): (r: seq<T>)
    requires 0 <= k < |xs|
    ensures |r| == |xs| - 1
    ensures forall j :: 0 <= j < k ==> r[j] == xs[j]
    ensures forall j :: k <= j < |r| ==> r[j] == xs[j + 1]
    ensures multiset(r) + multiset{xs[k]} == multiset(xs)
  {
    assert xs == xs[..k] + [xs[k]] + xs[k + 1..];
    xs[..k] + xs[k + 1..]
  }

  /** `xs.splice(i, 1)` applied to a copy: removes one element at the
      resolved index, or nothing when that index is the length. */
  function Splice1<T>(xs: seq<T>, i: int): (r: seq<T>)
    ensures RelativeIndex(i, |xs|) < |xs| ==> r == RemoveAt(xs, RelativeIndex(i, |xs|))
    ensures RelativeIndex(i, |xs|) == |xs| ==> r == xs
  {
    var k := RelativeIndex(i, |xs|);
    if k < |xs| then RemoveAt(xs, k) else xs
  }

  /** `xs.filter((x, i) => i !== index)`, walking the array position by
      position: the element at position p is kept exactly when p != index. */
  function FilterIndex<T>(xs: seq<T>, index: int): (r: seq<T>)
    ensures |r| == if 0 <= index < |xs| then |xs| - 1 else |xs|
    decreases |xs|
  {
    if |xs| == 0 then []
    else
      var last := |xs| - 1;
      FilterIndex(xs[..last], index) + (if last == index then [] else [xs[last]])
  }

  /** Filtering out an in-range position is exactly removing that element;
      filtering out any other index keeps the array as it was. */
  lemma {:induction false} FilterIndexIsRemoveAt<T>(xs: seq<T>, index: int)
    ensures 0 <= index < |xs| ==> FilterIndex(xs, index) == RemoveAt(xs, index)
    ensures !(0 <= index < |xs|) ==> FilterIndex(xs, index) == xs
    decreases |xs|
  {
    if |xs| == 0 {
    } else {
      var last := |xs| - 1;
      var init := xs[..last];
      FilterIndexIsRemoveAt(init, index);
      if last == index {
        assert FilterIndex(xs, index) == init;
      } else if 0 <= index < last {
        assert FilterIndex(xs, index) == RemoveAt(init, index) + [xs[last]];
        assert RemoveAt(init, index) + [xs[last]] == RemoveAt(xs, index);
      } else {
        assert FilterIndex(xs, index) == init + [xs[last]];
        assert init + [xs[last]] == xs;
      }
    }
  }

  /** `n` array holes: positions that read back as `undefined`. */
  function Holes<T>(n: nat): (r: seq<Option<T>>)
    ensures |r| == n
    ensures forall j :: 0 <= j < n ==> r[j] == None
  {
    seq(n, _ => None)
  }

  /** `xs[index]` on an array with holes: `undefined` outside the array. */
  function At<T>(xs: seq<Option<T>>, index: int): (r: Option<T>)
    ensures 0 <= index < |xs| ==> r == xs[index]
    ensures !(0 <= index < |xs|) ==> r == None
  {
    if 0 <= index < |xs| then xs[index] else None
  }

  /** `xs[index] = v` on a copy of `xs`. A non-negative index past the end
      grows the array and leaves holes in between; a negative index creates
      a non-index property, so the elements stay as they were. */
  function Assign<T>(xs: seq<Option<T>>, index: int, v: T): (r: seq<Option<T>>)
    ensures index < 0 ==> r == xs
    ensures 0 <= index ==> |r| == Max(|xs|, index + 1)
    ensures 0 <= index ==> At(r, index) == Some(v)
    ensures forall j :: 0 <= j && j != index ==> At(r, j) == At(xs, j)
  {
    if index < 0 then xs
    else if index < |xs| then xs[index := Some(v)]
    else xs + Holes(index - |xs|) + [Some(v)]
  }
}
