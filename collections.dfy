/** `intList.filter { x -> x > 0 }` (and the same with the implicit `it`). */
module Collections {

  /** `ys` can be obtained from `xs` by deleting elements, keeping the order of the rest. */
  ghost predicate IsSubsequence<T>(ys: seq<T>, xs: seq<T>)
    decreases |xs|
  {
    if ys == [] then true
    else if xs == [] then false
    else if ys[0] == xs[0] then IsSubsequence(ys[1..], xs[1..])
    else IsSubsequence(ys, xs[1..])
  }

  /** `xs.filter(p)`: the elements satisfying `p`, in their original order. */
  function Filter<T(!new)>(xs: seq<T>, p: T -> bool): (r: seq<T>)
    ensures |r| <= |xs|
    ensures forall x :: x in r <==> x in xs && p(x)
    ensures forall x :: multiset(r)[x] == if p(x) then multiset(xs)[x] else 0
    ensures IsSubsequence(r, xs)
  {
    if xs == [] then []
    else
      var rest := Filter(xs[1..], p);
      assert xs == [xs[0]] + xs[1..];
      if p(xs[0]) then [xs[0]] + rest else rest
  }

  /** The predicate of the lambda `{ it > 0 }`; the outer `var it` is shadowed. */
  predicate IsPositive(x: int) { x > 0 }

  /** `intList.filter { it > 0 }`. */
  function Positives(xs: seq<int>): (r: seq<int>)
    ensures |r| <= |xs| && IsSubsequence(r, xs)
    ensures forall x :: x in r <==> x in xs && x > 0
    ensures forall x :: multiset(r)[x] == if x > 0 then multiset(xs)[x] else 0
  {
    Filter(xs, IsPositive)
  }

  /** A list that is already all positive is kept whole. */
  lemma {:induction false} FilterKeepsAll<T(!new)>(xs: seq<T>, p: T -> bool)
    requires forall i :: 0 <= i < |xs| ==> p(xs[i])
    ensures Filter(xs, p) == xs
  {
    if xs != [] {
      FilterKeepsAll(xs[1..], p);
    }
  }

  /** The filter is idempotent: filtering its own result changes nothing. */
  lemma FilterIdempotent<T(!new)>(xs: seq<T>, p: T -> bool)
    ensures Filter(Filter(xs, p), p) == Filter(xs, p)
  {
    var r := Filter(xs, p);
    forall i | 0 <= i < |r| ensures p(r[i]) {
      assert r[i] in r;
    }
    FilterKeepsAll(r, p);
  }

  /** The filter distributes over concatenation. */
  lemma {:induction false} FilterConcat<T(!new)>(xs: seq<T>, ys: seq<T>, p: T -> bool)
    ensures Filter(xs + ys, p) == Filter(xs, p) + Filter(ys, p)
  {
    if xs == [] {
      assert xs + ys == ys;
    } else {
      assert (xs + ys)[1..] == xs[1..] + ys;
      FilterConcat(xs[1..], ys, p);
    }
  }

  /** `listOf(1, 2, 3).filter { it > 0 }` keeps the whole list. */
  lemma PositivesOfIntList()
    ensures Positives([1, 2, 3]) == [1, 2, 3]
  {
    var xs := [1, 2, 3];
    assert forall i :: 0 <= i < |xs| ==> IsPositive(xs[i]);
    FilterKeepsAll(xs, IsPositive);
  }
}
