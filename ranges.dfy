/** The range loops: `for (i in 1..100)`, `1 until 100`, `2..10 step 2` and `10 downTo 1`,
    over Kotlin's arithmetic progressions. */
module Ranges {
  import opened Wrappers

  /** An `IntProgression`: from `first` towards `last` in strides of `step`. Kotlin's
      constructors never build one with a zero step. */
  datatype Progression = Progression(first: int, last: int, step: int)

  /** `x` lies between the two ends, on the side the step walks towards. */
  predicate Within(p: Progression, x: int) {
    if p.step > 0 then p.first <= x <= p.last else p.last <= x <= p.first
  }

  /** The progression has no elements. */
  predicate IsEmpty(p: Progression) {
    if p.step > 0 then p.first > p.last else p.first < p.last
  }

  /** The values a `for` loop over `p` gives its variable, in order. */
  function Elements(p: Progression): (r: seq<int>)
    requires p.step != 0
    decreases if p.step > 0 then p.last - p.first else p.first - p.last
    ensures |r| == 0 <==> IsEmpty(p)
  {
    if IsEmpty(p) then []
    else
      [p.first] + Elements(Progression(p.first + p.step, p.last, p.step))
  }

  /** Every value lies between the ends, and one more stride past the final value would
      leave them: the loop stops exactly at the end. */
  lemma {:induction false} ElementsWithin(p: Progression)
    requires p.step != 0
    ensures forall k :: 0 <= k < |Elements(p)| ==> Within(p, Elements(p)[k])
    ensures |Elements(p)| > 0 ==> !Within(p, Elements(p)[|Elements(p)| - 1] + p.step)
    decreases if p.step > 0 then p.last - p.first else p.first - p.last
  {
    if !IsEmpty(p) {
      var next := Progression(p.first + p.step, p.last, p.step);
      ElementsWithin(next);
      assert Elements(p) == [p.first] + Elements(next);
    }
  }

  /** On a progression Kotlin builds, the final value of a non-empty loop is `last`. */
  lemma {:induction false} ElementsEndAtLast(p: Progression)
    requires Normalized(p) && !IsEmpty(p)
    ensures Elements(p)[|Elements(p)| - 1] == p.last
    decreases if p.step > 0 then p.last - p.first else p.first - p.last
  {
    var k: nat :| p.last == p.first + k * p.step;
    var next := Progression(p.first + p.step, p.last, p.step);
    if k == 0 {
      assert IsEmpty(next);
      assert Elements(p) == [p.first];
    } else {
      assert p.last == next.first + (k - 1) * p.step;
      assert (k - 1) * p.step * p.step >= 0;
      assert !IsEmpty(next);
      ElementsEndAtLast(next);
      assert Elements(p) == [p.first] + Elements(next);
    }
  }

  /** The `k`-th value of the loop variable is `first + k * step`. */
  lemma {:induction false} ElementsAt(p: Progression, k: nat)
    requires p.step != 0 && k < |Elements(p)|
    ensures Elements(p)[k] == p.first + k * p.step
    decreases k
  {
    if k > 0 {
      var next := Progression(p.first + p.step, p.last, p.step);
      ElementsAt(next, k - 1);
      assert p.first + p.step + (k - 1) * p.step == p.first + k * p.step;
    }
  }

  /** The progressions Kotlin builds: a non-zero step, and unless the progression is
      empty its `last` is reached from `first` in whole strides. Kotlin's iterator stops
      when the value equals `last`; on these progressions that is where `Elements` stops. */
  ghost predicate Normalized(p: Progression) {
    p.step != 0 && (IsEmpty(p) || exists k: nat :: p.last == p.first + k * p.step)
  }

  /** `a..b`: the closed range, `b` included. */
  function RangeTo(a: int, b: int): (p: Progression)
    ensures p.step == 1 && p.first == a && p.last == b
    ensures Normalized(p)
  {
    assert a <= b ==> b == a + (b - a) * 1;
    Progression(a, b, 1)
  }

  /** `a until b`: the half-open range, `b` excluded. */
  function Until(a: int, b: int): (p: Progression)
    ensures p.step == 1 && p.first == a && p.last == b - 1
    ensures Normalized(p)
  {
    assert a <= b - 1 ==> b - 1 == a + (b - 1 - a) * 1;
    Progression(a, b - 1, 1)
  }

  /** `a downTo b`: from `a` down to `b`, both included. */
  function DownTo(a: int, b: int): (p: Progression)
    ensures p.step == -1 && p.first == a && p.last == b
    ensures Normalized(p)
  {
    assert a >= b ==> b == a + (a - b) * -1;
    Progression(a, b, -1)
  }

  /** The last element a progression really reaches (Kotlin's `getProgressionLastElement`):
      the element of `first, first + step, ...` nearest to `last` without passing it. */
  function LastElement(first: int, last: int, step: int): (r: int)
    requires step != 0
    ensures step > 0 && first <= last ==> first <= r <= last && r + step > last
    ensures step > 0 && first <= last ==> exists k: nat :: r == first + k * step
    ensures step < 0 && first >= last ==> last <= r <= first && r + step < last
    ensures step < 0 && first >= last ==> exists k: nat :: r == first + k * step
    ensures (step > 0 && first >= last) || (step < 0 && first <= last) ==> r == last
  {
    if step > 0 then
      if first >= last then
        assert first <= last ==> last == first + 0 * step;
        last
      else
        var d := last - first;
        var k: nat := d / step;
        assert d == k * step + d % step;
        last - d % step
    else
      if first <= last then
        assert first >= last ==> last == first + 0 * step;
        last
      else
        var d := first - last;
        var k: nat := d / (-step);
        assert d == k * (-step) + d % (-step);
        assert last + d % (-step) == first + k * step;
        last + d % (-step)
  }

  /** `p step s`: a positive `s` keeps the direction of `p` and trims `last` to an element;
      any other `s` throws. */
  function Step(p: Progression, s: int): (r: Result<Progression>)
    requires p.step != 0
    ensures r.Thrown? <==> s <= 0
    ensures r.Thrown? ==> r.exception == IllegalArgumentException("Step must be positive")
    ensures r.Ok? ==> r.value.first == p.first && r.value.step == (if p.step > 0 then s else -s)
    ensures r.Ok? ==> IsEmpty(r.value) == IsEmpty(p)
    ensures r.Ok? && !IsEmpty(p) ==> Within(p, r.value.last) && !Within(p, r.value.last + r.value.step)
    ensures r.Ok? ==> Normalized(r.value)
  {
    if s <= 0 then Thrown(IllegalArgumentException("Step must be positive"))
    else
      var st := if p.step > 0 then s else -s;
      Ok(Progression(p.first, LastElement(p.first, p.last, st), st))
  }

  /** Moving `last` anywhere short of the element after `trimmed` leaves the visited values
      alone, when `trimmed` is reached from `first` in `k` strides. */
  lemma {:induction false} TrimKeepsElements(first: int, last: int, trimmed: int, step: int, k: nat)
    requires step != 0 && trimmed == first + k * step
    requires if step > 0 then trimmed <= last < trimmed + step else trimmed + step < last <= trimmed
    ensures Elements(Progression(first, last, step)) == Elements(Progression(first, trimmed, step))
    decreases k
  {
    var p, q := Progression(first, last, step), Progression(first, trimmed, step);
    var pn, qn := Progression(first + step, last, step), Progression(first + step, trimmed, step);
    if k == 0 {
      assert IsEmpty(pn) && IsEmpty(qn);
      assert Elements(p) == [first] + Elements(pn);
      assert Elements(q) == [first] + Elements(qn);
    } else {
      assert trimmed == first + step + (k - 1) * step;
      assert (k - 1) * step * step >= 0;
      TrimKeepsElements(first + step, last, trimmed, step, k - 1);
      assert Elements(p) == [first] + Elements(pn);
      assert Elements(q) == [first] + Elements(qn);
    }
  }

  /** `p step s` visits exactly the values that striding by `s` from `p.first` towards
      `p.last` visits: trimming `last` changes nothing in the loop. */
  lemma StepKeepsElements(p: Progression, s: int)
    requires p.step != 0 && s > 0
    ensures Step(p, s).Ok?
    ensures Elements(Step(p, s).value) == Elements(Progression(p.first, p.last, if p.step > 0 then s else -s))
  {
    var st := if p.step > 0 then s else -s;
    var trimmed := LastElement(p.first, p.last, st);
    if !IsEmpty(p) {
      var k: nat :| trimmed == p.first + k * st;
      TrimKeepsElements(p.first, p.last, trimmed, st, k);
    }
  }

  /** One iteration moves the head of the remaining progression onto the visited values. */
  lemma ElementsCons(visited: seq<int>, q: Progression)
    requires q.step != 0 && !IsEmpty(q)
    ensures visited + Elements(q) == (visited + [q.first]) + Elements(Progression(q.first + q.step, q.last, q.step))
  {
  }

  /** An exhausted progression adds nothing to the visited values. */
  lemma ElementsNil(visited: seq<int>, q: Progression)
    requires q.step != 0 && IsEmpty(q)
    ensures visited + Elements(q) == visited
  {
  }

  /** `for (i in p) { x = 99 }` starting from `var x = x0`; `visited` records the values
      `i` takes, one per iteration. */
  method ForEach(p: Progression, x0: int) returns (x: int, visited: seq<int>)
    requires p.step != 0
    ensures visited == Elements(p)
    ensures x == if visited == [] then x0 else 99
  {
    x, visited := x0, [];
    var i := p.first;
    assert Progression(i, p.last, p.step) == p;
    assert visited + Elements(p) == Elements(p);
    while if p.step > 0 then i <= p.last else i >= p.last
      invariant visited + Elements(Progression(i, p.last, p.step)) == Elements(p)
      invariant x == if visited == [] then x0 else 99
      decreases if p.step > 0 then p.last - i else i - p.last
    {
      ElementsCons(visited, Progression(i, p.last, p.step));
      visited := visited + [i];
      x := 99;
      i := i + p.step;
    }
    ElementsNil(visited, Progression(i, p.last, p.step));
  }

  /** A unit-stride progression visits exactly the integers between its ends, each once. */
  lemma UnitStepElements(p: Progression)
    requires p.step == 1 || p.step == -1
    ensures |Elements(p)| == if IsEmpty(p) then 0 else
                              (if p.step > 0 then p.last - p.first + 1 else p.first - p.last + 1)
    ensures forall x :: x in Elements(p) <==> Within(p, x)
  {
    var r := Elements(p);
    ElementsWithin(p);
    if !IsEmpty(p) {
      ElementsAt(p, |r| - 1);
    }
    forall x | x in r ensures Within(p, x) {
      var k :| 0 <= k < |r| && r[k] == x;
    }
    forall x | Within(p, x) ensures x in r {
      var k := if p.step > 0 then x - p.first else p.first - x;
      ElementsAt(p, k);
    }
  }

  /** `1..100` runs 100 times, its last value being 100. */
  lemma ClosedRangeRunsHundredTimes()
    ensures |Elements(RangeTo(1, 100))| == 100
    ensures 1 in Elements(RangeTo(1, 100)) && 100 in Elements(RangeTo(1, 100))
  {
    UnitStepElements(RangeTo(1, 100));
  }

  /** `1 until 100` runs 99 times and never reaches 100. */
  lemma HalfOpenRangeRunsNinetyNineTimes()
    ensures |Elements(Until(1, 100))| == 99
    ensures 99 in Elements(Until(1, 100)) && 100 !in Elements(Until(1, 100))
  {
    UnitStepElements(Until(1, 100));
  }

  /** `2..10 step 2` visits 2, 4, 6, 8 and 10. */
  lemma SteppedRangeVisitsEvens()
    ensures Step(RangeTo(2, 10), 2) == Ok(Progression(2, 10, 2))
    ensures Elements(Progression(2, 10, 2)) == [2, 4, 6, 8, 10]
  {
  }

  /** `10 downTo 1` runs 10 times, from 10 down to 1. */
  lemma DownToRunsTenTimes()
    ensures |Elements(DownTo(10, 1))| == 10
    ensures forall k :: 0 <= k < 10 ==> Elements(DownTo(10, 1))[k] == 10 - k
  {
    UnitStepElements(DownTo(10, 1));
    forall k | 0 <= k < 10 ensures Elements(DownTo(10, 1))[k] == 10 - k {
      ElementsAt(DownTo(10, 1), k);
    }
  }
}
