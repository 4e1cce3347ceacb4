/** `arrayOfMinusOnes(size)`: `IntArray(size).apply { fill(-1) }`. */
module Arrays {
  import opened Wrappers

  /** `a.fill(v)`: every element of `a` is overwritten with `v`, in place. */
  method Fill(a: array<int>, v: int)
    modifies a
    ensures forall i :: 0 <= i < a.Length ==> a[i] == v
  {
    var i := 0;
    while i < a.Length
      invariant 0 <= i <= a.Length
      invariant forall j :: 0 <= j < i ==> a[j] == v
    {
      a[i] := v;
      i := i + 1;
    }
  }

  /** `IntArray(size)` throws for a negative size; otherwise a fresh array of `size`
      zeros is filled with -1. */
  method ArrayOfMinusOnes(size: int) returns (r: Result<array<int>>)
    ensures r.Thrown? <==> size < 0
    ensures r.Thrown? ==> r.exception == NegativeArraySizeException(size)
    ensures r.Ok? ==> fresh(r.value) && r.value.Length == size
    ensures r.Ok? ==> forall i :: 0 <= i < r.value.Length ==> r.value[i] == -1
  {
    if size < 0 {
      return Thrown(NegativeArraySizeException(size));
    }
    var a := new int[size](_ => 0);
    Fill(a, -1);
    return Ok(a);
  }
}
