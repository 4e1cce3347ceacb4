/** Swapping two variables with `a = b.also { b = a }`. */
module Variables {

  /** Runs `a = b.also { b = a }` on `var a = a0` and `var b = b0`: the receiver `b` is
      read first, the block then assigns `b = a`, and `also` hands the value it read to
      `a`. */
  method SwapAlso(a0: int, b0: int) returns (a: int, b: int)
    ensures a == b0 && b == a0
  {
    a, b := a0, b0;
    var receiver := b;
    b := a;
    a := receiver;
  }

  /** The swap is its own inverse: doing it twice restores both variables. */
  method SwapTwiceRestores(a0: int, b0: int) returns (a: int, b: int)
    ensures a == a0 && b == b0
  {
    a, b := SwapAlso(a0, b0);
    a, b := SwapAlso(a, b);
  }
}
