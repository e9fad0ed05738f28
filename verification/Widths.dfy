/** Machine integers of the server: `unsigned int` is 32 bits wide and wraps. */
module Widths {
  const U32: int := 0x1_0000_0000

  type u32 = x: int | 0 <= x < 0x1_0000_0000

  /** The value an expression of type `unsigned int` takes. */
  function Wrap(x: int): u32 {
    x % 0x1_0000_0000
  }

  datatype Option<+T> = None | Some(value: T)
}

/** Facts about quotients that the solver does not find by itself. */
module Quotients {
  lemma MulMonotone(a: int, b: int, d: int)
    requires a <= b && d >= 0
    ensures a * d <= b * d
  {
  }

  lemma Split(x: int, d: int)
    requires d > 0
    ensures x == (x / d) * d + x % d
    ensures 0 <= x % d < d
  {
  }

  /** Cancelling a positive factor keeps the strict order. */
  lemma MulCancel(a: int, b: int, d: int)
    requires a * d < b * d && d > 0
    ensures a < b
  {
    assert b <= a ==> b * d <= a * d by {
      if b <= a { MulMonotone(b, a, d); }
    }
  }

  /** Quotient and remainder are determined by their bounds. */
  lemma Unique(x: int, d: int, q: int)
    requires d > 0 && q * d <= x < q * d + d
    ensures x / d == q && x % d == x - q * d
  {
    Split(x, d);
    assert (q + 1) * d == q * d + d;
    assert (x / d + 1) * d == (x / d) * d + d;
    MulCancel(x / d, q + 1, d);
    MulCancel(q, x / d + 1, d);
  }

  lemma DivMonotone(x: int, y: int, d: int)
    requires x <= y && d > 0
    ensures x / d <= y / d
  {
    Split(x, d);
    Split(y, d);
    assert (y / d + 1) * d == (y / d) * d + d;
    MulCancel(x / d, y / d + 1, d);
  }
}
