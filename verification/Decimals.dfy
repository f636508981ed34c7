/**
 * Decimal arithmetic: moving the decimal point, and cutting towards zero.
 */
module Decimals {

  /** The point `n` places to the right: times 10^n. */
  function Up(x: real, n: nat): real
    decreases n
  {
    if n == 0 then x else Up(10.0 * x, n - 1)
  }

  /** The point `n` places to the left: divided by 10^n. */
  function Down(x: real, n: nat): real
    decreases n
  {
    if n == 0 then x else Down(x / 10.0, n - 1)
  }

  /** `x` without the digits past the n-th decimal, downwards. */
  function Cut(x: real, n: nat): real { Down(Up(x, n).Floor as real, n) }

  /** `x` without the digits past the n-th decimal, towards zero. */
  function Truncated(x: real, n: nat): real {
    if x < 0.0 then -Cut(-x, n) else Cut(x, n)
  }

  lemma {:induction false} DownLast(x: real, n: nat)
    requires n > 0
    ensures Down(x, n) == Down(x, n - 1) / 10.0
    decreases n
  {
    if n > 1 {
      DownLast(x / 10.0, n - 1);
    }
  }

  lemma {:induction false} UpOfDown(x: real, n: nat)
    ensures Up(Down(x, n), n) == x
    decreases n
  {
    if n > 0 {
      DownLast(x, n);
      UpOfDown(x, n - 1);
    }
  }

  lemma {:induction false} UpLast(x: real, n: nat)
    requires n > 0
    ensures Up(x, n) == 10.0 * Up(x, n - 1)
    decreases n
  {
    if n > 1 {
      UpLast(10.0 * x, n - 1);
    }
  }

  lemma {:induction false} DownOfUp(x: real, n: nat)
    ensures Down(Up(x, n), n) == x
    decreases n
  {
    if n > 0 {
      UpLast(x, n);
      DownOfUp(x, n - 1);
    }
  }

  lemma {:induction false} UpSum(x: real, m: nat, n: nat)
    ensures Up(x, m + n) == Up(Up(x, m), n)
    decreases m
  {
    if m > 0 {
      UpSum(10.0 * x, m - 1, n);
    }
  }

  lemma {:induction false} DownSum(x: real, m: nat, n: nat)
    ensures Down(x, m + n) == Down(Down(x, m), n)
    decreases m
  {
    if m > 0 {
      DownSum(x / 10.0, m - 1, n);
    }
  }

  lemma {:induction false} UpOrder(x: real, y: real, n: nat)
    ensures x <= y <==> Up(x, n) <= Up(y, n)
    ensures x == 0.0 ==> Up(x, n) == 0.0
    decreases n
  {
    if n > 0 {
      UpOrder(10.0 * x, 10.0 * y, n - 1);
    }
  }

  lemma {:induction false} DownOrder(x: real, y: real, n: nat)
    ensures x <= y <==> Down(x, n) <= Down(y, n)
    ensures x == 0.0 ==> Down(x, n) == 0.0
    decreases n
  {
    if n > 0 {
      DownOrder(x / 10.0, y / 10.0, n - 1);
    }
  }

  lemma {:induction false} DownOfSum(x: real, y: real, n: nat)
    ensures Down(x + y, n) == Down(x, n) + Down(y, n)
    decreases n
  {
    if n > 0 {
      DownOfSum(x / 10.0, y / 10.0, n - 1);
      assert (x + y) / 10.0 == x / 10.0 + y / 10.0;
    }
  }

  lemma {:induction false} UpOfWhole(k: int, n: nat)
    ensures Up(k as real, n).Floor as real == Up(k as real, n)
    decreases n
  {
    if n > 0 {
      UpOfWhole(10 * k, n - 1);
      assert (10 * k) as real == 10.0 * k as real;
    }
  }

  /** Cutting shrinks, by less than one unit of the last place kept. */
  lemma CutIsClose(x: real, n: nat)
    requires x >= 0.0
    ensures 0.0 <= Cut(x, n) <= x < Cut(x, n) + Down(1.0, n)
  {
    var y := Up(x, n);
    UpOrder(0.0, x, n);
    DownOfUp(x, n);
    DownOrder(0.0, y.Floor as real, n);
    DownOrder(y.Floor as real, y, n);
    DownOrder(y.Floor as real + 1.0, y, n);
    DownOfSum(y.Floor as real, 1.0, n);
  }

  lemma FloorIs(x: real, k: int)
    requires k as real <= x < k as real + 1.0
    ensures x.Floor == k
  {
  }

  lemma FloorIsMonotone(x: real, y: real)
    requires x <= y
    ensures x.Floor <= y.Floor
  {
  }

  lemma CutIsMonotone(x: real, y: real, n: nat)
    requires x <= y
    ensures Cut(x, n) <= Cut(y, n)
  {
    UpOrder(x, y, n);
    FloorIsMonotone(Up(x, n), Up(y, n));
    DownOrder(Up(x, n).Floor as real, Up(y, n).Floor as real, n);
  }

  /** Truncation only looks at the magnitude. */
  lemma SignedTruncation(m: real, n: nat, negative: bool)
    requires m >= 0.0
    ensures Truncated(if negative then -m else m, n) == if negative then -Cut(m, n) else Cut(m, n)
  {
    if m == 0.0 {
      CutIsClose(m, n);
    }
  }
}
