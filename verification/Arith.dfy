/** Products and row-major positions. */
module Arith {

  lemma MulMonotone(a: nat, b: nat, n: nat)
    requires a <= b
    ensures a * n <= b * n
  {
    assert b * n == a * n + (b - a) * n;
  }

  /** Rows do not run into each other. */
  lemma RowsApart(a: nat, b: nat, n: nat)
    requires a < b
    ensures a * n + n <= b * n
  {
    MulMonotone(a + 1, b, n);
    assert (a + 1) * n == a * n + n;
  }

  /** A position `row * n + column` names one row and one column. */
  lemma PositionUnique(a: nat, i: nat, b: nat, j: nat, n: nat)
    requires i < n && j < n && a * n + i == b * n + j
    ensures a == b && i == j
  {
    if a < b {
      RowsApart(a, b, n);
    } else if b < a {
      RowsApart(b, a, n);
    }
  }

  lemma PositionBound(a: nat, i: nat, rows: nat, n: nat)
    requires a < rows && i < n
    ensures a * n + i < rows * n
  {
    RowsApart(a, rows, n);
  }

  /** Every position has a row and a column. */
  lemma PositionSplit(k: nat, n: nat)
    requires n > 0
    ensures (k / n) * n + k % n == k && k % n < n
  {
  }

  lemma DivMod(a: nat, i: nat, n: nat)
    requires i < n
    ensures (a * n + i) / n == a && (a * n + i) % n == i
  {
    var k := a * n + i;
    PositionSplit(k, n);
    PositionUnique(a, i, k / n, k % n, n);
  }
}
