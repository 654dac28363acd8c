/** `rocshmem_team_split_2d`: rows (x-axis teams) and columns (y-axis teams) of a parent team
    laid out in rows of `x` PEs, the last row possibly short. */
module TeamGrid {
  import opened Arith

  datatype Axis = X | Y

  /** Row length: the requested one, cut to the parent's size `s`. */
  function RowLength(s: nat, xrange: nat): nat { if xrange > s then s else xrange }

  function Count(axis: Axis, s: nat, x: nat): nat
    requires x >= 1
  {
    if axis == X then (s + x - 1) / x else x
  }

  function Start(axis: Axis, x: nat, i: nat): nat { if axis == X then i * x else i }

  function Stride(axis: Axis, x: nat): nat { if axis == X then 1 else x }

  function Size(axis: Axis, s: nat, x: nat, i: nat): nat
    requires x >= 1
  {
    var remainder := s % x;
    if axis == X then if i == Count(X, s, x) - 1 && remainder != 0 then remainder else x
    else s / x + if remainder != 0 && i < remainder then 1 else 0
  }

  /** Which row or column PE `p` of the parent is in, and its number there. */
  function Index(axis: Axis, x: nat, p: nat): nat
    requires x >= 1
  {
    if axis == X then p / x else p % x
  }

  function Cross(axis: Axis): Axis { if axis == X then Y else X }

  /** `p` is number `k` of the split, counted in the parent. */
  predicate InSplit(start: nat, stride: nat, size: nat, p: nat) {
    exists k: nat :: k < size && p == Numbered(start, stride, k)
  }

  function Numbered(start: nat, stride: nat, k: nat): nat { start + stride * k }

  predicate InTeam(axis: Axis, s: nat, x: nat, i: nat, p: nat)
    requires x >= 1
  {
    InSplit(Start(axis, x, i), Stride(axis, x), Size(axis, s, x, i), p)
  }

  lemma NextRow(x: nat, i: nat)
    ensures Start(X, x, 0) == 0 && Start(X, x, i + 1) == Start(X, x, i) + x
  {
    assert (i + 1) * x == i * x + x;
  }

  // Shape of the grid.

  /** The parent is `rows` full rows and `rest` more PEs. */
  lemma Grid(s: nat, x: nat)
    requires 1 <= x <= s
    ensures var rows, rest := s / x, s % x;
            && s == rows * x + rest && rest < x && rows >= 1
            && Count(X, s, x) == if rest == 0 then rows else rows + 1
  {
    var rows, rest := s / x, s % x;
    PositionSplit(s, x);
    if rest == 0 {
      DivMod(rows, x - 1, x);
    } else {
      DivMod(rows + 1, rest - 1, x);
      assert (rows + 1) * x == rows * x + x;
    }
  }

  /** A row is short only at the end. */
  lemma RowEnd(s: nat, x: nat, i: nat)
    requires 1 <= x <= s && i < Count(X, s, x)
    ensures var size := Size(X, s, x, i); 1 <= size <= x && i * x + size <= s && (i * x + size == s || size == x)
  {
    Grid(s, x);
    var rows := s / x;
    if i < rows {
      RowsApart(i, rows, x);
    }
  }

  /** A column has a PE in every full row, and in the short row if that reaches it. */
  lemma ColumnEnd(s: nat, x: nat, j: nat)
    requires 1 <= x <= s && j < x
    ensures var size := Size(Y, s, x, j); 1 <= size <= s && j + x * (size - 1) < s <= j + x * size
  {
    Grid(s, x);
    ColumnBounds(s / x, x, s % x, j);
  }

  lemma ColumnBounds(rows: nat, x: nat, rest: nat, j: nat)
    requires rows >= 1 && rest < x && j < x
    ensures var s, size := rows * x + rest, rows + if j < rest then 1 else 0;
            size <= s && j + x * (size - 1) < s <= j + x * size
  {
    MulMonotone(1, x, rows);
    assert x * (rows + 1) == rows * x + x;
    assert x * (rows - 1) == rows * x - x;
    assert x * rows == rows * x;
  }

  lemma RowNumbering(s: nat, x: nat, p: nat)
    requires 1 <= x <= s && p < s
    ensures p / x < Count(X, s, x) && p % x < Size(X, s, x, p / x) && p == Numbered(p / x * x, 1, p % x)
  {
    RowNumber(s, x, p);
    RowEnd(s, x, p / x);
    PositionSplit(p, x);
  }

  lemma ColumnNumbering(s: nat, x: nat, p: nat)
    requires 1 <= x <= s && p < s
    ensures p / x < Size(Y, s, x, p % x) && p == Numbered(p % x, x, p / x)
  {
    PositionSplit(p, x);
    ColumnEnd(s, x, p % x);
    var size := Size(Y, s, x, p % x);
    if p / x >= size {
      MulMonotone(size, p / x, x);
    }
  }

  /** A PE's number in its row is its column, and the other way round. */
  lemma Numbering(axis: Axis, s: nat, x: nat, p: nat)
    requires 1 <= x <= s && p < s
    ensures var i, k := Index(axis, x, p), Index(Cross(axis), x, p);
            && i < Count(axis, s, x) && k < Size(axis, s, x, i)
            && p == Numbered(Start(axis, x, i), Stride(axis, x), k)
  {
    if axis == X {
      RowNumbering(s, x, p);
    } else {
      ColumnNumbering(s, x, p);
    }
  }

  lemma RowMember(s: nat, x: nat, i: nat, p: nat)
    requires 1 <= x <= s && i < Count(X, s, x) && p < s && InTeam(X, s, x, i, p)
    ensures i == p / x
  {
    RowEnd(s, x, i);
    var k: nat :| k < Size(X, s, x, i) && p == Numbered(i * x, 1, k);
    DivMod(i, k, x);
  }

  lemma ColumnMember(s: nat, x: nat, j: nat, p: nat)
    requires 1 <= x <= s && j < x && p < s && InTeam(Y, s, x, j, p)
    ensures j == p % x
  {
    var k: nat :| k < Size(Y, s, x, j) && p == Numbered(j, x, k);
    DivMod(k, j, x);
  }

  /** Each axis partitions the parent: every PE is in exactly one team of it. */
  lemma Partition(axis: Axis, s: nat, x: nat, i: nat, p: nat)
    requires 1 <= x <= s && i < Count(axis, s, x) && p < s
    ensures InTeam(axis, s, x, i, p) <==> i == Index(axis, x, p)
    ensures Index(axis, x, p) < Count(axis, s, x)
  {
    Numbering(axis, s, x, p);
    if InTeam(axis, s, x, i, p) {
      if axis == X {
        RowMember(s, x, i, p);
      } else {
        ColumnMember(s, x, i, p);
      }
    }
  }

  lemma RowNumber(s: nat, x: nat, p: nat)
    requires 1 <= x <= s && p < s
    ensures p / x < Count(X, s, x)
  {
    Grid(s, x);
    PositionSplit(p, x);
    var count := Count(X, s, x);
    assert (s / x + 1) * x == s / x * x + x;
    if p / x >= count {
      MulMonotone(count, p / x, x);
    }
  }

  /** A team has no member outside the parent. */
  lemma Within(axis: Axis, s: nat, x: nat, i: nat)
    requires 1 <= x <= s && i < Count(axis, s, x)
    ensures var start, stride, size := Start(axis, x, i), Stride(axis, x), Size(axis, s, x, i);
            1 <= size <= s && start < s && stride >= 1 && start + stride * (size - 1) < s
  {
    if axis == X {
      RowEnd(s, x, i);
    } else {
      ColumnEnd(s, x, i);
    }
  }

  /** A row and a column share at most one PE, and together they name it. */
  lemma PairNamesPe(s: nat, x: nat, i: nat, j: nat, p: nat)
    requires 1 <= x <= s && i < Count(X, s, x) && j < Count(Y, s, x) && p < s
    ensures InTeam(X, s, x, i, p) && InTeam(Y, s, x, j, p) <==> p == i * x + j
  {
    Partition(X, s, x, i, p);
    Partition(Y, s, x, j, p);
    PositionSplit(p, x);
    if p == i * x + j {
      DivMod(i, j, x);
    }
  }
}
