/**
 * The two iterative multipliers of tarea1/matrix.cpp on array2<int> (the
 * source's matrix2d passed by reference): cubicMultiplication fills the
 * caller's out from A and B; optimizedCubicMultiplication first transposes B
 * in place, then multiplies row by row. Both write out[row][column] for
 * row < rows of A and column < columns of B, with an inner dimension of
 * columns of A.
 */
module Cubic {
  import opened MatrixSpec
  import opened Strassen

  /** The first d entries of row r of m. */
  function RowOf(m: array2<int>, r: nat, d: nat): (row: seq<int>)
    requires r < m.Length0 && d <= m.Length1
    reads m
    ensures |row| == d && forall t :: 0 <= t < d ==> row[t] == m[r, t]
  {
    seq(d, t requires 0 <= t < d reads m => m[r, t])
  }

  /** The first d entries of column c of m. */
  function ColumnOf(m: array2<int>, c: nat, d: nat): (column: seq<int>)
    requires c < m.Length1 && d <= m.Length0
    reads m
    ensures |column| == d && forall t :: 0 <= t < d ==> column[t] == m[t, c]
  {
    seq(d, t requires 0 <= t < d reads m => m[t, c])
  }

  /** The contents of m as a value, row by row. */
  function Cells(m: array2<int>): (cells: Matrix)
    reads m
    ensures |cells| == m.Length0
    ensures forall i :: 0 <= i < m.Length0 ==> cells[i] == RowOf(m, i, m.Length1)
  {
    seq(m.Length0, i requires 0 <= i < m.Length0 reads m => RowOf(m, i, m.Length1))
  }

  /** What both multipliers store at out[r][c]: row r of A times column c of B over the columns of A. */
  function RowTimesColumn(a: array2<int>, b: array2<int>, r: nat, c: nat): (s: int)
    requires r < a.Length0 && c < b.Length1 && a.Length1 <= b.Length0
    reads a, b
  {
    Dot(RowOf(a, r, a.Length1), ColumnOf(b, c, a.Length1))
  }

  /** The innermost loop of cubicMultiplication: the running sum of A[row][index] * B[index][column]. */
  method SumRowTimesColumn(a: array2<int>, b: array2<int>, row: nat, column: nat) returns (sum: int)
    requires row < a.Length0 && column < b.Length1 && a.Length1 <= b.Length0
    ensures sum == RowTimesColumn(a, b, row, column)
  {
    ghost var u, v := RowOf(a, row, a.Length1), ColumnOf(b, column, a.Length1);
    sum := 0;
    var index := 0;
    while index < a.Length1
      invariant 0 <= index <= a.Length1
      invariant sum == Dot(u[..index], v[..index])
    {
      DotStep(u, v, index);
      sum := sum + a[row, index] * b[index, column];
      index := index + 1;
    }
    assert u[..index] == u && v[..index] == v;
  }

  /**
   * cubicMultiplication(A, B, out): for every row of A and column of B,
   * out[row][column] becomes row times column. Nothing else of out changes,
   * and A and B are only read. out must be another matrix than A and B.
   */
  method CubicMultiplication(a: array2<int>, b: array2<int>, out: array2<int>)
    requires a.Length1 <= b.Length0
    requires a.Length0 <= out.Length0 && b.Length1 <= out.Length1
    requires out != a && out != b
    modifies out
    ensures forall r, c :: 0 <= r < a.Length0 && 0 <= c < b.Length1 ==> out[r, c] == RowTimesColumn(a, b, r, c)
    ensures forall r, c :: 0 <= r < out.Length0 && 0 <= c < out.Length1 && !(r < a.Length0 && c < b.Length1) ==>
              out[r, c] == old(out[r, c])
    ensures a.Length0 == a.Length1 == b.Length0 == b.Length1 == out.Length0 == out.Length1 ==>
              IsSquare(Cells(a), a.Length0) && IsSquare(Cells(b), a.Length0) && Cells(out) == Product(Cells(a), Cells(b))
  {
    var row := 0;
    while row < a.Length0
      invariant 0 <= row <= a.Length0
      invariant forall r, c :: 0 <= r < row && 0 <= c < b.Length1 ==> out[r, c] == RowTimesColumn(a, b, r, c)
      invariant forall r, c :: 0 <= r < out.Length0 && 0 <= c < out.Length1 && !(r < row && c < b.Length1) ==>
                  out[r, c] == old(out[r, c])
    {
      var column := 0;
      while column < b.Length1
        invariant 0 <= column <= b.Length1
        invariant forall r, c :: 0 <= r < row && 0 <= c < b.Length1 ==> out[r, c] == RowTimesColumn(a, b, r, c)
        invariant forall c :: 0 <= c < column ==> out[row, c] == RowTimesColumn(a, b, row, c)
        invariant forall r, c :: 0 <= r < out.Length0 && 0 <= c < out.Length1 && !(r < row && c < b.Length1) && !(r == row && c < column) ==>
                    out[r, c] == old(out[r, c])
      {
        var sum := SumRowTimesColumn(a, b, row, column);
        out[row, column] := sum;
        column := column + 1;
      }
      row := row + 1;
    }
    if a.Length0 == a.Length1 == b.Length0 == b.Length1 == out.Length0 == out.Length1 {
      CubicIsProduct(a, b, out);
    }
  }

  /** One row of the transposition loop: swaps b[row][column] with b[column][row] for every column past the diagonal. */
  method SwapAcross(b: array2<int>, row: nat)
    requires b.Length0 == b.Length1 && row < b.Length0
    modifies b
    ensures forall c :: row < c < b.Length1 ==> b[row, c] == old(b[c, row]) && b[c, row] == old(b[row, c])
    ensures forall i, j :: 0 <= i < b.Length0 && 0 <= j < b.Length1 && !(i == row && row < j) && !(j == row && row < i) ==>
              b[i, j] == old(b[i, j])
  {
    var column := row + 1;
    while column < b.Length1
      invariant row + 1 <= column <= b.Length1
      invariant forall c :: row < c < column ==> b[row, c] == old(b[c, row]) && b[c, row] == old(b[row, c])
      invariant forall i, j :: 0 <= i < b.Length0 && 0 <= j < b.Length1 && !(i == row && row < j < column) && !(j == row && row < i < column) ==>
                  b[i, j] == old(b[i, j])
    {
      var tmp := b[row, column];
      b[row, column] := b[column, row];
      b[column, row] := tmp;
      column := column + 1;
    }
  }

  /** The first half of optimizedCubicMultiplication: B, square, becomes its own transpose, in place. */
  method TransposeInPlace(b: array2<int>)
    requires b.Length0 == b.Length1
    modifies b
    ensures forall i, j :: 0 <= i < b.Length0 && 0 <= j < b.Length1 ==> b[i, j] == old(b[j, i])
    ensures Cells(b) == Transpose(old(Cells(b)))
  {
    ghost var before := Cells(b);
    var row := 0;
    while row < b.Length0
      invariant 0 <= row <= b.Length0
      invariant forall i, j :: 0 <= i < b.Length0 && 0 <= j < b.Length1 && (i < row || j < row) ==> b[i, j] == old(b[j, i])
      invariant forall i, j :: row <= i < b.Length0 && row <= j < b.Length1 ==> b[i, j] == old(b[i, j])
    {
      SwapAcross(b, row);
      row := row + 1;
    }
    CellsTransposed(before, b);
  }

  /** An array whose every entry mirrors a matrix holds that matrix's transpose. */
  lemma CellsTransposed(before: Matrix, b: array2<int>)
    requires IsSquare(before, b.Length0) && b.Length0 == b.Length1
    requires forall i, j :: 0 <= i < b.Length0 && 0 <= j < b.Length1 ==> b[i, j] == before[j][i]
    ensures Cells(b) == Transpose(before)
  {
    var cells, t := Cells(b), Transpose(before);
    forall i | 0 <= i < b.Length0
      ensures cells[i] == t[i]
    {
      assert forall j :: 0 <= j < b.Length1 ==> cells[i][j] == t[i][j];
    }
  }

  /** The innermost loop of optimizedCubicMultiplication: the running sum of A[row][index] * B[column][index]. */
  method SumRowTimesRow(a: array2<int>, b: array2<int>, row: nat, column: nat) returns (sum: int)
    requires row < a.Length0 && column < b.Length0 && a.Length1 <= b.Length1
    ensures sum == Dot(RowOf(a, row, a.Length1), RowOf(b, column, a.Length1))
  {
    ghost var u, v := RowOf(a, row, a.Length1), RowOf(b, column, a.Length1);
    sum := 0;
    var index := 0;
    while index < a.Length1
      invariant 0 <= index <= a.Length1
      invariant sum == Dot(u[..index], v[..index])
    {
      DotStep(u, v, index);
      sum := sum + a[row, index] * b[column, index];
      index := index + 1;
    }
    assert u[..index] == u && v[..index] == v;
  }

  /**
   * The second half of optimizedCubicMultiplication, with B already
   * transposed into bt: out[row][column] becomes row row of A times row
   * column of bt. Nothing else of out changes.
   */
  method MultiplyByRows(a: array2<int>, bt: array2<int>, out: array2<int>)
    requires a.Length1 <= bt.Length1
    requires a.Length0 <= out.Length0 && bt.Length1 <= out.Length1 && bt.Length1 <= bt.Length0
    requires out != a && out != bt
    modifies out
    ensures forall r, c :: 0 <= r < a.Length0 && 0 <= c < bt.Length1 ==> out[r, c] == Dot(RowOf(a, r, a.Length1), RowOf(bt, c, a.Length1))
    ensures forall r, c :: 0 <= r < out.Length0 && 0 <= c < out.Length1 && !(r < a.Length0 && c < bt.Length1) ==>
              out[r, c] == old(out[r, c])
  {
    var row := 0;
    while row < a.Length0
      invariant 0 <= row <= a.Length0
      invariant forall r, c :: 0 <= r < row && 0 <= c < bt.Length1 ==> out[r, c] == Dot(RowOf(a, r, a.Length1), RowOf(bt, c, a.Length1))
      invariant forall r, c :: 0 <= r < out.Length0 && 0 <= c < out.Length1 && !(r < row && c < bt.Length1) ==>
                  out[r, c] == old(out[r, c])
    {
      var column := 0;
      while column < bt.Length1
        invariant 0 <= column <= bt.Length1
        invariant forall r, c :: 0 <= r < row && 0 <= c < bt.Length1 ==> out[r, c] == Dot(RowOf(a, r, a.Length1), RowOf(bt, c, a.Length1))
        invariant forall c :: 0 <= c < column ==> out[row, c] == Dot(RowOf(a, row, a.Length1), RowOf(bt, c, a.Length1))
        invariant forall r, c :: 0 <= r < out.Length0 && 0 <= c < out.Length1 && !(r < row && c < bt.Length1) && !(r == row && c < column) ==>
                    out[r, c] == old(out[r, c])
      {
        var sum := SumRowTimesRow(a, bt, row, column);
        out[row, column] := sum;
        column := column + 1;
      }
      row := row + 1;
    }
  }

  /**
   * optimizedCubicMultiplication(A, B, out): B, square, is left transposed,
   * and out[row][column] holds the same row-times-column product of the
   * original A and B as cubicMultiplication computes. Nothing else of out
   * changes. A, B and out must be three different matrices.
   */
  method OptimizedCubicMultiplication(a: array2<int>, b: array2<int>, out: array2<int>)
    requires b.Length0 == b.Length1 && a.Length1 <= b.Length0
    requires a.Length0 <= out.Length0 && b.Length1 <= out.Length1
    requires a != b && out != a && out != b
    modifies b, out
    ensures forall i, j :: 0 <= i < b.Length0 && 0 <= j < b.Length1 ==> b[i, j] == old(b[j, i])
    ensures forall r, c :: 0 <= r < a.Length0 && 0 <= c < b.Length1 ==> out[r, c] == old(RowTimesColumn(a, b, r, c))
    ensures forall r, c :: 0 <= r < out.Length0 && 0 <= c < out.Length1 && !(r < a.Length0 && c < b.Length1) ==>
              out[r, c] == old(out[r, c])
    ensures a.Length0 == a.Length1 == b.Length0 == out.Length0 == out.Length1 ==>
              IsSquare(old(Cells(a)), a.Length0) && IsSquare(old(Cells(b)), a.Length0) &&
              Cells(out) == Product(old(Cells(a)), old(Cells(b)))
  {
    ghost var ca, cb := Cells(a), Cells(b);
    ghost var columns := seq(b.Length1, c requires 0 <= c < b.Length1 reads b => ColumnOf(b, c, a.Length1));
    ghost var square := a.Length0 == a.Length1 == b.Length0 == out.Length0 == out.Length1;
    if square {
      forall c | 0 <= c < b.Length1
        ensures Column(cb, c) == columns[c]
      {
        ColumnOfCells(b, c);
      }
    }
    TransposeInPlace(b);
    forall c | 0 <= c < b.Length1
      ensures RowOf(b, c, a.Length1) == columns[c]
    {
    }
    MultiplyByRows(a, b, out);
    if square {
      assert Cells(a) == ca;
      CellsAreProduct(out, ca, cb);
    }
  }

  /** Column j of the contents of m is the array's column j. */
  lemma ColumnOfCells(m: array2<int>, j: nat)
    requires j < m.Length1
    ensures forall t :: 0 <= t < |Cells(m)| ==> j < |Cells(m)[t]|
    ensures Column(Cells(m), j) == ColumnOf(m, j, m.Length0)
  {
    var cells := Cells(m);
    assert forall t :: 0 <= t < |cells| ==> |cells[t]| == m.Length1;
    var col, arrayColumn := Column(cells, j), ColumnOf(m, j, m.Length0);
    assert forall t :: 0 <= t < m.Length0 ==> col[t] == arrayColumn[t];
  }

  /**
   * An N x N array whose entry (r, c) is row r of A times column c of B,
   * A and B N x N matrix values, holds the matrix product of A and B.
   */
  lemma CellsAreProduct(out: array2<int>, a: Matrix, b: Matrix)
    requires out.Length0 == out.Length1 && IsSquare(a, out.Length0) && IsSquare(b, out.Length0)
    requires forall r, c :: 0 <= r < out.Length0 && 0 <= c < out.Length1 ==> out[r, c] == Dot(a[r], Column(b, c))
    ensures Cells(out) == Product(a, b)
  {
    var n := out.Length0;
    var co, p := Cells(out), Product(a, b);
    forall i | 0 <= i < n
      ensures co[i] == p[i]
    {
      assert forall j :: 0 <= j < n ==> co[i][j] == p[i][j];
    }
  }

  /**
   * On N x N arrays, an out whose every entry is row times column of A and
   * B, as cubicMultiplication leaves it, holds Product(A, B).
   */
  lemma CubicIsProduct(a: array2<int>, b: array2<int>, out: array2<int>)
    requires a.Length0 == a.Length1 == b.Length0 == b.Length1 == out.Length0 == out.Length1
    requires forall r, c :: 0 <= r < a.Length0 && 0 <= c < b.Length1 ==> out[r, c] == RowTimesColumn(a, b, r, c)
    ensures IsSquare(Cells(a), a.Length0) && IsSquare(Cells(b), a.Length0)
    ensures Cells(out) == Product(Cells(a), Cells(b))
  {
    var n := a.Length0;
    var ca, cb := Cells(a), Cells(b);
    assert IsSquare(ca, n) && IsSquare(cb, n);
    forall c | 0 <= c < n
      ensures Column(cb, c) == ColumnOf(b, c, n)
    {
      ColumnOfCells(b, c);
    }
    CellsAreProduct(out, ca, cb);
  }

  /**
   * For N a power of two, an out holding the product of A and B, as both
   * iterative multipliers leave it, holds strassenMultiplication(A, B).
   */
  lemma CubicAgreesWithStrassen(out: array2<int>, a: Matrix, b: Matrix)
    requires out.Length0 == out.Length1 && IsPowerOfTwo(out.Length0)
    requires IsSquare(a, out.Length0) && IsSquare(b, out.Length0)
    requires Cells(out) == Product(a, b)
    ensures Cells(out) == StrassenMultiplication(a, b)
  {
    StrassenIsProduct(a, b);
  }
}
