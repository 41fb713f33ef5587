/**
 * Square integer matrices as values (the matrix2d of tarea1/matrix.cpp, a
 * vector of rows), the entrywise helpers createMatrix, add and subtract, and
 * the matrix product every multiplier of that file computes.
 */
module MatrixSpec {

  /** A matrix is its sequence of rows. */
  type Matrix = seq<seq<int>>

  /** n rows of n entries each. */
  predicate IsSquare(m: Matrix, n: nat)
  {
    |m| == n && forall i :: 0 <= i < n ==> |m[i]| == n
  }

  /** createMatrix(N): an N x N matrix of zeros. */
  function CreateMatrix(n: nat): (m: Matrix)
    ensures IsSquare(m, n)
    ensures forall i, j :: 0 <= i < n && 0 <= j < n ==> m[i][j] == 0
  {
    seq(n, i => seq(n, j => 0))
  }

  /** add(A, B): the entrywise sum, of the size of A. */
  function Add(a: Matrix, b: Matrix): (c: Matrix)
    requires IsSquare(a, |a|) && IsSquare(b, |a|)
    ensures IsSquare(c, |a|)
    ensures forall i, j {:trigger c[i][j]} :: 0 <= i < |a| && 0 <= j < |a| ==> c[i][j] == a[i][j] + b[i][j]
  {
    seq(|a|, i requires 0 <= i < |a| => seq(|a|, j requires 0 <= j < |a| => a[i][j] + b[i][j]))
  }

  /** subtract(A, B): the entrywise difference, of the size of A. */
  function Subtract(a: Matrix, b: Matrix): (c: Matrix)
    requires IsSquare(a, |a|) && IsSquare(b, |a|)
    ensures IsSquare(c, |a|)
    ensures forall i, j {:trigger c[i][j]} :: 0 <= i < |a| && 0 <= j < |a| ==> c[i][j] == a[i][j] - b[i][j]
  {
    seq(|a|, i requires 0 <= i < |a| => seq(|a|, j requires 0 <= j < |a| => a[i][j] - b[i][j]))
  }

  /** Adding a zero matrix changes nothing. */
  lemma AddZero(a: Matrix)
    requires IsSquare(a, |a|)
    ensures Add(a, CreateMatrix(|a|)) == a
  {
    var c := Add(a, CreateMatrix(|a|));
    forall i | 0 <= i < |a|
      ensures c[i] == a[i]
    {
    }
  }

  /** Matrix addition commutes. */
  lemma AddCommutes(a: Matrix, b: Matrix)
    requires IsSquare(a, |a|) && IsSquare(b, |a|)
    ensures Add(a, b) == Add(b, a)
  {
    var c, d := Add(a, b), Add(b, a);
    forall i | 0 <= i < |a|
      ensures c[i] == d[i]
    {
    }
  }

  /** subtract undoes add: (A + B) - B == A. */
  lemma SubtractUndoesAdd(a: Matrix, b: Matrix)
    requires IsSquare(a, |a|) && IsSquare(b, |a|)
    ensures Subtract(Add(a, b), b) == a
  {
    var c := Subtract(Add(a, b), b);
    forall i | 0 <= i < |a|
      ensures c[i] == a[i]
    {
    }
  }

  /** The running sum u[0] * v[0] + ... + u[k - 1] * v[k - 1], accumulated from index 0 up. */
  function Dot(u: seq<int>, v: seq<int>): (s: int)
    requires |u| == |v|
    decreases |u|
  {
    if |u| == 0 then 0 else Dot(u[..|u| - 1], v[..|v| - 1]) + u[|u| - 1] * v[|v| - 1]
  }

  /** One more index of the running sum: the step of the accumulating loops. */
  lemma DotStep(u: seq<int>, v: seq<int>, k: nat)
    requires |u| == |v| && k < |u|
    ensures Dot(u[..k + 1], v[..k + 1]) == Dot(u[..k], v[..k]) + u[k] * v[k]
  {
    assert u[..k + 1][..k] == u[..k];
    assert v[..k + 1][..k] == v[..k];
  }

  /** A dot product over a concatenation is the sum of the dot products of the parts. */
  lemma {:induction false} DotAppend(u1: seq<int>, u2: seq<int>, v1: seq<int>, v2: seq<int>)
    requires |u1| == |v1| && |u2| == |v2|
    ensures Dot(u1 + u2, v1 + v2) == Dot(u1, v1) + Dot(u2, v2)
    decreases |u2|
  {
    if |u2| > 0 {
      var u, v := u1 + u2, v1 + v2;
      var m := |u2| - 1;
      assert u[..|u| - 1] == u1 + u2[..m];
      assert v[..|v| - 1] == v1 + v2[..m];
      DotAppend(u1, u2[..m], v1, v2[..m]);
    } else {
      assert u1 + u2 == u1 && v1 + v2 == v1;
    }
  }

  /** The dot product does not depend on the order of its arguments. */
  lemma {:induction false} DotSymmetric(u: seq<int>, v: seq<int>)
    requires |u| == |v|
    ensures Dot(u, v) == Dot(v, u)
    decreases |u|
  {
    if |u| > 0 {
      DotSymmetric(u[..|u| - 1], v[..|v| - 1]);
    }
  }

  /** Dot is additive in its first argument: w = u + v entrywise. */
  lemma {:induction false} DotAdd(w: seq<int>, u: seq<int>, v: seq<int>, x: seq<int>)
    requires |w| == |u| == |v| == |x|
    requires forall t :: 0 <= t < |w| ==> w[t] == u[t] + v[t]
    ensures Dot(w, x) == Dot(u, x) + Dot(v, x)
    decreases |w|
  {
    if |w| > 0 {
      var m := |w| - 1;
      DotAdd(w[..m], u[..m], v[..m], x[..m]);
    }
  }

  /** Dot is subtractive in its first argument: w = u - v entrywise. */
  lemma {:induction false} DotSubtract(w: seq<int>, u: seq<int>, v: seq<int>, x: seq<int>)
    requires |w| == |u| == |v| == |x|
    requires forall t :: 0 <= t < |w| ==> w[t] == u[t] - v[t]
    ensures Dot(w, x) == Dot(u, x) - Dot(v, x)
    decreases |w|
  {
    if |w| > 0 {
      var m := |w| - 1;
      DotSubtract(w[..m], u[..m], v[..m], x[..m]);
    }
  }

  /** Column j of m, top to bottom. */
  function Column(m: Matrix, j: nat): (col: seq<int>)
    requires forall t :: 0 <= t < |m| ==> j < |m[t]|
    ensures |col| == |m| && forall t :: 0 <= t < |m| ==> col[t] == m[t][j]
  {
    seq(|m|, t requires 0 <= t < |m| => m[t][j])
  }

  /**
   * The product of two N x N matrices, the iterative algorithm's result:
   * entry (i, j) is row i of A times column j of B.
   */
  function Product(a: Matrix, b: Matrix): (c: Matrix)
    requires IsSquare(a, |a|) && IsSquare(b, |a|)
    ensures IsSquare(c, |a|)
  {
    seq(|a|, i requires 0 <= i < |a| => seq(|a|, j requires 0 <= j < |a| => Dot(a[i], Column(b, j))))
  }

  /** The transpose: row i of the result is column i of m. */
  function Transpose(m: Matrix): (t: Matrix)
    requires IsSquare(m, |m|)
    ensures IsSquare(t, |m|)
    ensures forall i, j {:trigger t[i][j]} :: 0 <= i < |m| && 0 <= j < |m| ==> t[i][j] == m[j][i]
  {
    seq(|m|, i requires 0 <= i < |m| => Column(m, i))
  }

  /** Transposing twice gives the matrix back. */
  lemma TransposeTwice(m: Matrix)
    requires IsSquare(m, |m|)
    ensures Transpose(Transpose(m)) == m
  {
    var t := Transpose(Transpose(m));
    forall i | 0 <= i < |m|
      ensures t[i] == m[i]
    {
    }
  }
}
