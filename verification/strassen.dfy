/**
 * strassenMultiplication of tarea1/matrix.cpp: split both N x N operands into
 * four K x K quadrants (K = N / 2), form the ten sums S1..S10, multiply
 * recursively seven times (P1..P7), and assemble the four quadrants of the
 * result from the P's. The recursion bottoms out at N = 1 with the iterative
 * product. It computes the matrix product whenever N is a power of two.
 */
module Strassen {
  import opened MatrixSpec

  /** 1, 2, 4, 8, ...: the sizes for which halving always leaves equal halves down to 1. */
  predicate IsPowerOfTwo(n: nat)
    decreases n
  {
    n == 1 || (n >= 2 && n % 2 == 0 && IsPowerOfTwo(n / 2))
  }

  /** The K x K block of m whose top-left corner is (row, col): A11 is (0, 0), A12 (0, K), A21 (K, 0), A22 (K, K). */
  function Quadrant(m: Matrix, k: nat, row: nat, col: nat): (q: Matrix)
    requires IsSquare(m, |m|) && row + k <= |m| && col + k <= |m|
    ensures IsSquare(q, k)
    ensures forall i, j {:trigger q[i][j]} :: 0 <= i < k && 0 <= j < k ==> q[i][j] == m[row + i][col + j]
  {
    seq(k, i requires 0 <= i < k => seq(k, j requires 0 <= j < k => m[row + i][col + j]))
  }

  /** The 2K x 2K matrix with the given quadrants, as the final copy loop of strassenMultiplication assembles it. */
  function Join(c11: Matrix, c12: Matrix, c21: Matrix, c22: Matrix): (m: Matrix)
    requires IsSquare(c11, |c11|) && IsSquare(c12, |c11|) && IsSquare(c21, |c11|) && IsSquare(c22, |c11|)
    ensures IsSquare(m, 2 * |c11|)
  {
    var k := |c11|;
    seq(2 * k, i requires 0 <= i < 2 * k => if i < k then c11[i] + c12[i] else c21[i - k] + c22[i - k])
  }

  /** Splitting a 2K x 2K matrix into its quadrants and joining them back gives the matrix. */
  lemma JoinQuadrants(m: Matrix, k: nat)
    requires IsSquare(m, 2 * k)
    ensures Join(Quadrant(m, k, 0, 0), Quadrant(m, k, 0, k), Quadrant(m, k, k, 0), Quadrant(m, k, k, k)) == m
  {
    var joined := Join(Quadrant(m, k, 0, 0), Quadrant(m, k, 0, k), Quadrant(m, k, k, 0), Quadrant(m, k, k, k));
    forall r | 0 <= r < 2 * k
      ensures joined[r] == m[r]
    {
      if r < k {
        RowOfHalves(m, k, 0, r);
      } else {
        RowOfHalves(m, k, k, r - k);
      }
    }
  }

  /** Joining four quadrants and splitting the result gives the four quadrants back. */
  lemma QuadrantsOfJoin(c11: Matrix, c12: Matrix, c21: Matrix, c22: Matrix)
    requires IsSquare(c11, |c11|) && IsSquare(c12, |c11|) && IsSquare(c21, |c11|) && IsSquare(c22, |c11|)
    ensures var m, k := Join(c11, c12, c21, c22), |c11|;
            Quadrant(m, k, 0, 0) == c11 && Quadrant(m, k, 0, k) == c12 &&
            Quadrant(m, k, k, 0) == c21 && Quadrant(m, k, k, k) == c22
  {
    var m, k := Join(c11, c12, c21, c22), |c11|;
    forall i | 0 <= i < k
      ensures Quadrant(m, k, 0, 0)[i] == c11[i] && Quadrant(m, k, 0, k)[i] == c12[i]
      ensures Quadrant(m, k, k, 0)[i] == c21[i] && Quadrant(m, k, k, k)[i] == c22[i]
    {
      assert m[i] == c11[i] + c12[i] && m[k + i] == c21[i] + c22[i];
      assert m[i][0..k] == c11[i] && m[i][k..2 * k] == c12[i];
      assert m[k + i][0..k] == c21[i] && m[k + i][k..2 * k] == c22[i];
    }
  }

  /** The quadrants A11, A12, A21, A22 and B11, B12, B21, B22 of the two operands. */
  datatype Blocks = Blocks(a11: Matrix, a12: Matrix, a21: Matrix, a22: Matrix,
                           b11: Matrix, b12: Matrix, b21: Matrix, b22: Matrix)

  /** Every quadrant is K x K. */
  predicate BlocksOfSize(q: Blocks, k: nat)
  {
    IsSquare(q.a11, k) && IsSquare(q.a12, k) && IsSquare(q.a21, k) && IsSquare(q.a22, k) &&
    IsSquare(q.b11, k) && IsSquare(q.b12, k) && IsSquare(q.b21, k) && IsSquare(q.b22, k)
  }

  /** Two K x K matrices with the same entries are equal. */
  lemma SameEntries(c: Matrix, d: Matrix, k: nat)
    requires IsSquare(c, k) && IsSquare(d, k)
    requires forall i, j :: 0 <= i < k && 0 <= j < k ==> c[i][j] == d[i][j]
    ensures c == d
  {
    forall i | 0 <= i < k
      ensures c[i] == d[i]
    {
    }
  }

  /** The first copy loop of strassenMultiplication: the quadrants of A and B, each K x K. */
  function Split(a: Matrix, b: Matrix, k: nat): (q: Blocks)
    requires IsSquare(a, 2 * k) && IsSquare(b, 2 * k)
    ensures BlocksOfSize(q, k)
  {
    Blocks(Quadrant(a, k, 0, 0), Quadrant(a, k, 0, k), Quadrant(a, k, k, 0), Quadrant(a, k, k, k),
           Quadrant(b, k, 0, 0), Quadrant(b, k, 0, k), Quadrant(b, k, k, 0), Quadrant(b, k, k, k))
  }

  /** The quadrants of the first copy loop join back into A and B: the split loses nothing. */
  lemma SplitJoins(a: Matrix, b: Matrix, k: nat)
    requires IsSquare(a, 2 * k) && IsSquare(b, 2 * k)
    ensures var q := Split(a, b, k);
            Join(q.a11, q.a12, q.a21, q.a22) == a && Join(q.b11, q.b12, q.b21, q.b22) == b
  {
    JoinQuadrants(a, k);
    JoinQuadrants(b, k);
  }

  /** C = C11, C12, C21, C22 from P1..P7, as strassenMultiplication combines them. */
  function Combine(p1: Matrix, p2: Matrix, p3: Matrix, p4: Matrix, p5: Matrix, p6: Matrix, p7: Matrix): (c: Matrix)
    requires IsSquare(p1, |p1|) && IsSquare(p2, |p1|) && IsSquare(p3, |p1|) && IsSquare(p4, |p1|)
    requires IsSquare(p5, |p1|) && IsSquare(p6, |p1|) && IsSquare(p7, |p1|)
    ensures IsSquare(c, 2 * |p1|)
  {
    Join(Subtract(Add(Add(p5, p4), p6), p2), Add(p1, p2), Add(p3, p4), Subtract(Subtract(Add(p5, p1), p3), p7))
  }

  /**
   * strassenMultiplication(A, B) for N x N operands, N a power of two. The
   * operands are values: nothing the caller holds is changed.
   */
  function StrassenMultiplication(a: Matrix, b: Matrix): (c: Matrix)
    requires IsPowerOfTwo(|a|) && IsSquare(a, |a|) && IsSquare(b, |a|)
    ensures IsSquare(c, |a|)
    decreases |a|
  {
    if |a| == 1 then Product(a, b)
    else
      var k := |a| / 2;
      assert IsPowerOfTwo(k) && |a| == 2 * k;
      var q := Split(a, b, k);
      var s1 := Subtract(q.b12, q.b22);
      var s2 := Add(q.a11, q.a12);
      var s3 := Add(q.a21, q.a22);
      var s4 := Subtract(q.b21, q.b11);
      var s5 := Add(q.a11, q.a22);
      var s6 := Add(q.b11, q.b22);
      var s7 := Subtract(q.a12, q.a22);
      var s8 := Add(q.b21, q.b22);
      var s9 := Subtract(q.a11, q.a21);
      var s10 := Add(q.b11, q.b12);
      var p1 := StrassenMultiplication(q.a11, s1);
      var p2 := StrassenMultiplication(s2, q.b22);
      var p3 := StrassenMultiplication(s3, q.b11);
      var p4 := StrassenMultiplication(q.a22, s4);
      var p5 := StrassenMultiplication(s5, s6);
      var p6 := StrassenMultiplication(s7, s8);
      var p7 := StrassenMultiplication(s9, s10);
      Combine(p1, p2, p3, p4, p5, p6, p7)
  }

  /** For N = 1 the result is the single product A[0][0] * B[0][0]. */
  lemma StrassenBase(a: Matrix, b: Matrix)
    requires IsSquare(a, 1) && IsSquare(b, 1)
    ensures StrassenMultiplication(a, b) == [[a[0][0] * b[0][0]]]
  {
    var c := StrassenMultiplication(a, b);
    assert c[0][0] == Dot(a[0], Column(b, 0));
    assert a[0][..0] == [] && Column(b, 0)[..0] == [];
    assert c[0] == [a[0][0] * b[0][0]];
  }

  /** (X1 + X2) Y == X1 Y + X2 Y, entry by entry. */
  lemma ProductAddLeft(x1: Matrix, x2: Matrix, y: Matrix, i: nat, j: nat)
    requires IsSquare(x1, |x1|) && IsSquare(x2, |x1|) && IsSquare(y, |x1|) && i < |x1| && j < |x1|
    ensures Product(Add(x1, x2), y)[i][j] == Product(x1, y)[i][j] + Product(x2, y)[i][j]
  {
    DotAdd(Add(x1, x2)[i], x1[i], x2[i], Column(y, j));
  }

  /** (X1 - X2) Y == X1 Y - X2 Y, entry by entry. */
  lemma ProductSubtractLeft(x1: Matrix, x2: Matrix, y: Matrix, i: nat, j: nat)
    requires IsSquare(x1, |x1|) && IsSquare(x2, |x1|) && IsSquare(y, |x1|) && i < |x1| && j < |x1|
    ensures Product(Subtract(x1, x2), y)[i][j] == Product(x1, y)[i][j] - Product(x2, y)[i][j]
  {
    DotSubtract(Subtract(x1, x2)[i], x1[i], x2[i], Column(y, j));
  }

  /** X (Y1 + Y2) == X Y1 + X Y2, entry by entry. */
  lemma ProductAddRight(x: Matrix, y1: Matrix, y2: Matrix, i: nat, j: nat)
    requires IsSquare(x, |x|) && IsSquare(y1, |x|) && IsSquare(y2, |x|) && i < |x| && j < |x|
    ensures Product(x, Add(y1, y2))[i][j] == Product(x, y1)[i][j] + Product(x, y2)[i][j]
  {
    var w, u, v := Column(Add(y1, y2), j), Column(y1, j), Column(y2, j);
    DotSymmetric(x[i], w);
    DotSymmetric(x[i], u);
    DotSymmetric(x[i], v);
    DotAdd(w, u, v, x[i]);
  }

  /** X (Y1 - Y2) == X Y1 - X Y2, entry by entry. */
  lemma ProductSubtractRight(x: Matrix, y1: Matrix, y2: Matrix, i: nat, j: nat)
    requires IsSquare(x, |x|) && IsSquare(y1, |x|) && IsSquare(y2, |x|) && i < |x| && j < |x|
    ensures Product(x, Subtract(y1, y2))[i][j] == Product(x, y1)[i][j] - Product(x, y2)[i][j]
  {
    var w, u, v := Column(Subtract(y1, y2), j), Column(y1, j), Column(y2, j);
    DotSymmetric(x[i], w);
    DotSymmetric(x[i], u);
    DotSymmetric(x[i], v);
    DotSubtract(w, u, v, x[i]);
  }

  /**
   * The block formula: the entry at (row + i, col + j) of A B is that entry of
   * the row quadrant of A times the column quadrant of B, summed over the two
   * halves of the inner index.
   */
  lemma ProductOfQuadrants(a: Matrix, b: Matrix, k: nat, row: nat, col: nat, i: nat, j: nat)
    requires IsSquare(a, 2 * k) && IsSquare(b, 2 * k)
    requires row + k <= 2 * k && col + k <= 2 * k && i < k && j < k
    ensures Product(a, b)[row + i][col + j] ==
            Product(Quadrant(a, k, row, 0), Quadrant(b, k, 0, col))[i][j] +
            Product(Quadrant(a, k, row, k), Quadrant(b, k, k, col))[i][j]
  {
    DotOfHalves(a, b, k, row, col, i, j);
  }

  /** Row row + i of A times column col + j of B, split at the middle of the inner index. */
  lemma DotOfHalves(a: Matrix, b: Matrix, k: nat, row: nat, col: nat, i: nat, j: nat)
    requires IsSquare(a, 2 * k) && IsSquare(b, 2 * k)
    requires row + k <= 2 * k && col + k <= 2 * k && i < k && j < k
    ensures Dot(a[row + i], Column(b, col + j)) ==
            Dot(Quadrant(a, k, row, 0)[i], Column(Quadrant(b, k, 0, col), j)) +
            Dot(Quadrant(a, k, row, k)[i], Column(Quadrant(b, k, k, col), j))
  {
    RowOfHalves(a, k, row, i);
    ColumnOfHalves(b, k, col, j);
    DotSplit(a[row + i], Column(b, col + j), Quadrant(a, k, row, 0)[i], Quadrant(a, k, row, k)[i],
             Column(Quadrant(b, k, 0, col), j), Column(Quadrant(b, k, k, col), j));
  }

  /** A dot product of two sequences cut at the same place is the sum of the dot products of the pieces. */
  lemma DotSplit(u: seq<int>, v: seq<int>, u1: seq<int>, u2: seq<int>, v1: seq<int>, v2: seq<int>)
    requires |u1| == |v1| && |u2| == |v2| && u == u1 + u2 && v == v1 + v2
    ensures Dot(u, v) == Dot(u1, v1) + Dot(u2, v2)
  {
    DotAppend(u1, u2, v1, v2);
  }

  /** Row row + i of a 2K x 2K matrix is row i of its left quadrant followed by row i of its right one. */
  lemma RowOfHalves(m: Matrix, k: nat, row: nat, i: nat)
    requires IsSquare(m, 2 * k) && row + k <= 2 * k && i < k
    ensures m[row + i] == Quadrant(m, k, row, 0)[i] + Quadrant(m, k, row, k)[i]
  {
    var halves := Quadrant(m, k, row, 0)[i] + Quadrant(m, k, row, k)[i];
    forall t | 0 <= t < 2 * k
      ensures m[row + i][t] == halves[t]
    {
      if t < k {
        assert halves[t] == Quadrant(m, k, row, 0)[i][t];
      } else {
        assert halves[t] == Quadrant(m, k, row, k)[i][t - k];
      }
    }
  }

  /** Column col + j of a 2K x 2K matrix is column j of its upper quadrant followed by column j of its lower one. */
  lemma ColumnOfHalves(m: Matrix, k: nat, col: nat, j: nat)
    requires IsSquare(m, 2 * k) && col + k <= 2 * k && j < k
    ensures Column(m, col + j) == Column(Quadrant(m, k, 0, col), j) + Column(Quadrant(m, k, k, col), j)
  {
    var upper, lower := Quadrant(m, k, 0, col), Quadrant(m, k, k, col);
    var whole, halves := Column(m, col + j), Column(upper, j) + Column(lower, j);
    forall t | 0 <= t < 2 * k
      ensures whole[t] == halves[t]
    {
      if t < k {
        assert halves[t] == upper[t][j];
      } else {
        assert halves[t] == lower[t - k][j];
      }
    }
  }

  /**
   * The seven products of strassenMultiplication, P1..P7, when each
   * recursive call returns the true product.
   */
  datatype Products = Products(p1: Matrix, p2: Matrix, p3: Matrix, p4: Matrix, p5: Matrix, p6: Matrix, p7: Matrix)

  /** P1 = A11 S1, P2 = S2 B22, ..., P7 = S9 S10, each the true product. */
  function TrueProducts(q: Blocks, k: nat): (p: Products)
    requires BlocksOfSize(q, k)
    ensures IsSquare(p.p1, k) && IsSquare(p.p2, k) && IsSquare(p.p3, k) && IsSquare(p.p4, k)
    ensures IsSquare(p.p5, k) && IsSquare(p.p6, k) && IsSquare(p.p7, k)
  {
    Products(Product(q.a11, Subtract(q.b12, q.b22)), Product(Add(q.a11, q.a12), q.b22),
             Product(Add(q.a21, q.a22), q.b11), Product(q.a22, Subtract(q.b21, q.b11)),
             Product(Add(q.a11, q.a22), Add(q.b11, q.b22)), Product(Subtract(q.a12, q.a22), Add(q.b21, q.b22)),
             Product(Subtract(q.a11, q.a21), Add(q.b11, q.b12)))
  }

  /** C11 = P5 + P4 + P6 - P2 is A11 B11 + A12 B21, entry by entry. */
  lemma UpperLeft(q: Blocks, k: nat, i: nat, j: nat)
    requires BlocksOfSize(q, k) && i < k && j < k
    ensures var p := TrueProducts(q, k);
            Subtract(Add(Add(p.p5, p.p4), p.p6), p.p2)[i][j] == Product(q.a11, q.b11)[i][j] + Product(q.a12, q.b21)[i][j]
  {
    var p := TrueProducts(q, k);
    ProductAddLeft(q.a11, q.a22, Add(q.b11, q.b22), i, j);
    ProductAddRight(q.a11, q.b11, q.b22, i, j);
    ProductAddRight(q.a22, q.b11, q.b22, i, j);
    ProductSubtractRight(q.a22, q.b21, q.b11, i, j);
    ProductSubtractLeft(q.a12, q.a22, Add(q.b21, q.b22), i, j);
    ProductAddRight(q.a12, q.b21, q.b22, i, j);
    ProductAddRight(q.a22, q.b21, q.b22, i, j);
    ProductAddLeft(q.a11, q.a12, q.b22, i, j);
    var c1 := Add(p.p5, p.p4);
    var c2 := Add(c1, p.p6);
    assert c1[i][j] == p.p5[i][j] + p.p4[i][j];
    assert c2[i][j] == c1[i][j] + p.p6[i][j];
  }

  /** C12 = P1 + P2 is A11 B12 + A12 B22, entry by entry. */
  lemma UpperRight(q: Blocks, k: nat, i: nat, j: nat)
    requires BlocksOfSize(q, k) && i < k && j < k
    ensures var p := TrueProducts(q, k);
            Add(p.p1, p.p2)[i][j] == Product(q.a11, q.b12)[i][j] + Product(q.a12, q.b22)[i][j]
  {
    ProductSubtractRight(q.a11, q.b12, q.b22, i, j);
    ProductAddLeft(q.a11, q.a12, q.b22, i, j);
  }

  /** C21 = P3 + P4 is A21 B11 + A22 B21, entry by entry. */
  lemma LowerLeft(q: Blocks, k: nat, i: nat, j: nat)
    requires BlocksOfSize(q, k) && i < k && j < k
    ensures var p := TrueProducts(q, k);
            Add(p.p3, p.p4)[i][j] == Product(q.a21, q.b11)[i][j] + Product(q.a22, q.b21)[i][j]
  {
    ProductAddLeft(q.a21, q.a22, q.b11, i, j);
    ProductSubtractRight(q.a22, q.b21, q.b11, i, j);
  }

  /** C22 = P5 + P1 - P3 - P7 is A21 B12 + A22 B22, entry by entry. */
  lemma LowerRight(q: Blocks, k: nat, i: nat, j: nat)
    requires BlocksOfSize(q, k) && i < k && j < k
    ensures var p := TrueProducts(q, k);
            Subtract(Subtract(Add(p.p5, p.p1), p.p3), p.p7)[i][j] == Product(q.a21, q.b12)[i][j] + Product(q.a22, q.b22)[i][j]
  {
    var p := TrueProducts(q, k);
    ProductAddLeft(q.a11, q.a22, Add(q.b11, q.b22), i, j);
    ProductAddRight(q.a11, q.b11, q.b22, i, j);
    ProductAddRight(q.a22, q.b11, q.b22, i, j);
    ProductSubtractRight(q.a11, q.b12, q.b22, i, j);
    ProductAddLeft(q.a21, q.a22, q.b11, i, j);
    ProductSubtractLeft(q.a11, q.a21, Add(q.b11, q.b12), i, j);
    ProductAddRight(q.a11, q.b11, q.b12, i, j);
    ProductAddRight(q.a21, q.b11, q.b12, i, j);
    var c1 := Add(p.p5, p.p1);
    var c2 := Subtract(c1, p.p3);
    assert c1[i][j] == p.p5[i][j] + p.p1[i][j];
    assert c2[i][j] == c1[i][j] - p.p3[i][j];
  }

  /** With the true products, C11 agrees with A B at entry (i, j) of its upper-left quadrant. */
  lemma UpperLeftEntry(a: Matrix, b: Matrix, k: nat, i: nat, j: nat)
    requires IsSquare(a, 2 * k) && IsSquare(b, 2 * k) && i < k && j < k
    ensures var p := TrueProducts(Split(a, b, k), k);
            Subtract(Add(Add(p.p5, p.p4), p.p6), p.p2)[i][j] == Quadrant(Product(a, b), k, 0, 0)[i][j]
  {
    var q := Split(a, b, k);
    var p := TrueProducts(q, k);
    var blockSum := Product(q.a11, q.b11)[i][j] + Product(q.a12, q.b21)[i][j];
    assert Quadrant(Product(a, b), k, 0, 0)[i][j] == blockSum by {
      assert q.a11 == Quadrant(a, k, 0, 0) && q.a12 == Quadrant(a, k, 0, k);
      assert q.b11 == Quadrant(b, k, 0, 0) && q.b21 == Quadrant(b, k, k, 0);
      ProductOfQuadrants(a, b, k, 0, 0, i, j);
    }
    UpperLeft(q, k, i, j);
  }

  /** With the true products, C11 is the upper-left quadrant of A B. */
  lemma UpperLeftQuadrant(a: Matrix, b: Matrix, k: nat)
    requires IsSquare(a, 2 * k) && IsSquare(b, 2 * k)
    ensures var p := TrueProducts(Split(a, b, k), k);
            Subtract(Add(Add(p.p5, p.p4), p.p6), p.p2) == Quadrant(Product(a, b), k, 0, 0)
  {
    var p := TrueProducts(Split(a, b, k), k);
    var c, d := Subtract(Add(Add(p.p5, p.p4), p.p6), p.p2), Quadrant(Product(a, b), k, 0, 0);
    forall i, j | 0 <= i < k && 0 <= j < k
      ensures c[i][j] == d[i][j]
    {
      UpperLeftEntry(a, b, k, i, j);
    }
    SameEntries(c, d, k);
  }

  /** With the true products, C12 agrees with A B at entry (i, j) of its upper-right quadrant. */
  lemma UpperRightEntry(a: Matrix, b: Matrix, k: nat, i: nat, j: nat)
    requires IsSquare(a, 2 * k) && IsSquare(b, 2 * k) && i < k && j < k
    ensures var p := TrueProducts(Split(a, b, k), k);
            Add(p.p1, p.p2)[i][j] == Quadrant(Product(a, b), k, 0, k)[i][j]
  {
    var q := Split(a, b, k);
    var p := TrueProducts(q, k);
    var blockSum := Product(q.a11, q.b12)[i][j] + Product(q.a12, q.b22)[i][j];
    assert Quadrant(Product(a, b), k, 0, k)[i][j] == blockSum by {
      assert q.a11 == Quadrant(a, k, 0, 0) && q.a12 == Quadrant(a, k, 0, k);
      assert q.b12 == Quadrant(b, k, 0, k) && q.b22 == Quadrant(b, k, k, k);
      ProductOfQuadrants(a, b, k, 0, k, i, j);
    }
    UpperRight(q, k, i, j);
  }

  /** With the true products, C12 is the upper-right quadrant of A B. */
  lemma UpperRightQuadrant(a: Matrix, b: Matrix, k: nat)
    requires IsSquare(a, 2 * k) && IsSquare(b, 2 * k)
    ensures var p := TrueProducts(Split(a, b, k), k);
            Add(p.p1, p.p2) == Quadrant(Product(a, b), k, 0, k)
  {
    var p := TrueProducts(Split(a, b, k), k);
    var c, d := Add(p.p1, p.p2), Quadrant(Product(a, b), k, 0, k);
    forall i, j | 0 <= i < k && 0 <= j < k
      ensures c[i][j] == d[i][j]
    {
      UpperRightEntry(a, b, k, i, j);
    }
    SameEntries(c, d, k);
  }

  /** With the true products, C21 agrees with A B at entry (i, j) of its lower-left quadrant. */
  lemma LowerLeftEntry(a: Matrix, b: Matrix, k: nat, i: nat, j: nat)
    requires IsSquare(a, 2 * k) && IsSquare(b, 2 * k) && i < k && j < k
    ensures var p := TrueProducts(Split(a, b, k), k);
            Add(p.p3, p.p4)[i][j] == Quadrant(Product(a, b), k, k, 0)[i][j]
  {
    var q := Split(a, b, k);
    var p := TrueProducts(q, k);
    var blockSum := Product(q.a21, q.b11)[i][j] + Product(q.a22, q.b21)[i][j];
    assert Quadrant(Product(a, b), k, k, 0)[i][j] == blockSum by {
      assert q.a21 == Quadrant(a, k, k, 0) && q.a22 == Quadrant(a, k, k, k);
      assert q.b11 == Quadrant(b, k, 0, 0) && q.b21 == Quadrant(b, k, k, 0);
      ProductOfQuadrants(a, b, k, k, 0, i, j);
    }
    LowerLeft(q, k, i, j);
  }

  /** With the true products, C21 is the lower-left quadrant of A B. */
  lemma LowerLeftQuadrant(a: Matrix, b: Matrix, k: nat)
    requires IsSquare(a, 2 * k) && IsSquare(b, 2 * k)
    ensures var p := TrueProducts(Split(a, b, k), k);
            Add(p.p3, p.p4) == Quadrant(Product(a, b), k, k, 0)
  {
    var p := TrueProducts(Split(a, b, k), k);
    var c, d := Add(p.p3, p.p4), Quadrant(Product(a, b), k, k, 0);
    forall i, j | 0 <= i < k && 0 <= j < k
      ensures c[i][j] == d[i][j]
    {
      LowerLeftEntry(a, b, k, i, j);
    }
    SameEntries(c, d, k);
  }

  /** With the true products, C22 agrees with A B at entry (i, j) of its lower-right quadrant. */
  lemma LowerRightEntry(a: Matrix, b: Matrix, k: nat, i: nat, j: nat)
    requires IsSquare(a, 2 * k) && IsSquare(b, 2 * k) && i < k && j < k
    ensures var p := TrueProducts(Split(a, b, k), k);
            Subtract(Subtract(Add(p.p5, p.p1), p.p3), p.p7)[i][j] == Quadrant(Product(a, b), k, k, k)[i][j]
  {
    var q := Split(a, b, k);
    var p := TrueProducts(q, k);
    var blockSum := Product(q.a21, q.b12)[i][j] + Product(q.a22, q.b22)[i][j];
    assert Quadrant(Product(a, b), k, k, k)[i][j] == blockSum by {
      assert q.a21 == Quadrant(a, k, k, 0) && q.a22 == Quadrant(a, k, k, k);
      assert q.b12 == Quadrant(b, k, 0, k) && q.b22 == Quadrant(b, k, k, k);
      ProductOfQuadrants(a, b, k, k, k, i, j);
    }
    LowerRight(q, k, i, j);
  }

  /** With the true products, C22 is the lower-right quadrant of A B. */
  lemma LowerRightQuadrant(a: Matrix, b: Matrix, k: nat)
    requires IsSquare(a, 2 * k) && IsSquare(b, 2 * k)
    ensures var p := TrueProducts(Split(a, b, k), k);
            Subtract(Subtract(Add(p.p5, p.p1), p.p3), p.p7) == Quadrant(Product(a, b), k, k, k)
  {
    var p := TrueProducts(Split(a, b, k), k);
    var c, d := Subtract(Subtract(Add(p.p5, p.p1), p.p3), p.p7), Quadrant(Product(a, b), k, k, k);
    forall i, j | 0 <= i < k && 0 <= j < k
      ensures c[i][j] == d[i][j]
    {
      LowerRightEntry(a, b, k, i, j);
    }
    SameEntries(c, d, k);
  }

  /** Combining the true products as strassenMultiplication does gives A B. */
  lemma CombineProducts(a: Matrix, b: Matrix, k: nat)
    requires IsSquare(a, 2 * k) && IsSquare(b, 2 * k)
    ensures var p := TrueProducts(Split(a, b, k), k);
            Combine(p.p1, p.p2, p.p3, p.p4, p.p5, p.p6, p.p7) == Product(a, b)
  {
    UpperLeftQuadrant(a, b, k);
    UpperRightQuadrant(a, b, k);
    LowerLeftQuadrant(a, b, k);
    LowerRightQuadrant(a, b, k);
    JoinQuadrants(Product(a, b), k);
  }

  /** For N a power of two, strassenMultiplication computes the matrix product. */
  lemma {:induction false} StrassenIsProduct(a: Matrix, b: Matrix)
    requires IsPowerOfTwo(|a|) && IsSquare(a, |a|) && IsSquare(b, |a|)
    ensures StrassenMultiplication(a, b) == Product(a, b)
    decreases |a|
  {
    if |a| > 1 {
      var k := |a| / 2;
      var q := Split(a, b, k);
      StrassenIsProduct(q.a11, Subtract(q.b12, q.b22));
      StrassenIsProduct(Add(q.a11, q.a12), q.b22);
      StrassenIsProduct(Add(q.a21, q.a22), q.b11);
      StrassenIsProduct(q.a22, Subtract(q.b21, q.b11));
      StrassenIsProduct(Add(q.a11, q.a22), Add(q.b11, q.b22));
      StrassenIsProduct(Subtract(q.a12, q.a22), Add(q.b21, q.b22));
      StrassenIsProduct(Subtract(q.a11, q.a21), Add(q.b11, q.b12));
      CombineProducts(a, b, k);
    }
  }

  /** A two-term dot product written out. */
  lemma DotOfTwo(u: seq<int>, v: seq<int>)
    requires |u| == 2 && |v| == 2
    ensures Dot(u, v) == u[0] * v[0] + u[1] * v[1]
  {
    assert Dot(u[..1], v[..1]) == u[0] * v[0] by {
      assert u[..1][..0] == [] && v[..1][..0] == [];
    }
  }

  /** The 2 x 2 product written out. */
  lemma ProductOfTwo(a: Matrix, b: Matrix)
    requires IsSquare(a, 2) && IsSquare(b, 2)
    ensures Product(a, b) == [[a[0][0] * b[0][0] + a[0][1] * b[1][0], a[0][0] * b[0][1] + a[0][1] * b[1][1]],
                              [a[1][0] * b[0][0] + a[1][1] * b[1][0], a[1][0] * b[0][1] + a[1][1] * b[1][1]]]
  {
    var c := Product(a, b);
    DotOfTwo(a[0], Column(b, 0));
    DotOfTwo(a[0], Column(b, 1));
    DotOfTwo(a[1], Column(b, 0));
    DotOfTwo(a[1], Column(b, 1));
    assert c[0] == [c[0][0], c[0][1]] && c[1] == [c[1][0], c[1][1]];
  }

  /** A worked example: [[1, 2], [3, 4]] times [[5, 6], [7, 8]] by Strassen's method. */
  lemma StrassenExample(a: Matrix, b: Matrix)
    requires a == [[1, 2], [3, 4]] && b == [[5, 6], [7, 8]]
    ensures StrassenMultiplication(a, b) == [[19, 22], [43, 50]]
  {
    assert IsPowerOfTwo(|a|);
    StrassenIsProduct(a, b);
    ProductOfTwo(a, b);
  }
}
