/** Division facts for row-major index arithmetic. */
module Arithmetic {

  /** i*m + j is the only decomposition with j below m. */
  lemma DivMod(i: nat, m: nat, j: nat)
    requires j < m
    ensures (i * m + j) / m == i && (i * m + j) % m == j
  {
    var n := i * m + j;
    var q, r := n / m, n % m;
    assert n == m * q + r;
    Apart(q, i, m, r, j);
  }

  lemma Apart(q: int, i: int, m: int, r: int, j: int)
    requires 0 <= r < m && 0 <= j < m && m * q + r == i * m + j
    ensures q == i && r == j
  {
    assert (q - i) * m == j - r && (i - q) * m == r - j;
    if q > i {
      AtLeast(q - i, m);
      assert false;
    } else if q < i {
      AtLeast(i - q, m);
      assert false;
    }
  }

  lemma AtLeast(d: int, m: int)
    requires d >= 1 && m >= 0
    ensures d * m >= m
  {}

  /** A multiple of m, m at a time. */
  lemma Multiple(n: nat, m: nat)
    requires m > 0 && n % m == 0
    ensures n == (n / m) * m
    ensures n > 0 ==> n >= m && (n - m) % m == 0 && (n - m) / m == n / m - 1
  {
    if n > 0 {
      var q := n / m;
      assert q > 0;
      assert n - m == (q - 1) * m + 0;
      DivMod(q - 1, m, 0);
    }
  }

  /** A row index and a column index make an index inside the tensor. */
  lemma Within(i: nat, j: nat, rows: nat, cols: nat)
    requires i < rows && j < cols
    ensures i * cols + j < rows * cols
  {
    AtLeast(rows - i, cols);
    assert (rows - i) * cols == rows * cols - i * cols;
  }

  /** Every index of a tensor is one row and one column. */
  lemma Split(p: nat, rows: nat, cols: nat)
    requires p < rows * cols
    ensures cols > 0 && 0 <= p / cols < rows && 0 <= p % cols < cols && p == (p / cols) * cols + p % cols
  {
    assert cols > 0;
    var q := p / cols;
    assert p == q * cols + p % cols;
    if q >= rows {
      AtLeastMany(q, rows, cols);
      assert false;
    }
  }

  lemma AtLeastMany(a: int, b: int, m: int)
    requires a >= b && m >= 0
    ensures a * m >= b * m
  {}
}
