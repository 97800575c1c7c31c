// Row-major indexing: cell (r, c) of a grid with `cols` columns is number r * cols + c.
module Grid {

  lemma IndexInRange(rows: nat, cols: nat, r: nat, c: nat)
    requires r < rows && c < cols
    ensures 0 <= r * cols + c < rows * cols
  {
    assert (r + 1) * cols <= rows * cols;
  }

  lemma IndexInjective(cols: nat, r: nat, c: nat, r': nat, c': nat)
    requires c < cols && c' < cols
    ensures r * cols + c == r' * cols + c' <==> r == r' && c == c'
  {
    if r < r' {
      assert (r + 1) * cols <= r' * cols;
    } else if r' < r {
      assert (r' + 1) * cols <= r * cols;
    }
  }

  // Quotient and remainder recover the cell from its number.
  lemma IndexDivMod(cols: nat, r: nat, c: nat)
    requires c < cols
    ensures (r * cols + c) / cols == r && (r * cols + c) % cols == c
  {
    var m := r * cols + c;
    assert m == m / cols * cols + m % cols;
    IndexInjective(cols, m / cols, m % cols, r, c);
  }

  lemma DivModOf(m: nat, cols: nat)
    requires cols > 0
    ensures m / cols >= 0 && 0 <= m % cols < cols && m == m / cols * cols + m % cols
  {
  }

  lemma Product(a: nat, b: nat)
    ensures a * b >= 0
  {
  }

  lemma ProductMonotone(a: nat, a': nat, b: nat)
    requires a <= a'
    ensures a * b <= a' * b
  {
  }

  lemma ProductStep(a: nat, b: nat)
    ensures (a + 1) * b == a * b + b
  {
  }

  lemma QuotientAtLeast(m: nat, d: nat, k: nat)
    requires d > 0 && k * d <= m
    ensures m / d >= k
  {
    DivModOf(m, d);
    ProductStep(m / d, d);
    if m / d < k { ProductMonotone(m / d + 1, k, d); }
  }
}
