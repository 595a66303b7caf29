/** Matrices over the reals as rows, and their products. */
module Matrices {
  import opened Options

  type Matrix = seq<seq<real>>

  predicate Shape(a: Matrix, m: nat, n: nat) {
    |a| == m && forall i :: 0 <= i < m ==> |a[i]| == n
  }

  /** The first n terms of the sum of l[t] * b[t][j]. */
  function Sum(l: seq<real>, b: Matrix, n: nat, j: nat): real
    requires n <= |l| && n <= |b| && forall t :: 0 <= t < n ==> j < |b[t]|
  {
    if n == 0 then 0.0 else Sum(l, b, n - 1, j) + l[n - 1] * b[n - 1][j]
  }

  /** The matrix product. */
  function Product(a: Matrix, b: Matrix, m: nat, k: nat, n: nat): (c: Matrix)
    requires Shape(a, m, k) && Shape(b, k, n)
    ensures Shape(c, m, n) && forall i, j :: 0 <= i < m && 0 <= j < n ==> c[i][j] == Sum(a[i], b, k, j)
  {
    seq(m, i requires 0 <= i < m => seq(n, j requires 0 <= j < n => Sum(a[i], b, k, j)))
  }

  function Delta(i: int, j: int): real {
    if i == j then 1.0 else 0.0
  }

  function Identity(n: nat): (c: Matrix)
    ensures Shape(c, n, n) && forall i, j :: 0 <= i < n && 0 <= j < n ==> c[i][j] == Delta(i, j)
  {
    seq(n, i requires 0 <= i < n => seq(n, j requires 0 <= j < n => Delta(i, j)))
  }

  /** Matrices are equal when their entries are. */
  lemma {:induction false} SameEntries(a: Matrix, b: Matrix, m: nat, n: nat)
    requires Shape(a, m, n) && Shape(b, m, n)
    requires forall i, j :: 0 <= i < m && 0 <= j < n ==> a[i][j] == b[i][j]
    ensures a == b
  {
    forall i | 0 <= i < m ensures a[i] == b[i] {
      assert forall j :: 0 <= j < n ==> a[i][j] == b[i][j];
    }
  }

  // ---------------------------------------------------------------- sums

  /** The sum looks only at its terms. */
  lemma {:induction false} SameTerms(l: seq<real>, b: Matrix, l2: seq<real>, b2: Matrix, n: nat, j: nat, j2: nat)
    requires n <= |l| && n <= |b| && n <= |l2| && n <= |b2|
    requires forall t :: 0 <= t < n ==> j < |b[t]| && j2 < |b2[t]|
    requires forall t :: 0 <= t < n ==> l[t] * b[t][j] == l2[t] * b2[t][j2]
    ensures Sum(l, b, n, j) == Sum(l2, b2, n, j2)
  {
    if n > 0 { SameTerms(l, b, l2, b2, n - 1, j, j2); }
  }

  /** Changing one term changes the sum by the change of that term. */
  lemma {:induction false} OneTerm(l: seq<real>, b: Matrix, l2: seq<real>, b2: Matrix, n: nat, j: nat, p: nat)
    requires p < n <= |l| && n <= |b| && n <= |l2| && n <= |b2|
    requires forall t :: 0 <= t < n ==> j < |b[t]| && j < |b2[t]|
    requires forall t :: 0 <= t < n && t != p ==> l[t] * b[t][j] == l2[t] * b2[t][j]
    ensures Sum(l2, b2, n, j) == Sum(l, b, n, j) + (l2[p] * b2[p][j] - l[p] * b[p][j])
  {
    if p == n - 1 {
      SameTerms(l, b, l2, b2, p, j, j);
    } else {
      OneTerm(l, b, l2, b2, n - 1, j, p);
      assert l[n - 1] * b[n - 1][j] == l2[n - 1] * b2[n - 1][j];
    }
    assert Sum(l, b, n, j) == Sum(l, b, n - 1, j) + l[n - 1] * b[n - 1][j];
    assert Sum(l2, b2, n, j) == Sum(l2, b2, n - 1, j) + l2[n - 1] * b2[n - 1][j];
  }

  /** Changing two terms without changing their total keeps the sum. */
  lemma {:induction false} TwoTerms(l: seq<real>, b: Matrix, l2: seq<real>, b2: Matrix, n: nat, j: nat, p: nat, q: nat)
    requires p < q < n <= |l| && n <= |b| && n <= |l2| && n <= |b2|
    requires forall t :: 0 <= t < n ==> j < |b[t]| && j < |b2[t]|
    requires forall t :: 0 <= t < n && t != p && t != q ==> l[t] * b[t][j] == l2[t] * b2[t][j]
    requires l2[p] * b2[p][j] + l2[q] * b2[q][j] == l[p] * b[p][j] + l[q] * b[q][j]
    ensures Sum(l2, b2, n, j) == Sum(l, b, n, j)
  {
    if q == n - 1 {
      OneTerm(l, b, l2, b2, n - 1, j, p);
    } else {
      TwoTerms(l, b, l2, b2, n - 1, j, p, q);
    }
  }

  /** The sum against a row of zeros with a single one. */
  lemma {:induction false} UnitSum(l: seq<real>, b: Matrix, n: nat, j: nat, p: nat)
    requires n <= |l| && n <= |b| && forall t :: 0 <= t < n ==> j < |b[t]|
    requires forall t :: 0 <= t < n ==> l[t] == Delta(t, p)
    ensures Sum(l, b, n, j) == if p < n then b[p][j] else 0.0
  {
    if n > 0 { UnitSum(l, b, n - 1, j, p); }
  }

  /** The sum against a column of zeros with a single one. */
  lemma {:induction false} UnitColumn(l: seq<real>, b: Matrix, n: nat, j: nat, p: nat)
    requires n <= |l| && n <= |b| && forall t :: 0 <= t < n ==> j < |b[t]|
    requires forall t :: 0 <= t < n ==> b[t][j] == Delta(t, p)
    ensures Sum(l, b, n, j) == if p < n then l[p] else 0.0
  {
    if n > 0 { UnitColumn(l, b, n - 1, j, p); }
  }

  // ---------------------------------------------------------------- associativity

  lemma {:induction false} ScaleSum(x: real, l: seq<real>, b: Matrix, l2: seq<real>, n: nat, j: nat)
    requires n <= |l| && n <= |b| && n <= |l2| && forall t :: 0 <= t < n ==> j < |b[t]|
    requires forall t :: 0 <= t < n ==> l2[t] == x * l[t]
    ensures Sum(l2, b, n, j) == x * Sum(l, b, n, j)
  {
    if n > 0 {
      ScaleSum(x, l, b, l2, n - 1, j);
      ScaleTerm(x, Sum(l, b, n - 1, j), l[n - 1], b[n - 1][j]);
    }
  }

  lemma {:induction false} ScaleTerm(x: real, s: real, y: real, z: real)
    ensures x * s + (x * y) * z == x * (s + y * z)
  {
  }

  lemma {:induction false} AddSum(l: seq<real>, k: seq<real>, s: seq<real>, b: Matrix, n: nat, j: nat)
    requires n <= |l| && n <= |k| && n <= |s| && n <= |b| && forall t :: 0 <= t < n ==> j < |b[t]|
    requires forall t :: 0 <= t < n ==> s[t] == l[t] + k[t]
    ensures Sum(s, b, n, j) == Sum(l, b, n, j) + Sum(k, b, n, j)
  {
    if n > 0 {
      AddSum(l, k, s, b, n - 1, j);
      assert (l[n - 1] + k[n - 1]) * b[n - 1][j] == l[n - 1] * b[n - 1][j] + k[n - 1] * b[n - 1][j];
    }
  }

  /** The partial products of a row with the first r rows of b. */
  function RowProduct(l: seq<real>, b: Matrix, r: nat, k: nat, n: nat): (s: seq<real>)
    requires r <= k <= |l| && Shape(b, k, n)
    ensures |s| == n && forall t :: 0 <= t < n ==> s[t] == Sum(l, b, r, t)
  {
    seq(n, t requires 0 <= t < n => Sum(l, b, r, t))
  }

  /** Row times (b times c) is (row times b) times c: the sums are swapped row by row of b. */
  lemma {:induction false} SwapSums(l: seq<real>, b: Matrix, c: Matrix, bc: Matrix, r: nat, k: nat, n: nat, q: nat, j: nat)
    requires r <= k <= |l| && Shape(b, k, n) && Shape(c, n, q) && Shape(bc, k, q) && j < q
    requires forall t :: 0 <= t < k ==> bc[t][j] == Sum(b[t], c, n, j)
    ensures Sum(RowProduct(l, b, r, k, n), c, n, j) == Sum(l, bc, r, j)
    decreases r
  {
    var now := RowProduct(l, b, r, k, n);
    if r == 0 {
      ZeroSum(now, c, n, j);
    } else {
      SwapSums(l, b, c, bc, r - 1, k, n, q, j);
      assert Sum(l, bc, r, j) == Sum(l, bc, r - 1, j) + l[r - 1] * Sum(b[r - 1], c, n, j);
      hide Sum, RowProduct;
      AddRow(l, b, c, r, k, n, q, j);
    }
  }

  /** One more row of b adds its multiple to the partial products. */
  lemma {:induction false} AddRow(l: seq<real>, b: Matrix, c: Matrix, r: nat, k: nat, n: nat, q: nat, j: nat)
    requires 0 < r <= k <= |l| && Shape(b, k, n) && Shape(c, n, q) && j < q
    ensures Sum(RowProduct(l, b, r, k, n), c, n, j) == Sum(RowProduct(l, b, r - 1, k, n), c, n, j) + l[r - 1] * Sum(b[r - 1], c, n, j)
  {
    var last := seq(n, t requires 0 <= t < n => l[r - 1] * b[r - 1][t]);
    forall t | 0 <= t < n ensures RowProduct(l, b, r, k, n)[t] == RowProduct(l, b, r - 1, k, n)[t] + last[t] {
      assert Sum(l, b, r, t) == Sum(l, b, r - 1, t) + l[r - 1] * b[r - 1][t];
    }
    hide Sum, RowProduct;
    ScaleSum(l[r - 1], b[r - 1], c, last, n, j);
    AddSum(RowProduct(l, b, r - 1, k, n), last, RowProduct(l, b, r, k, n), c, n, j);
  }

  lemma {:induction false} ZeroSum(l: seq<real>, b: Matrix, n: nat, j: nat)
    requires n <= |l| && n <= |b| && forall t :: 0 <= t < n ==> j < |b[t]|
    requires forall t :: 0 <= t < n ==> l[t] == 0.0
    ensures Sum(l, b, n, j) == 0.0
  {
    if n > 0 { ZeroSum(l, b, n - 1, j); }
  }

  lemma {:induction false} Associative(a: Matrix, b: Matrix, c: Matrix, m: nat, k: nat, n: nat, q: nat)
    requires Shape(a, m, k) && Shape(b, k, n) && Shape(c, n, q)
    ensures Product(Product(a, b, m, k, n), c, m, n, q) == Product(a, Product(b, c, k, n, q), m, k, q)
  {
    var ab, bc := Product(a, b, m, k, n), Product(b, c, k, n, q);
    var x, y := Product(ab, c, m, n, q), Product(a, bc, m, k, q);
    forall i, j | 0 <= i < m && 0 <= j < q ensures x[i][j] == y[i][j] {
      SwapSums(a[i], b, c, bc, k, k, n, q, j);
      assert ab[i] == RowProduct(a[i], b, k, k, n);
    }
    SameEntries(x, y, m, q);
  }

  lemma {:induction false} LeftIdentity(a: Matrix, m: nat, n: nat)
    requires Shape(a, m, n)
    ensures Product(Identity(m), a, m, m, n) == a
  {
    var p := Product(Identity(m), a, m, m, n);
    forall i, j | 0 <= i < m && 0 <= j < n ensures p[i][j] == a[i][j] {
      UnitSum(Identity(m)[i], a, m, j, i);
    }
    SameEntries(p, a, m, n);
  }

  lemma {:induction false} RightIdentity(a: Matrix, m: nat, n: nat)
    requires Shape(a, m, n)
    ensures Product(a, Identity(n), m, n, n) == a
  {
    var p := Product(a, Identity(n), m, n, n);
    forall i, j | 0 <= i < m && 0 <= j < n ensures p[i][j] == a[i][j] {
      UnitColumn(a[i], Identity(n), n, j, j);
    }
    SameEntries(p, a, m, n);
  }

  // ---------------------------------------------------------------- the loops

  function Column(b: Matrix, k: nat, n: nat, j: nat): (c: Matrix)
    requires Shape(b, k, n) && j < n
    ensures Shape(c, k, 1) && forall t :: 0 <= t < k ==> c[t][0] == b[t][j]
  {
    seq(k, t requires 0 <= t < k => [b[t][j]])
  }

  /** matrixDot: the running sum over two rows of the same length. */
  method Dot(left: seq<real>, right: seq<real>) returns (sum: real)
    requires |left| == |right|
    ensures sum == Sum(left, seq(|right|, t requires 0 <= t < |right| => [right[t]]), |left|, 0)
  {
    sum := 0.0;
    ghost var b := seq(|right|, t requires 0 <= t < |right| => [right[t]]);
    for i := 0 to |left|
      invariant sum == Sum(left, b, i, 0)
    {
      sum := sum + left[i] * right[i];
    }
  }

  method ColumnOf(b: Matrix, k: nat, n: nat, j: nat) returns (column: seq<real>)
    requires Shape(b, k, n) && j < n
    ensures |column| == k && forall t :: 0 <= t < k ==> column[t] == b[t][j]
  {
    column := [];
    for t := 0 to k
      invariant |column| == t && forall s :: 0 <= s < t ==> column[s] == b[s][j]
    {
      column := column + [b[t][j]];
    }
  }

  method MultiplyRow(row: seq<real>, b: Matrix, k: nat, n: nat) returns (product: seq<real>)
    requires |row| == k && Shape(b, k, n)
    ensures |product| == n && forall j :: 0 <= j < n ==> product[j] == Sum(row, b, k, j)
  {
    product := [];
    for j := 0 to n
      invariant |product| == j && forall s :: 0 <= s < j ==> product[s] == Sum(row, b, k, s)
    {
      var column := ColumnOf(b, k, n, j);
      var entry := Dot(row, column);
      SameTerms(row, seq(k, t requires 0 <= t < k => [column[t]]), row, b, k, 0, j);
      product := product + [entry];
    }
  }

  /** matrixMultiplyGeneric on two matrices; None is the dimension error. */
  method Multiply(a: Matrix, b: Matrix, m: nat, k: nat, k2: nat, n: nat) returns (c: Option<Matrix>)
    requires Shape(a, m, k) && Shape(b, k2, n)
    ensures c == if k == k2 then Some(Product(a, b, m, k, n)) else None
  {
    if k != k2 { return None; }
    var rows: Matrix := [];
    for i := 0 to m
      invariant Shape(rows, i, n)
      invariant forall s, j :: 0 <= s < i && 0 <= j < n ==> rows[s][j] == Sum(a[s], b, k, j)
    {
      var row := MultiplyRow(a[i], b, k, n);
      rows := rows + [row];
    }
    SameEntries(rows, Product(a, b, m, k, n), m, n);
    c := Some(rows);
  }

  // ---------------------------------------------------------------- row operations

  function Swap<T>(s: seq<T>, i: nat, j: nat): (r: seq<T>)
    requires i < |s| && j < |s|
    ensures |r| == |s| && forall k :: 0 <= k < |s| ==> r[k] == if k == i then s[j] else if k == j then s[i] else s[k]
  {
    s[i := s[j]][j := s[i]]
  }

  /** The first row from c on with a nonzero entry in column c, or m. */
  method FindPivot(u: array<seq<real>>, m: nat, n: nat, c: nat) returns (pivot: nat)
    requires u.Length == m && Shape(u[..], m, n) && c < m && c < n
    ensures c <= pivot <= m && (forall i :: c <= i < pivot ==> u[i][c] == 0.0) && (pivot < m ==> u[pivot][c] != 0.0)
  {
    assert forall i :: 0 <= i < m ==> |u[..][i]| == n;
    pivot := c;
    while pivot < m && u[pivot][c] == 0.0
      invariant c <= pivot <= m && forall i :: c <= i < pivot ==> u[i][c] == 0.0
    {
      pivot := pivot + 1;
    }
  }
}
