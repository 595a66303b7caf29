/** Gauss-Jordan inversion on extended rows, in place. */
module GaussJordan {
  // The rows are extended with the identity; what the inverse is used for is proved at the end.

  import opened Options
  import opened Matrices

  datatype Inverted = DimensionError | NotRegular | Inverse(x: Matrix)

  /** The rows of a followed by the rows of the identity. */
  function Augmented(a: Matrix, n: nat): (w: Matrix)
    requires Shape(a, n, n)
    ensures Shape(w, n, 2 * n)
    ensures forall i, j :: 0 <= i < n && 0 <= j < 2 * n ==> w[i][j] == if j < n then a[i][j] else Delta(i, j - n)
  {
    seq(n, i requires 0 <= i < n => seq(2 * n, j requires 0 <= j < 2 * n => if j < n then a[i][j] else Delta(i, j - n)))
  }

  function Right(row: seq<real>, n: nat): (r: seq<real>)
    requires |row| == 2 * n
    ensures |r| == n && forall t :: 0 <= t < n ==> r[t] == row[n + t]
  {
    row[n..]
  }

  /** A row's left half is its right half times a. */
  ghost predicate LeftIs(a: Matrix, row: seq<real>, n: nat)
    requires Shape(a, n, n) && |row| == 2 * n
  {
    forall j :: 0 <= j < n ==> row[j] == Sum(Right(row, n), a, n, j)
  }

  /** v undoes the row operations: v times the rows is the augmented matrix they started from. */
  ghost predicate Undoes(a: Matrix, w: Matrix, v: Matrix, n: nat)
    requires Shape(a, n, n) && Shape(w, n, 2 * n) && Shape(v, n, n)
  {
    forall i, j :: 0 <= i < n && 0 <= j < 2 * n ==> Sum(v[i], w, n, j) == Augmented(a, n)[i][j]
  }

  /** The first c columns are unit columns. */
  ghost predicate UnitColumns(w: Matrix, n: nat, c: nat)
    requires Shape(w, n, 2 * n) && c <= n
  {
    forall i, k :: 0 <= i < n && 0 <= k < c ==> w[i][k] == Delta(i, k)
  }

  ghost predicate Stage(a: Matrix, w: Matrix, v: Matrix, n: nat, c: nat) {
    && Shape(a, n, n) && Shape(w, n, 2 * n) && Shape(v, n, n) && c <= n
    && (forall i :: 0 <= i < n ==> LeftIs(a, w[i], n)) && Undoes(a, w, v, n) && UnitColumns(w, n, c)
  }

  // ---------------------------------------------------------------- row operations

  /** The column operation that makes up for a row swap. */
  function SwapColumns(v: Matrix, n: nat, c: nat, q: nat): (r: Matrix)
    requires Shape(v, n, n) && c < n && q < n
    ensures Shape(r, n, n) && forall i :: 0 <= i < n ==> r[i] == Swap(v[i], c, q)
  {
    seq(n, i requires 0 <= i < n => Swap(v[i], c, q))
  }

  lemma {:induction false} SwapUndoes(a: Matrix, w: Matrix, v: Matrix, n: nat, c: nat, q: nat)
    requires Shape(a, n, n) && Shape(w, n, 2 * n) && Shape(v, n, n) && Undoes(a, w, v, n) && c <= q < n
    ensures Undoes(a, Swap(w, c, q), SwapColumns(v, n, c, q), n)
  {
    var w2, v2 := Swap(w, c, q), SwapColumns(v, n, c, q);
    forall i, j | 0 <= i < n && 0 <= j < 2 * n ensures Sum(v2[i], w2, n, j) == Augmented(a, n)[i][j] {
      if c < q { TwoTerms(v[i], w, v2[i], w2, n, j, c, q); } else { SameTerms(v[i], w, v2[i], w2, n, j, j); }
      assert Sum(v[i], w, n, j) == Augmented(a, n)[i][j];
    }
  }

  lemma {:induction false} SwapStage(a: Matrix, w: Matrix, v: Matrix, n: nat, c: nat, q: nat)
    requires Stage(a, w, v, n, c) && c <= q < n
    ensures Stage(a, Swap(w, c, q), SwapColumns(v, n, c, q), n, c)
  {
    SwapUndoes(a, w, v, n, c, q);
    hide Undoes, Sum, Augmented;
  }

  /** Row c divided by y, and the column operation that makes up for it. */
  function ScaleColumn(v: Matrix, n: nat, c: nat, y: real): (r: Matrix)
    requires Shape(v, n, n) && c < n
    ensures Shape(r, n, n) && forall i :: 0 <= i < n ==> r[i] == ScaleEntry(v[i], c, y)
  {
    seq(n, i requires 0 <= i < n => ScaleEntry(v[i], c, y))
  }

  function ScaleEntry(row: seq<real>, c: nat, y: real): seq<real>
    requires c < |row|
  {
    row[c := row[c] * y]
  }

  lemma {:induction false} Reciprocal(x: real, y: real)
    requires y != 0.0
    ensures x / y == (1.0 / y) * x
  {
  }

  lemma {:induction false} Quotient(y: real)
    requires y != 0.0
    ensures y / y == 1.0
  {
  }

  lemma {:induction false} Negate(x: real, z: real, y: real)
    requires z == -x
    ensures z * y == -(x * y)
  {
  }

  lemma {:induction false} ScaleBack(v: real, x: real, y: real)
    requires y != 0.0
    ensures (v * y) * (x / y) == v * x
  {
    assert y * (x / y) == x;
    assert (v * y) * (x / y) == v * (y * (x / y));
  }

  ghost predicate Divided(w: Matrix, w2: Matrix, n: nat, c: nat, y: real)
    requires Shape(w, n, 2 * n) && c < n && y != 0.0
  {
    && Shape(w2, n, 2 * n) && (forall i :: 0 <= i < n && i != c ==> w2[i] == w[i])
    && (forall j :: 0 <= j < 2 * n ==> w2[c][j] == w[c][j] / y)
  }

  lemma {:induction false} DividedRow(a: Matrix, row: seq<real>, row2: seq<real>, n: nat, y: real)
    requires Shape(a, n, n) && |row| == 2 * n && |row2| == 2 * n && y != 0.0 && LeftIs(a, row, n)
    requires forall j :: 0 <= j < 2 * n ==> row2[j] == row[j] / y
    ensures LeftIs(a, row2, n)
  {
    forall t | 0 <= t < n ensures Right(row2, n)[t] == (1.0 / y) * Right(row, n)[t] { Reciprocal(row[n + t], y); }
    forall j | 0 <= j < n ensures row2[j] == Sum(Right(row2, n), a, n, j) {
      ScaleSum(1.0 / y, Right(row, n), a, Right(row2, n), n, j);
      Reciprocal(row[j], y);
    }
  }

  lemma {:induction false} DivideStage(a: Matrix, w: Matrix, w2: Matrix, v: Matrix, n: nat, c: nat, y: real)
    requires Stage(a, w, v, n, c) && c < n && y != 0.0 && Divided(w, w2, n, c, y)
    ensures Stage(a, w2, ScaleColumn(v, n, c, y), n, c)
  {
    var v2 := ScaleColumn(v, n, c, y);
    DividedRow(a, w[c], w2[c], n, y);
    forall i, j | 0 <= i < n && 0 <= j < 2 * n ensures Sum(v2[i], w2, n, j) == Augmented(a, n)[i][j] {
      ScaleBack(v[i][c], w[c][j], y);
      SameTerms(v[i], w, v2[i], w2, n, j, j);
      assert Sum(v[i], w, n, j) == Augmented(a, n)[i][j];
    }
  }

  /** Row r loses f times row c, and the column operation that makes up for it. */
  function AddColumn(v: Matrix, n: nat, c: nat, r: nat, f: real): (s: Matrix)
    requires Shape(v, n, n) && c < n && r < n
    ensures Shape(s, n, n) && forall i :: 0 <= i < n ==> s[i] == AddEntry(v[i], c, r, f)
  {
    seq(n, i requires 0 <= i < n => AddEntry(v[i], c, r, f))
  }

  function AddEntry(row: seq<real>, c: nat, r: nat, f: real): seq<real>
    requires c < |row| && r < |row|
  {
    row[c := row[c] + f * row[r]]
  }

  ghost predicate Subtracted(w: Matrix, w2: Matrix, n: nat, c: nat, r: nat, f: real)
    requires Shape(w, n, 2 * n) && c < n && r < n
  {
    && Shape(w2, n, 2 * n) && (forall i :: 0 <= i < n && i != r ==> w2[i] == w[i])
    && (forall j :: 0 <= j < 2 * n ==> w2[r][j] == w[r][j] - f * w[c][j])
  }

  lemma {:induction false} SubtractedRow(a: Matrix, row: seq<real>, pivot: seq<real>, row2: seq<real>, n: nat, f: real)
    requires Shape(a, n, n) && |row| == 2 * n && |pivot| == 2 * n && |row2| == 2 * n && LeftIs(a, row, n) && LeftIs(a, pivot, n)
    requires forall j :: 0 <= j < 2 * n ==> row2[j] == row[j] - f * pivot[j]
    ensures LeftIs(a, row2, n)
  {
    var g := -f;
    var scaled := seq(n, t requires 0 <= t < n => g * Right(pivot, n)[t]);
    forall t | 0 <= t < n ensures Right(row2, n)[t] == Right(row, n)[t] + scaled[t] {
      assert scaled[t] == g * Right(pivot, n)[t];
      Negate(f, g, Right(pivot, n)[t]);
      assert row2[n + t] == row[n + t] - f * pivot[n + t];
    }
    forall j | 0 <= j < n ensures row2[j] == Sum(Right(row2, n), a, n, j) {
      ScaleSum(g, Right(pivot, n), a, scaled, n, j);
      AddSum(Right(row, n), scaled, Right(row2, n), a, n, j);
      Negate(f, g, pivot[j]);
    }
  }

  lemma {:induction false} SubtractBack(vc: real, vr: real, f: real, x: real, y: real)
    ensures (vc + f * vr) * x + vr * (y - f * x) == vc * x + vr * y
  {
    assert (f * vr) * x == vr * (f * x);
    assert (vc + f * vr) * x == vc * x + (f * vr) * x;
    assert vr * (y - f * x) == vr * y - vr * (f * x);
  }

  lemma {:induction false} SubtractUndoes(a: Matrix, w: Matrix, w2: Matrix, v: Matrix, n: nat, c: nat, r: nat, f: real)
    requires Shape(a, n, n) && Shape(w, n, 2 * n) && Shape(v, n, n) && Undoes(a, w, v, n)
    requires c < n && r < n && r != c && Subtracted(w, w2, n, c, r, f)
    ensures Undoes(a, w2, AddColumn(v, n, c, r, f), n)
  {
    var v2 := AddColumn(v, n, c, r, f);
    forall i, j | 0 <= i < n && 0 <= j < 2 * n ensures Sum(v2[i], w2, n, j) == Augmented(a, n)[i][j] {
      SubtractBack(v[i][c], v[i][r], f, w[c][j], w[r][j]);
      if c < r { TwoTerms(v[i], w, v2[i], w2, n, j, c, r); } else { TwoTerms(v[i], w, v2[i], w2, n, j, r, c); }
      assert Sum(v[i], w, n, j) == Augmented(a, n)[i][j];
    }
  }

  lemma {:induction false} SubtractStage(a: Matrix, w: Matrix, w2: Matrix, v: Matrix, n: nat, c: nat, r: nat, f: real)
    requires Stage(a, w, v, n, c) && c < n && r < n && r != c && Subtracted(w, w2, n, c, r, f)
    ensures Stage(a, w2, AddColumn(v, n, c, r, f), n, c)
  {
    SubtractUndoes(a, w, w2, v, n, c, r, f);
    assert LeftIs(a, w[r], n) && LeftIs(a, w[c], n);
    SubtractedRow(a, w[r], w[c], w2[r], n, f);
    forall i, k | 0 <= i < n && 0 <= k < c ensures w2[i][k] == Delta(i, k) {
      assert w[c][k] == 0.0 && w[i][k] == Delta(i, k);
    }
  }

  // ---------------------------------------------------------------- the end of the elimination

  function RightHalf(w: Matrix, n: nat): (x: Matrix)
    requires Shape(w, n, 2 * n)
    ensures Shape(x, n, n) && forall i :: 0 <= i < n ==> x[i] == Right(w[i], n)
  {
    seq(n, i requires 0 <= i < n => Right(w[i], n))
  }

  lemma {:induction false} LeftInverse(a: Matrix, w: Matrix, v: Matrix, n: nat)
    requires Stage(a, w, v, n, n)
    ensures Product(RightHalf(w, n), a, n, n, n) == Identity(n)
  {
    var p := Product(RightHalf(w, n), a, n, n, n);
    forall i, j | 0 <= i < n && 0 <= j < n ensures p[i][j] == Identity(n)[i][j] {
      assert LeftIs(a, w[i], n);
    }
    SameEntries(p, Identity(n), n, n);
  }

  lemma {:induction false} RightInverse(a: Matrix, w: Matrix, v: Matrix, n: nat)
    requires Stage(a, w, v, n, n)
    ensures Product(a, RightHalf(w, n), n, n, n) == Identity(n)
  {
    var x := RightHalf(w, n);
    var p := Product(a, x, n, n, n);
    forall i, j | 0 <= i < n && 0 <= j < n ensures p[i][j] == Identity(n)[i][j] {
      forall t | 0 <= t < n ensures v[i][t] == a[i][t] {
        UnitColumn(v[i], w, n, t, t);
        assert Sum(v[i], w, n, t) == Augmented(a, n)[i][t];
      }
      SameTerms(v[i], w, a[i], x, n, n + j, j);
      assert Sum(v[i], w, n, n + j) == Augmented(a, n)[i][n + j];
    }
    SameEntries(p, Identity(n), n, n);
  }

  ghost predicate Zero(x: Matrix, m: nat, n: nat) {
    Shape(x, m, n) && forall i, j :: 0 <= i < m && 0 <= j < n ==> x[i][j] == 0.0
  }

  /** A nonzero column that a maps to zero: a is singular. */
  ghost predicate Kernel(a: Matrix, x: Matrix, n: nat)
    requires Shape(a, n, n)
  {
    Shape(x, n, 1) && !Zero(x, n, 1) && Zero(Product(a, x, n, n, 1), n, 1)
  }

  /** The column that shows column c to depend on the earlier ones. */
  function Dependency(w: Matrix, n: nat, c: nat): (x: Matrix)
    requires Shape(w, n, 2 * n) && c < n
    ensures Shape(x, n, 1) && forall t :: 0 <= t < n ==> x[t][0] == if t < c then -w[t][c] else Delta(t, c)
  {
    seq(n, t requires 0 <= t < n => [if t < c then -w[t][c] else Delta(t, c)])
  }

  function LeftHalf(w: Matrix, n: nat): (x: Matrix)
    requires Shape(w, n, 2 * n)
    ensures Shape(x, n, n) && forall i, j :: 0 <= i < n && 0 <= j < n ==> x[i][j] == w[i][j]
  {
    seq(n, i requires 0 <= i < n => w[i][..n])
  }

  /** The first k terms of a row of the left half against the dependency. */
  lemma {:induction false} DependencySum(row: seq<real>, w: Matrix, n: nat, c: nat, i: nat, k: nat)
    requires Shape(w, n, 2 * n) && c < n && i < n && |row| == n && k <= n
    requires forall t :: 0 <= t < c ==> row[t] == Delta(i, t)
    requires row[c] == w[i][c] && (c <= i ==> w[i][c] == 0.0)
    ensures Sum(row, Dependency(w, n, c), k, 0) == (if i < k && i < c then -w[i][c] else 0.0) + (if c < k then w[i][c] else 0.0)
  {
    if k > 0 { DependencySum(row, w, n, c, i, k - 1); }
  }

  lemma {:induction false} NoPivotIsSingular(a: Matrix, w: Matrix, v: Matrix, n: nat, c: nat)
    requires Stage(a, w, v, n, c) && c < n && forall i :: c <= i < n ==> w[i][c] == 0.0
    ensures Kernel(a, Dependency(w, n, c), n)
  {
    var x, left := Dependency(w, n, c), LeftHalf(w, n);
    assert x[c][0] == 1.0;
    var wx := Product(left, x, n, n, 1);
    forall i | 0 <= i < n ensures wx[i][0] == 0.0 {
      DependencySum(left[i], w, n, c, i, n);
    }
    var va := Product(v, left, n, n, n);
    forall i, j | 0 <= i < n && 0 <= j < n ensures va[i][j] == a[i][j] {
      SameTerms(v[i], left, v[i], w, n, j, j);
      assert Sum(v[i], w, n, j) == Augmented(a, n)[i][j];
    }
    SameEntries(va, a, n, n);
    Associative(v, left, x, n, n, n, 1);
    forall i | 0 <= i < n ensures Sum(v[i], wx, n, 0) == 0.0 { ZeroColumn(v[i], wx, n); }
  }

  lemma {:induction false} ZeroColumn(l: seq<real>, b: Matrix, n: nat)
    requires n <= |l| && n <= |b| && forall t :: 0 <= t < n ==> 0 < |b[t]| && b[t][0] == 0.0
    ensures Sum(l, b, n, 0) == 0.0
  {
    if n > 0 { ZeroColumn(l, b, n - 1); }
  }

  /** A matrix with a left inverse has no kernel. */
  lemma {:induction false} InverseHasNoKernel(a: Matrix, x: Matrix, k: Matrix, n: nat)
    requires Shape(a, n, n) && Shape(x, n, n) && Product(x, a, n, n, n) == Identity(n) && Shape(k, n, 1)
    ensures !Kernel(a, k, n)
  {
    var ak := Product(a, k, n, n, 1);
    if Zero(ak, n, 1) {
      Associative(x, a, k, n, n, n, 1);
      LeftIdentity(k, n, 1);
      forall i | 0 <= i < n ensures k[i][0] == 0.0 { ZeroColumn(x[i], ak, n); }
    }
  }

  // ---------------------------------------------------------------- the algorithm

  method DivideRow(w: array<seq<real>>, n: nat, c: nat, y: real)
    requires w.Length == n && Shape(w[..], n, 2 * n) && c < n && y != 0.0
    modifies w
    ensures Divided(old(w[..]), w[..], n, c, y)
  {
    ghost var before := w[..];
    for j := 0 to 2 * n
      invariant |w[c]| == 2 * n && forall i :: 0 <= i < n && i != c ==> w[i] == before[i]
      invariant forall k :: 0 <= k < 2 * n ==> w[c][k] == if k < j then before[c][k] / y else before[c][k]
    {
      w[c] := w[c][j := w[c][j] / y];
    }
  }

  method SubtractRow(w: array<seq<real>>, n: nat, c: nat, r: nat, f: real)
    requires w.Length == n && Shape(w[..], n, 2 * n) && c < n && r < n && r != c
    modifies w
    ensures Subtracted(old(w[..]), w[..], n, c, r, f)
  {
    ghost var before := w[..];
    for j := 0 to 2 * n
      invariant |w[r]| == 2 * n && forall i :: 0 <= i < n && i != r ==> w[i] == before[i]
      invariant forall k :: 0 <= k < 2 * n ==> w[r][k] == if k < j then before[r][k] - f * before[c][k] else before[r][k]
    {
      assert w[c] == before[c];
      w[r] := w[r][j := w[r][j] - f * w[c][j]];
    }
  }

  /** Swap the pivot up and divide its row, so that the pivot becomes one. */
  method NormalizePivot(a: Matrix, w: array<seq<real>>, n: nat, c: nat, q: nat, ghost v: Matrix) returns (ghost v2: Matrix)
    requires w.Length == n && c <= q < n && Stage(a, w[..], v, n, c) && w[q][c] != 0.0
    modifies w
    ensures Stage(a, w[..], v2, n, c) && w[c][c] == 1.0
  {
    hide LeftIs, Undoes;
    ghost var w0 := w[..];
    w[c], w[q] := w[q], w[c];
    assert w[..] == Swap(w0, c, q);
    SwapStage(a, w0, v, n, c, q);
    v2 := SwapColumns(v, n, c, q);
    ghost var w1 := w[..];
    assert |w1[c]| == 2 * n;
    var y := w[c][c];
    DivideRow(w, n, c, y);
    DivideStage(a, w1, w[..], v2, n, c, y);
    v2 := ScaleColumn(v2, n, c, y);
    assert w[..][c][c] == w1[c][c] / y;
    Quotient(y);
  }

  /** Column c is cleared in every other row. */
  method ClearColumn(a: Matrix, w: array<seq<real>>, n: nat, c: nat, ghost v: Matrix) returns (ghost v2: Matrix)
    requires w.Length == n && c < n && Stage(a, w[..], v, n, c) && w[c][c] == 1.0
    modifies w
    ensures Stage(a, w[..], v2, n, c + 1)
  {
    hide LeftIs, Undoes;
    v2 := v;
    for i := 0 to n
      invariant Stage(a, w[..], v2, n, c) && |w[c]| == 2 * n && w[c][c] == 1.0
      invariant forall k :: 0 <= k < i && k != c ==> |w[k]| == 2 * n && w[k][c] == 0.0
    {
      if i != c {
        ghost var w0 := w[..];
        assert |w0[i]| == 2 * n;
        var f := w[i][c];
        SubtractRow(w, n, c, i, f);
        SubtractStage(a, w0, w[..], v2, n, c, i, f);
        v2 := AddColumn(v2, n, c, i, f);
        assert w[..][i][c] == w0[i][c] - f * w0[c][c];
        assert forall k :: 0 <= k < n && k != i ==> w[..][k] == w0[k];
      }
    }
    Cleared(w[..], n, c);
  }

  lemma {:induction false} Cleared(w: Matrix, n: nat, c: nat)
    requires Shape(w, n, 2 * n) && c < n && UnitColumns(w, n, c) && w[c][c] == 1.0
    requires forall k :: 0 <= k < n && k != c ==> w[k][c] == 0.0
    ensures UnitColumns(w, n, c + 1)
  {
  }

  lemma {:induction false} FirstStage(a: Matrix, n: nat)
    requires Shape(a, n, n)
    ensures Stage(a, Augmented(a, n), Identity(n), n, 0)
  {
    var w := Augmented(a, n);
    forall i, j | 0 <= i < n && 0 <= j < n ensures w[i][j] == Sum(Right(w[i], n), a, n, j) {
      UnitSum(Right(w[i], n), a, n, j, i);
    }
    forall i, j | 0 <= i < n && 0 <= j < 2 * n ensures Sum(Identity(n)[i], w, n, j) == w[i][j] {
      UnitSum(Identity(n)[i], w, n, j, i);
    }
  }

  /** matrixInverseGeneric: an inverse on both sides, or the matrix is singular. */
  method Invert(a: Matrix, m: nat, n: nat) returns (r: Inverted)
    requires Shape(a, m, n)
    ensures r == DimensionError <==> m != n
    ensures r.Inverse? ==> Shape(r.x, n, n) && Product(r.x, a, n, n, n) == Identity(n) && Product(a, r.x, n, n, n) == Identity(n)
    ensures r == NotRegular ==> m == n && exists x :: Kernel(a, x, n)
  {
    if m != n { return DimensionError; }
    var work := new seq<real>[n](i requires 0 <= i < n => a[i] + seq(n, j requires 0 <= j < n => Delta(i, j)));
    assert work[..] == Augmented(a, n) by { SameEntries(work[..], Augmented(a, n), n, 2 * n); }
    ghost var v := Identity(n);
    FirstStage(a, n);
    for column := 0 to n
      invariant Stage(a, work[..], v, n, column)
    {
      var pivot := FindPivot(work, n, 2 * n, column);
      if pivot == n {
        NoPivotIsSingular(a, work[..], v, n, column);
        return NotRegular;
      }
      v := NormalizePivot(a, work, n, column, pivot, v);
      v := ClearColumn(a, work, n, column, v);
    }
    LeftInverse(a, work[..], v, n);
    RightInverse(a, work[..], v, n);
    r := Inverse(RightHalf(work[..], n));
  }

  /** A square matrix is inverted if and only if it is regular: no nonzero column is mapped to zero. */
  method InvertSquare(a: Matrix, n: nat) returns (x: Option<Matrix>)
    requires Shape(a, n, n)
    ensures x.Some? <==> forall k :: Shape(k, n, 1) ==> !Kernel(a, k, n)
    ensures x.Some? ==> Shape(x.value, n, n) && Product(x.value, a, n, n, n) == Identity(n) && Product(a, x.value, n, n, n) == Identity(n)
  {
    var r := Invert(a, n, n);
    if r.Inverse? {
      forall k | Shape(k, n, 1) ensures !Kernel(a, k, n) { InverseHasNoKernel(a, r.x, k, n); }
      x := Some(r.x);
    } else {
      x := None;
    }
  }

  /** matrixLUPSolve on a right-hand side of as many rows. */
  method Solve(a: Matrix, n: nat, b: Matrix, m: nat, q: nat) returns (x: Option<Matrix>)
    requires Shape(a, n, n) && Shape(b, m, q)
    ensures x.Some? <==> m == n && forall k :: Shape(k, n, 1) ==> !Kernel(a, k, n)
    ensures x.Some? ==> m == n && Shape(x.value, n, q) && Product(a, x.value, n, n, q) == b
    ensures forall y :: m == n && Shape(y, n, q) && Product(a, y, n, n, q) == b && x.Some? ==> x.value == y
  {
    var inverse := InvertSquare(a, n);
    if inverse.None? { return None; }
    x := Multiply(inverse.value, b, n, n, m, q);
    if x.Some? {
      Associative(a, inverse.value, b, n, n, n, q);
      LeftIdentity(b, n, q);
      forall y | Shape(y, n, q) && Product(a, y, n, n, q) == b ensures x.value == y {
        Associative(inverse.value, a, y, n, n, n, q);
        LeftIdentity(y, n, q);
      }
    }
  }
}
