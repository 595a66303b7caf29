/** LUP decomposition with row pivoting, in place. */
module Lup {
  // Rows are swapped and overwritten.

  import opened Int64
  import opened Matrices

  /** Rows before `row` have been eliminated through column c, the others through column c - 1. */
  function Depth(i: nat, c: nat, row: nat): (d: nat)
    ensures d <= i
  {
    if i < row then Min(i, c + 1) else Min(i, c)
  }

  /** perm and back are inverse permutations of the rows. */
  ghost predicate Permutes(perm: seq<nat>, back: seq<nat>, m: nat) {
    && |perm| == m && |back| == m
    && (forall i :: 0 <= i < m ==> perm[i] < m && back[perm[i]] == i)
    && (forall i :: 0 <= i < m ==> back[i] < m && perm[back[i]] == i)
  }

  ghost predicate PermutationMatrix(p: Matrix, perm: seq<nat>, m: nat) {
    Shape(p, m, m) && |perm| == m && forall i, j :: 0 <= i < m && 0 <= j < m ==> p[i][j] == Delta(perm[i], j)
  }

  ghost predicate UnitLower(l: Matrix, m: nat) {
    Shape(l, m, m) && forall i, j :: 0 <= i <= j < m ==> l[i][j] == Delta(i, j)
  }

  ghost predicate UpperZero(u: Matrix, m: nat, n: nat) {
    Shape(u, m, n) && forall i, j :: 0 <= j < i < m && j < n ==> u[i][j] == 0.0
  }

  /** The factors of the eliminated columns, and nothing else below the diagonal. */
  ghost predicate LowerStage(l: Matrix, m: nat, c: nat, row: nat) {
    Shape(l, m, m) && forall i, t :: 0 <= i < m && Depth(i, c, row) <= t < m ==> l[i][t] == Delta(i, t)
  }

  ghost predicate UpperStage(u: Matrix, m: nat, n: nat, c: nat, row: nat) {
    Shape(u, m, n) && forall i, k :: 0 <= i < m && 0 <= k < Depth(i, c, row) && k < n ==> u[i][k] == 0.0
  }

  /** Row i of L times U is row perm[i] of A, counting only the eliminated columns of L and its diagonal. */
  ghost predicate RowStage(a: Matrix, l: Matrix, u: Matrix, perm: seq<nat>, m: nat, n: nat, i: nat, k: nat)
    requires Shape(a, m, n) && Shape(l, m, m) && Shape(u, m, n) && |perm| == m && i < m && perm[i] < m && k <= m
  {
    forall j :: 0 <= j < n ==> Sum(l[i], u, k, j) + u[i][j] == a[perm[i]][j]
  }

  ghost predicate Stage(a: Matrix, l: Matrix, u: Matrix, p: Matrix, perm: seq<nat>, back: seq<nat>, m: nat, n: nat, c: nat, row: nat) {
    && Shape(a, m, n) && LowerStage(l, m, c, row) && UpperStage(u, m, n, c, row)
    && PermutationMatrix(p, perm, m) && Permutes(perm, back, m)
    && forall i :: 0 <= i < m ==> RowStage(a, l, u, perm, m, n, i, Depth(i, c, row))
  }

  // ---------------------------------------------------------------- steps

  /** Rows c and q of L exchange the factors of the eliminated columns. */
  ghost predicate FactorsSwapped(l: Matrix, l2: Matrix, m: nat, c: nat, q: nat, done: nat)
    requires Shape(l, m, m) && c < m && q < m && done <= m
  {
    && Shape(l2, m, m)
    && (forall i :: 0 <= i < m && i != c && i != q ==> l2[i] == l[i])
    && (forall t :: 0 <= t < m ==> l2[c][t] == (if t < done then l[q][t] else l[c][t]))
    && (forall t :: 0 <= t < m ==> l2[q][t] == (if t < done then l[c][t] else l[q][t]))
  }

  lemma {:induction false} SwapRow(a: Matrix, l: Matrix, u: Matrix, l2: Matrix, perm: seq<nat>, m: nat, n: nat, c: nat, q: nat, i: nat)
    requires Shape(a, m, n) && Shape(l, m, m) && Shape(u, m, n) && |perm| == m && c < q < m && i < m
    requires forall k :: 0 <= k < m ==> perm[k] < m
    requires FactorsSwapped(l, l2, m, c, q, c)
    requires var k := if i == c then q else if i == q then c else i; RowStage(a, l, u, perm, m, n, k, Min(k, c))
    ensures RowStage(a, l2, Swap(u, c, q), Swap(perm, c, q), m, n, i, Min(i, c))
  {
    var k := if i == c then q else if i == q then c else i;
    var u2 := Swap(u, c, q);
    forall j | 0 <= j < n ensures Sum(l2[i], u2, Min(i, c), j) + u2[i][j] == a[Swap(perm, c, q)[i]][j] {
      SameTerms(l2[i], u2, l[k], u, Min(i, c), j, j);
    }
  }

  /** Swapping two rows from the current one on keeps the stage. */
  lemma {:induction false} SwapStage(a: Matrix, l: Matrix, u: Matrix, l2: Matrix, p: Matrix, perm: seq<nat>, back: seq<nat>, m: nat, n: nat, c: nat, q: nat)
    requires Stage(a, l, u, p, perm, back, m, n, c, 0) && c < q < m && c < n
    requires FactorsSwapped(l, l2, m, c, q, c)
    ensures Stage(a, l2, Swap(u, c, q), Swap(p, c, q), Swap(perm, c, q), Swap(back, perm[c], perm[q]), m, n, c, 0)
  {
    forall i | 0 <= i < m ensures RowStage(a, l2, Swap(u, c, q), Swap(perm, c, q), m, n, i, Depth(i, c, 0)) {
      SwapRow(a, l, u, l2, perm, m, n, c, q, i);
    }
  }

  lemma {:induction false} Cancel(x: real, y: real)
    requires y != 0.0
    ensures x - (x / y) * y == 0.0
  {
  }

  /** One row eliminated: u[row] loses factor times row c, and L remembers the factor. */
  ghost predicate Eliminated(l: Matrix, u: Matrix, l2: Matrix, u2: Matrix, m: nat, n: nat, c: nat, row: nat, factor: real)
    requires Shape(l, m, m) && Shape(u, m, n) && c < row < m && c < n
  {
    && l2 == l[row := l[row][c := factor]]
    && Shape(u2, m, n) && (forall i :: 0 <= i < m && i != row ==> u2[i] == u[i])
    && (forall j :: 0 <= j < n ==> u2[row][j] == if j < c then u[row][j] else u[row][j] - factor * u[c][j])
  }

  lemma {:induction false} EliminateRow(a: Matrix, l: Matrix, u: Matrix, l2: Matrix, u2: Matrix, perm: seq<nat>, m: nat, n: nat, c: nat, row: nat, factor: real)
    requires Shape(a, m, n) && Shape(l, m, m) && Shape(u, m, n) && |perm| == m && c < row < m && c < n && perm[row] < m
    requires Eliminated(l, u, l2, u2, m, n, c, row, factor) && forall k :: 0 <= k < c ==> u[c][k] == 0.0
    requires RowStage(a, l, u, perm, m, n, row, c)
    ensures RowStage(a, l2, u2, perm, m, n, row, c + 1)
  {
    forall j | 0 <= j < n ensures Sum(l2[row], u2, c + 1, j) + u2[row][j] == a[perm[row]][j] {
      SameTerms(l2[row], u2, l[row], u, c, j, j);
      assert Sum(l2[row], u2, c + 1, j) == Sum(l2[row], u2, c, j) + factor * u[c][j];
    }
  }

  lemma {:induction false} OtherRow(a: Matrix, l: Matrix, u: Matrix, l2: Matrix, u2: Matrix, perm: seq<nat>, m: nat, n: nat, i: nat, k: nat)
    requires Shape(a, m, n) && Shape(l, m, m) && Shape(u, m, n) && Shape(l2, m, m) && Shape(u2, m, n) && |perm| == m
    requires i < m && perm[i] < m && k <= m && RowStage(a, l, u, perm, m, n, i, k)
    requires l2[i] == l[i] && u2[i] == u[i] && forall t :: 0 <= t < k ==> u2[t] == u[t]
    ensures RowStage(a, l2, u2, perm, m, n, i, k)
  {
    forall j | 0 <= j < n ensures Sum(l2[i], u2, k, j) + u2[i][j] == a[perm[i]][j] {
      SameTerms(l2[i], u2, l[i], u, k, j, j);
    }
  }

  lemma {:induction false} EliminateShapes(l: Matrix, u: Matrix, l2: Matrix, u2: Matrix, m: nat, n: nat, c: nat, row: nat, factor: real)
    requires LowerStage(l, m, c, row) && UpperStage(u, m, n, c, row) && c < row < m && c < n && u[c][c] != 0.0
    requires factor == u[row][c] / u[c][c] && Eliminated(l, u, l2, u2, m, n, c, row, factor)
    ensures LowerStage(l2, m, c, row + 1) && UpperStage(u2, m, n, c, row + 1)
  {
    Cancel(u[row][c], u[c][c]);
    forall i, t | 0 <= i < m && Depth(i, c, row + 1) <= t < m ensures l2[i][t] == Delta(i, t) {
      assert Depth(i, c, row) <= Depth(i, c, row + 1);
      assert l[i][t] == Delta(i, t);
    }
    forall i, k | 0 <= i < m && 0 <= k < Depth(i, c, row + 1) && k < n ensures u2[i][k] == 0.0 {
      if i == row && k < c { assert k < Depth(row, c, row); }
      if i != row { assert k < Depth(i, c, row); }
    }
  }

  lemma {:induction false} EliminateRows(a: Matrix, l: Matrix, u: Matrix, l2: Matrix, u2: Matrix, perm: seq<nat>, m: nat, n: nat, c: nat, row: nat, factor: real)
    requires Shape(a, m, n) && Shape(l, m, m) && Shape(u, m, n) && |perm| == m && c < row < m && c < n
    requires forall i :: 0 <= i < m ==> perm[i] < m && RowStage(a, l, u, perm, m, n, i, Depth(i, c, row))
    requires Eliminated(l, u, l2, u2, m, n, c, row, factor) && Shape(l2, m, m) && forall k :: 0 <= k < c ==> u[c][k] == 0.0
    ensures var next := row + 1; forall i :: 0 <= i < m ==> RowStage(a, l2, u2, perm, m, n, i, Depth(i, c, next))
  {
    hide RowStage;
    var next := row + 1;
    forall i | 0 <= i < m ensures RowStage(a, l2, u2, perm, m, n, i, Depth(i, c, next)) {
      assert RowStage(a, l, u, perm, m, n, i, Depth(i, c, row));
      if i == row {
        EliminateRow(a, l, u, l2, u2, perm, m, n, c, row, factor);
      } else {
        OtherRow(a, l, u, l2, u2, perm, m, n, i, Depth(i, c, row));
      }
    }
  }

  lemma {:induction false} EliminateStage(a: Matrix, l: Matrix, u: Matrix, l2: Matrix, u2: Matrix, p: Matrix, perm: seq<nat>, back: seq<nat>,
                                          m: nat, n: nat, c: nat, row: nat, factor: real)
    requires Stage(a, l, u, p, perm, back, m, n, c, row) && c < row < m && c < n && u[c][c] != 0.0
    requires factor == u[row][c] / u[c][c] && Eliminated(l, u, l2, u2, m, n, c, row, factor)
    ensures Stage(a, l2, u2, p, perm, back, m, n, c, row + 1)
  {
    EliminateShapes(l, u, l2, u2, m, n, c, row, factor);
    forall k | 0 <= k < c ensures u[c][k] == 0.0 { assert k < Depth(c, c, row); }
    EliminateRows(a, l, u, l2, u2, perm, m, n, c, row, factor);
  }

  /** A column with no pivot is already eliminated. */
  lemma {:induction false} SkipStage(a: Matrix, l: Matrix, u: Matrix, p: Matrix, perm: seq<nat>, back: seq<nat>, m: nat, n: nat, c: nat)
    requires Stage(a, l, u, p, perm, back, m, n, c, 0) && c < m && c < n
    requires forall i :: c <= i < m ==> u[i][c] == 0.0
    ensures Stage(a, l, u, p, perm, back, m, n, c + 1, 0)
  {
    SkipShapes(l, u, m, n, c);
    hide LowerStage, UpperStage, Permutes, PermutationMatrix;
    var next := c + 1;
    forall i | 0 <= i < m ensures RowStage(a, l, u, perm, m, n, i, Depth(i, next, 0)) {
      assert RowStage(a, l, u, perm, m, n, i, Depth(i, c, 0));
      if i > c { SkipRow(a, l, u, perm, m, n, c, i); }
    }
  }

  lemma {:induction false} SkipShapes(l: Matrix, u: Matrix, m: nat, n: nat, c: nat)
    requires LowerStage(l, m, c, 0) && UpperStage(u, m, n, c, 0) && c < m && c < n
    requires forall i :: c <= i < m ==> u[i][c] == 0.0
    ensures LowerStage(l, m, c + 1, 0) && UpperStage(u, m, n, c + 1, 0) && forall i :: c < i < m ==> l[i][c] == 0.0
  {
    forall i, k | 0 <= i < m && 0 <= k < Depth(i, c + 1, 0) && k < n ensures u[i][k] == 0.0 {
      if k < c { assert k < Depth(i, c, 0); }
    }
  }

  lemma {:induction false} SkipRow(a: Matrix, l: Matrix, u: Matrix, perm: seq<nat>, m: nat, n: nat, c: nat, i: nat)
    requires Shape(a, m, n) && Shape(l, m, m) && Shape(u, m, n) && |perm| == m && c < i < m && perm[i] < m
    requires l[i][c] == 0.0 && RowStage(a, l, u, perm, m, n, i, c)
    ensures RowStage(a, l, u, perm, m, n, i, c + 1)
  {
    forall j | 0 <= j < n ensures Sum(l[i], u, c + 1, j) + u[i][j] == a[perm[i]][j] {
      assert Sum(l[i], u, c + 1, j) == Sum(l[i], u, c, j) + l[i][c] * u[c][j];
    }
  }

  /** A stage depends on the depths of its rows only. */
  lemma {:induction false} SameDepths(a: Matrix, l: Matrix, u: Matrix, p: Matrix, perm: seq<nat>, back: seq<nat>, m: nat, n: nat, c: nat, row: nat, d: nat, next: nat)
    requires Stage(a, l, u, p, perm, back, m, n, c, row) && forall i: nat :: i < m ==> Depth(i, c, row) == Depth(i, d, next)
    ensures Stage(a, l, u, p, perm, back, m, n, d, next)
  {
    hide Depth, RowStage, PermutationMatrix;
    forall i | 0 <= i < m ensures RowStage(a, l, u, perm, m, n, i, Depth(i, d, next)) {
      assert RowStage(a, l, u, perm, m, n, i, Depth(i, c, row));
    }
  }

  /** All rows eliminated through column c, or none yet through it: two names for the same stage. */
  lemma {:induction false} NextColumn(a: Matrix, l: Matrix, u: Matrix, p: Matrix, perm: seq<nat>, back: seq<nat>, m: nat, n: nat, c: nat)
    ensures Stage(a, l, u, p, perm, back, m, n, c, m) ==> Stage(a, l, u, p, perm, back, m, n, c + 1, 0)
    ensures Stage(a, l, u, p, perm, back, m, n, c, 0) ==> Stage(a, l, u, p, perm, back, m, n, c, c + 1)
  {
    hide Stage;
    if Stage(a, l, u, p, perm, back, m, n, c, m) { SameDepths(a, l, u, p, perm, back, m, n, c, m, c + 1, 0); }
    if Stage(a, l, u, p, perm, back, m, n, c, 0) { SameDepths(a, l, u, p, perm, back, m, n, c, 0, c, c + 1); }
  }

  /** The sum over a row that ends in a single one. */
  lemma {:induction false} TailSum(l: seq<real>, b: Matrix, k: nat, n: nat, j: nat, p: nat)
    requires k <= n <= |l| && n <= |b| && forall t :: 0 <= t < n ==> j < |b[t]|
    requires forall t :: k <= t < n ==> l[t] == Delta(p, t)
    ensures Sum(l, b, n, j) == Sum(l, b, k, j) + (if k <= p < n then b[p][j] else 0.0)
  {
    if k < n { TailSum(l, b, k, n - 1, j, p); }
  }

  /** After the last column, L times U is P times A. */
  lemma {:induction false} FinalStage(a: Matrix, l: Matrix, u: Matrix, p: Matrix, perm: seq<nat>, back: seq<nat>, m: nat, n: nat)
    requires Stage(a, l, u, p, perm, back, m, n, Min(m, n), 0)
    ensures Product(l, u, m, m, n) == Product(p, a, m, m, n) && UnitLower(l, m) && UpperZero(u, m, n)
    ensures PermutationMatrix(p, perm, m) && Permutes(perm, back, m)
  {
    var limit := Min(m, n);
    forall i, j | 0 <= i < m && 0 <= j < n ensures Sum(l[i], u, m, j) == Sum(p[i], a, m, j) {
      assert RowStage(a, l, u, perm, m, n, i, Depth(i, limit, 0));
      TailSum(l[i], u, Depth(i, limit, 0), m, j, i);
      UnitSum(p[i], a, m, j, perm[i]);
    }
    SameEntries(Product(l, u, m, m, n), Product(p, a, m, m, n), m, n);
    forall i, t | 0 <= i <= t < m ensures l[i][t] == Delta(i, t) { assert Depth(i, limit, 0) <= t; }
    forall i, k | 0 <= k < i < m && k < n ensures u[i][k] == 0.0 { assert k < Depth(i, limit, 0); }
  }

  // ---------------------------------------------------------------- the algorithm

  /** Exchange the first `done` entries of two rows of L, one at a time. */
  method SwapFactors(l: array<seq<real>>, m: nat, c: nat, q: nat, done: nat)
    requires l.Length == m && Shape(l[..], m, m) && c < q < m && done <= m
    modifies l
    ensures FactorsSwapped(old(l[..]), l[..], m, c, q, done)
  {
    ghost var before := l[..];
    for j := 0 to done
      invariant FactorsSwapped(before, l[..], m, c, q, j)
    {
      assert |l[..][c]| == m && |l[..][q]| == m;
      var x, y := l[c][j], l[q][j];
      l[c] := l[c][j := y];
      l[q] := l[q][j := x];
    }
  }

  /** u[row] loses factor times u[c], entry by entry from column c on. */
  method SubtractRow(u: array<seq<real>>, m: nat, n: nat, c: nat, row: nat, factor: real)
    requires u.Length == m && Shape(u[..], m, n) && c < row < m && c < n
    modifies u
    ensures Shape(u[..], m, n) && (forall i :: 0 <= i < m && i != row ==> u[i] == old(u[i]))
    ensures forall j :: 0 <= j < n ==> u[row][j] == if j < c then old(u[row])[j] else old(u[row])[j] - factor * old(u[c])[j]
  {
    assert |u[..][row]| == n && |u[..][c]| == n;
    ghost var before := u[row];
    for j := c to n
      invariant |u[row]| == n && (forall i :: 0 <= i < m && i != row ==> u[i] == old(u[i]))
      invariant forall k :: 0 <= k < n ==> u[row][k] == if k < c || k >= j then before[k] else before[k] - factor * u[c][k]
    {
      u[row] := u[row][j := u[row][j] - factor * u[c][j]];
    }
    forall i | 0 <= i < m ensures |u[..][i]| == n { if i != row { assert |old(u[..])[i]| == n; } }
  }

  /** The pivot row is brought up, in U, P and the factors of L. */
  method BringUp(a: Matrix, l: array<seq<real>>, u: array<seq<real>>, p: array<seq<real>>, ghost perm: seq<nat>, ghost back: seq<nat>, m: nat, n: nat, c: nat, q: nat)
    returns (ghost perm2: seq<nat>, ghost back2: seq<nat>)
    requires l.Length == m && u.Length == m && p.Length == m && l != u && l != p && u != p && c < q < m && c < n
    requires Stage(a, l[..], u[..], p[..], perm, back, m, n, c, 0) && u[q][c] != 0.0
    modifies l, u, p
    ensures Stage(a, l[..], u[..], p[..], perm2, back2, m, n, c, 0) && u[c][c] != 0.0
  {
    ghost var l0, u0, p0 := l[..], u[..], p[..];
    u[c], u[q] := u[q], u[c];
    p[c], p[q] := p[q], p[c];
    SwapFactors(l, m, c, q, c);
    assert u[..] == Swap(u0, c, q) && p[..] == Swap(p0, c, q);
    SwapStage(a, l0, u0, l[..], p0, perm, back, m, n, c, q);
    perm2, back2 := Swap(perm, c, q), Swap(back, perm[c], perm[q]);
  }

  /** Every row below the pivot is eliminated. */
  method EliminateColumn(a: Matrix, l: array<seq<real>>, u: array<seq<real>>, ghost p: Matrix, ghost perm: seq<nat>, ghost back: seq<nat>, m: nat, n: nat, c: nat)
    requires l.Length == m && u.Length == m && l != u && c < m && c < n
    requires Stage(a, l[..], u[..], p, perm, back, m, n, c, 0) && u[c][c] != 0.0
    modifies l, u
    ensures Stage(a, l[..], u[..], p, perm, back, m, n, c + 1, 0)
  {
    hide RowStage, Permutes, PermutationMatrix;
    NextColumn(a, l[..], u[..], p, perm, back, m, n, c);
    for row := c + 1 to m
      invariant Stage(a, l[..], u[..], p, perm, back, m, n, c, row) && |u[c]| == n && u[c][c] != 0.0
    {
      ghost var l0, u0 := l[..], u[..];
      assert |l0[row]| == m && |u0[row]| == n;
      var factor := u[row][c] / u[c][c];
      l[row] := l[row][c := factor];
      SubtractRow(u, m, n, c, row, factor);
      assert l[..] == l0[row := l0[row][c := factor]];
      EliminateStage(a, l0, u0, l[..], u[..], p, perm, back, m, n, c, row, factor);
    }
    NextColumn(a, l[..], u[..], p, perm, back, m, n, c);
  }

  /** Rows of zeros with a one on the diagonal. */
  method IdentityRows(m: nat) returns (r: array<seq<real>>)
    ensures fresh(r) && r.Length == m && r[..] == Identity(m)
  {
    r := new seq<real>[m](_ => []);
    for i := 0 to m
      invariant forall k :: 0 <= k < i ==> r[k] == Identity(m)[k]
    {
      var row := seq(m, _ => 0.0);
      row := row[i := 1.0];
      assert row == Identity(m)[i];
      r[i] := row;
    }
  }

  lemma {:induction false} FirstStage(a: Matrix, m: nat, n: nat, perm: seq<nat>)
    requires Shape(a, m, n) && perm == seq(m, i requires 0 <= i < m => i)
    ensures Stage(a, Identity(m), a, Identity(m), perm, perm, m, n, 0, 0)
  {
    forall i | 0 <= i < m ensures RowStage(a, Identity(m), a, perm, m, n, i, 0) {
    }
  }

  lemma {:induction false} StageShapes(a: Matrix, l: Matrix, u: Matrix, p: Matrix, perm: seq<nat>, back: seq<nat>, m: nat, n: nat, c: nat)
    requires Stage(a, l, u, p, perm, back, m, n, c, 0)
    ensures Shape(l, m, m) && Shape(u, m, n) && Shape(p, m, m)
  {
  }

  /** For every matrix, square or not and of any rank: L times U is P times A, L is unit lower triangular, U is zero below
      the diagonal, and P is the matrix of a permutation. */
  method Decompose(a: Matrix, m: nat, n: nat) returns (l: Matrix, u: Matrix, p: Matrix, ghost perm: seq<nat>, ghost back: seq<nat>)
    requires Shape(a, m, n)
    ensures Shape(l, m, m) && Shape(u, m, n) && Shape(p, m, m)
    ensures Product(l, u, m, m, n) == Product(p, a, m, m, n)
    ensures UnitLower(l, m) && UpperZero(u, m, n)
    ensures PermutationMatrix(p, perm, m) && Permutes(perm, back, m)
  {
    var uRows := new seq<real>[m](i requires 0 <= i < m => a[i]);
    var lRows := IdentityRows(m);
    var pRows := IdentityRows(m);
    perm := seq(m, i requires 0 <= i < m => i);
    back := perm;
    assert uRows[..] == a;
    hide Stage, Product, UnitLower, UpperZero, Permutes, PermutationMatrix;
    FirstStage(a, m, n, perm);
    for column := 0 to Min(m, n)
      invariant Stage(a, lRows[..], uRows[..], pRows[..], perm, back, m, n, column, 0)
    {
      StageShapes(a, lRows[..], uRows[..], pRows[..], perm, back, m, n, column);
      var pivot := FindPivot(uRows, m, n, column);
      if pivot == m {
        SkipStage(a, lRows[..], uRows[..], pRows[..], perm, back, m, n, column);
      } else {
        if pivot != column {
          perm, back := BringUp(a, lRows, uRows, pRows, perm, back, m, n, column, pivot);
        }
        EliminateColumn(a, lRows, uRows, pRows[..], perm, back, m, n, column);
      }
    }
    StageShapes(a, lRows[..], uRows[..], pRows[..], perm, back, m, n, Min(m, n));
    FinalStage(a, lRows[..], uRows[..], pRows[..], perm, back, m, n);
    l, u, p := lRows[..], uRows[..], pRows[..];
  }
}
