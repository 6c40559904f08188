/** Dense linear systems: Gaussian elimination with partial pivoting, in place on a
    matrix stored rowwise, over exact reals. */
module Matsol {
  import opened Basics

  datatype Status = Success | SingularMatrix

  const EPS12: real := 0.000000000001

  /** Where entry (i, j) of an n by n matrix is stored. */
  function Idx(n: nat, i: nat, j: nat): (k: nat)
    requires i < n && j < n
    ensures k < n * n
  {
    assert i * n <= (n - 1) * n;
    i * n + j
  }

  /** The matrix is stored rowwise: each entry is followed by the next of its row, and each
      row by the next row. */
  lemma RowAfterRow(n: nat, i: nat, j: nat)
    requires i < n && j < n
    ensures Idx(n, 0, 0) == 0
    ensures j + 1 < n ==> Idx(n, i, j + 1) == Idx(n, i, j) + 1
    ensures i + 1 < n ==> Idx(n, i + 1, 0) == Idx(n, i, n - 1) + 1
  {
  }

  function RowOf(n: nat, k: nat): nat
    requires k < n * n
  {
    assert n > 0;
    k / n
  }

  function ColumnOf(n: nat, k: nat): nat
    requires k < n * n
  {
    assert n > 0;
    k % n
  }

  lemma AtLeastOnce(d: int, n: nat)
    requires d > 0
    ensures d * n >= n
  {
    assert (d - 1) * n >= 0;
  }

  lemma QuotientIsUnique(n: nat, i: int, j: nat, q: int, r: nat)
    requires j < n && r < n && i * n + j == q * n + r
    ensures i == q && j == r
  {
    assert (q - i) * n == q * n - i * n;
    assert (i - q) * n == i * n - q * n;
    if q > i { AtLeastOnce(q - i, n); }
    if q < i { AtLeastOnce(i - q, n); }
  }

  /** The row and the column of an entry can be read off its place. */
  lemma IdxHasInverse(n: nat, i: nat, j: nat)
    requires i < n && j < n
    ensures RowOf(n, Idx(n, i, j)) == i && ColumnOf(n, Idx(n, i, j)) == j
  {
    var k := Idx(n, i, j);
    var q, r := k / n, k % n;
    QuotientIsUnique(n, i, j, q, r);
  }

  lemma IdxIsInjective(n: nat)
    ensures forall i: nat, j: nat {:trigger Idx(n, i, j)} :: i < n && j < n ==>
              RowOf(n, Idx(n, i, j)) == i && ColumnOf(n, Idx(n, i, j)) == j
  {
    hide Idx, RowOf, ColumnOf;
    forall i: nat, j: nat | i < n && j < n
      ensures RowOf(n, Idx(n, i, j)) == i && ColumnOf(n, Idx(n, i, j)) == j
    {
      IdxHasInverse(n, i, j);
    }
  }

  /** An entry after a multiple of another was taken from it. */
  function Less(a: real, f: real, p: real): real {
    a - f * p
  }

  lemma LessClears(a: real, p: real)
    requires p != 0.0
    ensures Less(a, a / p, p) == 0.0
  {
  }

  ghost predicate Sized(n: nat, m: seq<real>, b: seq<real>) {
    |m| == n * n && |b| == n
  }

  /** Part of row `i` times `y`: the terms from column `lo` up to, not including, `hi`. */
  ghost function Dot(n: nat, m: seq<real>, i: nat, y: seq<real>, lo: nat, hi: nat): real
    requires |m| == n * n && |y| == n && i < n && lo <= hi <= n
    decreases hi
  {
    if lo == hi then 0.0 else Dot(n, m, i, y, lo, hi - 1) + m[Idx(n, i, hi - 1)] * y[hi - 1]
  }

  /** `y` satisfies equation `i` of the system. */
  ghost predicate Holds(n: nat, m: seq<real>, b: seq<real>, y: seq<real>, i: nat)
    requires Sized(n, m, b) && |y| == n && i < n
  {
    Dot(n, m, i, y, 0, n) == b[i]
  }

  ghost predicate Solves(n: nat, m: seq<real>, b: seq<real>, y: seq<real>)
    requires Sized(n, m, b)
  {
    |y| == n && forall i: nat :: i < n ==> Holds(n, m, b, y, i)
  }

  /** Both systems have the same solutions. */
  ghost predicate Equivalent(n: nat, m: seq<real>, b: seq<real>, m': seq<real>, b': seq<real>)
    requires Sized(n, m, b) && Sized(n, m', b')
  {
    forall y :: Solves(n, m, b, y) <==> Solves(n, m', b', y)
  }

  /* ---- what a row operation does to one equation ---- */

  lemma {:induction false} DotSame(n: nat, m: seq<real>, i: nat, m': seq<real>, i': nat, y: seq<real>, y': seq<real>,
                                   lo: nat, hi: nat)
    requires |m| == |m'| == n * n && |y| == |y'| == n && i < n && i' < n && lo <= hi <= n
    requires forall j: nat :: lo <= j < hi ==> m[Idx(n, i, j)] == m'[Idx(n, i', j)]
    requires forall j: nat :: lo <= j < hi ==> y[j] == y'[j]
    ensures Dot(n, m, i, y, lo, hi) == Dot(n, m', i', y', lo, hi)
    decreases hi
  {
    hide Idx;
    if lo < hi {
      DotSame(n, m, i, m', i', y, y', lo, hi - 1);
      assert m[Idx(n, i, hi - 1)] == m'[Idx(n, i', hi - 1)];
    }
  }

  /** Row `r` of `m'` is row `r` of `m` less `f` times row `k`. */
  ghost predicate Reduced(n: nat, m: seq<real>, m': seq<real>, r: nat, k: nat, f: real)
    requires |m| == |m'| == n * n && r < n && k < n
  {
    forall j: nat :: j < n ==> m'[Idx(n, r, j)] == Less(m[Idx(n, r, j)], f, m[Idx(n, k, j)])
  }

  lemma LessOfZeros(f: real)
    ensures Less(0.0, f, 0.0) == 0.0
  {
  }

  lemma TermReduced(d: real, e: real, f: real, a: real, p: real, c: real, y: real, d': real, e': real, g: real,
                    g': real)
    requires c == Less(a, f, p) && g == Less(d, f, e)
    requires d' == d + a * y && e' == e + p * y && g' == g + c * y
    ensures g' == Less(d', f, e')
  {
    var q, s, h := p * y, f * e, f * p;
    assert (a - h) * y == a * y - h * y;
    assert h * y == f * q;
    assert f * (e + q) == s + f * q;
  }

  lemma {:induction false} DotReduced(n: nat, m: seq<real>, m': seq<real>, r: nat, k: nat, f: real, y: seq<real>,
                                      hi: nat)
    requires |m| == |m'| == n * n && |y| == n && r < n && k < n && hi <= n && Reduced(n, m, m', r, k, f)
    ensures Dot(n, m', r, y, 0, hi) == Less(Dot(n, m, r, y, 0, hi), f, Dot(n, m, k, y, 0, hi))
    decreases hi
  {
    hide Idx, Less;
    LessOfZeros(f);
    if hi > 0 {
      DotReduced(n, m, m', r, k, f, y, hi - 1);
      var j := hi - 1;
      assert m'[Idx(n, r, j)] == Less(m[Idx(n, r, j)], f, m[Idx(n, k, j)]);
      TermReduced(Dot(n, m, r, y, 0, j), Dot(n, m, k, y, 0, j), f,
                  m[Idx(n, r, j)], m[Idx(n, k, j)], m'[Idx(n, r, j)], y[j],
                  Dot(n, m, r, y, 0, hi), Dot(n, m, k, y, 0, hi), Dot(n, m', r, y, 0, j), Dot(n, m', r, y, 0, hi));
    }
  }

  ghost predicate SameRow(n: nat, m: seq<real>, i: nat, m': seq<real>, i': nat)
    requires |m| == |m'| == n * n && i < n && i' < n
  {
    forall j: nat :: j < n ==> m[Idx(n, i, j)] == m'[Idx(n, i', j)]
  }

  /** Only row `r` was changed, and it was reduced by row `k`. */
  ghost predicate RowReduced(n: nat, m: seq<real>, b: seq<real>, m': seq<real>, b': seq<real>, r: nat, k: nat,
                             f: real) {
    && Sized(n, m, b) && Sized(n, m', b') && r < n && k < n && r != k
    && Reduced(n, m, m', r, k, f) && b'[r] == Less(b[r], f, b[k])
    && (forall i: nat :: i < n && i != r ==> SameRow(n, m, i, m', i) && b[i] == b'[i])
  }

  /** Rows `p` and `q` changed places. */
  ghost predicate RowsSwapped(n: nat, m: seq<real>, b: seq<real>, m': seq<real>, b': seq<real>, p: nat, q: nat) {
    && Sized(n, m, b) && Sized(n, m', b') && p < n && q < n
    && p != q && SameRow(n, m, p, m', q) && SameRow(n, m, q, m', p) && b[p] == b'[q] && b[q] == b'[p]
    && (forall i: nat :: i < n && i != p && i != q ==> SameRow(n, m, i, m', i) && b[i] == b'[i])
  }

  lemma SameRowHolds(n: nat, m: seq<real>, b: seq<real>, i: nat, m': seq<real>, b': seq<real>, i': nat, y: seq<real>)
    requires Sized(n, m, b) && Sized(n, m', b') && |y| == n && i < n && i' < n
    requires SameRow(n, m, i, m', i') && b[i] == b'[i']
    ensures Holds(n, m, b, y, i) <==> Holds(n, m', b', y, i')
  {
    DotSame(n, m, i, m', i', y, y, 0, n);
  }

  lemma ReducingKeepsSolution(n: nat, m: seq<real>, b: seq<real>, m': seq<real>, b': seq<real>, r: nat, k: nat,
                              f: real, y: seq<real>)
    requires RowReduced(n, m, b, m', b', r, k, f) && |y| == n
    ensures Solves(n, m, b, y) <==> Solves(n, m', b', y)
  {
    DotReduced(n, m, m', r, k, f, y, n);
    forall i: nat | i < n && i != r ensures Holds(n, m, b, y, i) <==> Holds(n, m', b', y, i) {
      SameRowHolds(n, m, b, i, m', b', i, y);
    }
    hide Dot, Reduced, SameRow, Idx;
    assert Holds(n, m, b, y, k) ==> (Holds(n, m, b, y, r) <==> Holds(n, m', b', y, r));
    assert Holds(n, m, b, y, k) <==> Holds(n, m', b', y, k);
    if Solves(n, m, b, y) { assert Holds(n, m, b, y, k) && Holds(n, m, b, y, r); }
    if Solves(n, m', b', y) { assert Holds(n, m', b', y, k) && Holds(n, m', b', y, r); }
  }

  lemma SwappingKeepsSolution(n: nat, m: seq<real>, b: seq<real>, m': seq<real>, b': seq<real>, p: nat, q: nat,
                              y: seq<real>)
    requires RowsSwapped(n, m, b, m', b', p, q) && |y| == n
    ensures Solves(n, m, b, y) <==> Solves(n, m', b', y)
  {
    hide Dot, SameRow, Idx;
    SameRowHolds(n, m, b, p, m', b', q, y);
    SameRowHolds(n, m, b, q, m', b', p, y);
    forall i: nat | i < n && i != p && i != q ensures Holds(n, m, b, y, i) <==> Holds(n, m', b', y, i) {
      SameRowHolds(n, m, b, i, m', b', i, y);
    }
    hide Holds;
    if Solves(n, m, b, y) { assert Holds(n, m, b, y, p) && Holds(n, m, b, y, q); }
    if Solves(n, m', b', y) { assert Holds(n, m', b', y, p) && Holds(n, m', b', y, q); }
  }

  /** Taking a multiple of one row from another keeps the set of solutions. */
  lemma ReducingIsEquivalent(n: nat, m: seq<real>, b: seq<real>, m': seq<real>, b': seq<real>, r: nat, k: nat, f: real)
    requires RowReduced(n, m, b, m', b', r, k, f)
    ensures Equivalent(n, m, b, m', b')
  {
    assert Sized(n, m, b) && Sized(n, m', b');
    hide Holds, RowReduced;
    forall y ensures Solves(n, m, b, y) <==> Solves(n, m', b', y) {
      if |y| == n { ReducingKeepsSolution(n, m, b, m', b', r, k, f, y); }
    }
  }

  /** Exchanging two rows keeps the set of solutions. */
  lemma SwappingIsEquivalent(n: nat, m: seq<real>, b: seq<real>, m': seq<real>, b': seq<real>, p: nat, q: nat)
    requires RowsSwapped(n, m, b, m', b', p, q)
    ensures Equivalent(n, m, b, m', b')
  {
    assert Sized(n, m, b) && Sized(n, m', b');
    hide Holds, RowsSwapped;
    forall y ensures Solves(n, m, b, y) <==> Solves(n, m', b', y) {
      if |y| == n { SwappingKeepsSolution(n, m, b, m', b', p, q, y); }
    }
  }

  lemma EquivalentChain(n: nat, m: seq<real>, b: seq<real>, m': seq<real>, b': seq<real>, m'': seq<real>,
                        b'': seq<real>)
    requires Sized(n, m, b) && Sized(n, m', b') && Sized(n, m'', b'')
    requires Equivalent(n, m, b, m', b') && Equivalent(n, m', b', m'', b'')
    ensures Equivalent(n, m, b, m'', b'')
  {
    hide Solves;
    forall y ensures Solves(n, m, b, y) <==> Solves(n, m'', b'', y) {
      assert Solves(n, m, b, y) <==> Solves(n, m', b', y);
    }
  }

  /* ---- triangular systems ---- */

  /** The first `k` columns are zero below the diagonal and not zero on it. */
  ghost predicate Triangular(n: nat, m: seq<real>, k: nat)
    requires |m| == n * n && k <= n
  {
    && (forall i: nat, j: nat :: j < k && j < i < n ==> m[Idx(n, i, j)] == 0.0)
    && (forall j: nat :: j < k ==> m[Idx(n, j, j)] != 0.0)
  }

  lemma {:induction false} DotOfZeros(n: nat, m: seq<real>, i: nat, y: seq<real>, lo: nat, hi: nat)
    requires |m| == n * n && |y| == n && i < n && lo <= hi <= n
    requires forall j: nat :: lo <= j < hi ==> m[Idx(n, i, j)] == 0.0 || y[j] == 0.0
    ensures Dot(n, m, i, y, lo, hi) == 0.0
    decreases hi
  {
    hide Idx;
    if lo < hi { DotOfZeros(n, m, i, y, lo, hi - 1); }
  }

  lemma {:induction false} DotSplits(n: nat, m: seq<real>, i: nat, y: seq<real>, lo: nat, mid: nat, hi: nat)
    requires |m| == n * n && |y| == n && i < n && lo <= mid <= hi <= n
    ensures Dot(n, m, i, y, lo, hi) == Dot(n, m, i, y, lo, mid) + Dot(n, m, i, y, mid, hi)
    decreases hi
  {
    hide Idx;
    if mid < hi { DotSplits(n, m, i, y, lo, mid, hi - 1); }
  }

  /** A row that is zero before the diagonal needs only the terms from there on. */
  lemma TriangularRow(n: nat, m: seq<real>, i: nat, y: seq<real>)
    requires |m| == n * n && |y| == n && i < n
    requires forall j: nat :: j < i ==> m[Idx(n, i, j)] == 0.0
    ensures Dot(n, m, i, y, 0, n) == m[Idx(n, i, i)] * y[i] + Dot(n, m, i, y, i + 1, n)
  {
    hide Idx;
    DotOfZeros(n, m, i, y, 0, i);
    DotSplits(n, m, i, y, 0, i, n);
    DotSplits(n, m, i, y, i, i + 1, n);
    assert Dot(n, m, i, y, i, i) == 0.0;
  }

  lemma Cancel(a: real, y: real, z: real)
    requires a != 0.0 && a * y == a * z
    ensures y == z
  {
    assert a * (y - z) == a * y - a * z;
  }

  /** Solutions that agree from unknown `t` on agree in all unknowns, if the columns before
      `t` are reduced. */
  lemma {:induction false} AtMostOneSolution(n: nat, m: seq<real>, b: seq<real>, y: seq<real>, z: seq<real>, t: nat,
                                             k: nat)
    requires Sized(n, m, b) && k <= t <= n && Triangular(n, m, t)
    requires Solves(n, m, b, y) && Solves(n, m, b, z) && y[t..] == z[t..]
    ensures y[k..] == z[k..]
    decreases t - k
  {
    hide Idx, Dot, Holds, Triangular;
    if k < t {
      AtMostOneSolution(n, m, b, y, z, t, k + 1);
      OneMoreUnknown(n, m, b, y, z, t, k);
      assert y[k..] == [y[k]] + y[k + 1..] && z[k..] == [z[k]] + z[k + 1..];
    }
  }

  lemma OneMoreUnknown(n: nat, m: seq<real>, b: seq<real>, y: seq<real>, z: seq<real>, t: nat, k: nat)
    requires Sized(n, m, b) && k < t <= n && Triangular(n, m, t)
    requires Solves(n, m, b, y) && Solves(n, m, b, z) && y[k + 1..] == z[k + 1..]
    ensures y[k] == z[k]
  {
    hide Idx, Dot;
    assert Holds(n, m, b, y, k) && Holds(n, m, b, z, k);
    TriangularRow(n, m, k, y);
    TriangularRow(n, m, k, z);
    forall j: nat | k + 1 <= j < n ensures y[j] == z[j] {
      assert y[j] == y[k + 1..][j - (k + 1)];
      assert z[j] == z[k + 1..][j - (k + 1)];
    }
    DotSame(n, m, k, m, k, y, z, k + 1, n);
    Cancel(m[Idx(n, k, k)], y[k], z[k]);
  }

  /* ---- the algorithm ---- */

  /** The row at or below the diagonal whose entry in column `kc` is largest, the
      first such row on ties. */
  method FindPivot(A: array<real>, n: nat, kc: nat) returns (imax: nat, amax: real)
    requires kc < n && A.Length == n * n
    ensures kc <= imax < n && amax == Abs(A[Idx(n, imax, kc)])
    ensures forall i: nat :: kc <= i < n ==> Abs(A[Idx(n, i, kc)]) <= amax
    ensures forall i: nat :: kc <= i < imax ==> Abs(A[Idx(n, i, kc)]) < amax
  {
    hide Idx, Abs;
    imax, amax := kc, Abs(A[Idx(n, kc, kc)]);
    var ir := kc + 1;
    while ir < n
      invariant kc <= imax < ir <= n && amax == Abs(A[Idx(n, imax, kc)])
      invariant forall i: nat :: kc <= i < ir ==> Abs(A[Idx(n, i, kc)]) <= amax
      invariant forall i: nat :: kc <= i < imax ==> Abs(A[Idx(n, i, kc)]) < amax
    {
      if Abs(A[Idx(n, ir, kc)]) > amax {
        imax, amax := ir, Abs(A[Idx(n, ir, kc)]);
      }
      ir := ir + 1;
    }
  }

  method SwapRows(A: array<real>, b: array<real>, n: nat, p: nat, q: nat)
    requires p < n && q < n && p != q && A.Length == n * n && b.Length == n && A != b
    modifies A, b
    ensures RowsSwapped(n, old(A[..]), old(b[..]), A[..], b[..], p, q)
  {
    IdxIsInjective(n);
    hide Idx, RowOf, ColumnOf, Less;
    var jc := 0;
    while jc < n
      invariant jc <= n && b[..] == old(b[..])
      invariant forall j: nat :: j < jc ==> A[Idx(n, p, j)] == old(A[Idx(n, q, j)])
      invariant forall j: nat :: j < jc ==> A[Idx(n, q, j)] == old(A[Idx(n, p, j)])
      invariant forall i: nat, j: nat :: i < n && j < n && (j >= jc || (i != p && i != q))
                                         ==> A[Idx(n, i, j)] == old(A[Idx(n, i, j)])
    {
      var swap := A[Idx(n, p, jc)];
      A[Idx(n, p, jc)] := A[Idx(n, q, jc)];
      A[Idx(n, q, jc)] := swap;
      jc := jc + 1;
    }
    var swap := b[p];
    b[p] := b[q];
    b[q] := swap;
  }

  /** Take from row `ir` the multiple of row `kc` that clears column `kc`. */
  method ReduceRow(A: array<real>, b: array<real>, n: nat, kc: nat, ir: nat)
    requires kc < ir < n && A.Length == n * n && b.Length == n && A != b
    requires A[Idx(n, kc, kc)] != 0.0
    requires forall j: nat :: j < kc ==> A[Idx(n, ir, j)] == 0.0 && A[Idx(n, kc, j)] == 0.0
    modifies A, b
    ensures RowReduced(n, old(A[..]), old(b[..]), A[..], b[..], ir, kc, old(A[Idx(n, ir, kc)] / A[Idx(n, kc, kc)]))
    ensures A[Idx(n, ir, kc)] == 0.0
  {
    IdxIsInjective(n);
    hide Idx, RowOf, ColumnOf, Less;
    var fact := A[Idx(n, ir, kc)] / A[Idx(n, kc, kc)];
    LessClears(A[Idx(n, ir, kc)], A[Idx(n, kc, kc)]);
    LessOfZeros(fact);
    var jc := kc + 1;
    while jc < n
      invariant kc < jc <= n && b[..] == old(b[..])
      invariant forall j: nat :: kc < j < jc ==> A[Idx(n, ir, j)] == Less(old(A[Idx(n, ir, j)]), fact, old(A[Idx(n, kc, j)]))
      invariant forall i: nat, j: nat :: i < n && j < n && (i != ir || j <= kc || j >= jc)
                                         ==> A[Idx(n, i, j)] == old(A[Idx(n, i, j)])
    {
      A[Idx(n, ir, jc)] := Less(A[Idx(n, ir, jc)], fact, A[Idx(n, kc, jc)]);
      jc := jc + 1;
    }
    b[ir] := Less(b[ir], fact, b[kc]);
    A[Idx(n, ir, kc)] := 0.0;
  }

  /** Equation `i` of a triangular system does not see the unknowns before `i`. */
  lemma LaterEquations(n: nat, m: seq<real>, b: seq<real>, y: seq<real>, y': seq<real>, i: nat)
    requires Sized(n, m, b) && Triangular(n, m, n) && |y| == |y'| == n && i < n
    requires forall j: nat :: i <= j < n ==> y[j] == y'[j]
    ensures Holds(n, m, b, y, i) <==> Holds(n, m, b, y', i)
  {
    hide Idx;
    TriangularRow(n, m, i, y);
    TriangularRow(n, m, i, y');
    DotSame(n, m, i, m, i, y, y', i + 1, n);
  }

  lemma Quotient(a: real, r: real, q: real)
    requires a != 0.0 && q == r / a
    ensures a * q == r
  {
  }

  /** What one step of the back substitution settles: equation `i`. */
  lemma EquationSettled(n: nat, m: seq<real>, b: seq<real>, y: seq<real>, y': seq<real>, i: nat)
    requires Sized(n, m, b) && Triangular(n, m, n) && |y| == |y'| == n && i < n
    requires forall j: nat :: i < j < n ==> y[j] == y'[j]
    requires m[Idx(n, i, i)] * y'[i] == b[i] - Dot(n, m, i, y, i + 1, n)
    ensures Holds(n, m, b, y', i)
  {
    hide Idx;
    TriangularRow(n, m, i, y');
    DotSame(n, m, i, m, i, y, y', i + 1, n);
  }

  /** What is left of the right-hand side of equation `jc` once the unknowns after
      `jc` are known. */
  method SubtractKnown(A: array<real>, b: array<real>, n: nat, x: array<real>, jc: nat)
    requires jc < n && A.Length == n * n && b.Length == x.Length == n && A != x && b != x
    modifies x
    ensures x[jc] == b[jc] - Dot(n, A[..], jc, old(x[..]), jc + 1, n)
    ensures forall j: nat :: j < n && j != jc ==> x[j] == old(x[j])
  {
    hide Idx;
    ghost var m, y := A[..], x[..];
    x[jc] := b[jc];
    var kc := jc + 1;
    while kc < n
      invariant jc < kc <= n && A[..] == m && b[..] == old(b[..])
      invariant x[jc] == b[jc] - Dot(n, m, jc, y, jc + 1, kc)
      invariant forall j: nat :: j < n && j != jc ==> x[j] == y[j]
    {
      x[jc] := x[jc] - A[Idx(n, jc, kc)] * x[kc];
      kc := kc + 1;
    }
  }

  /** Solve a triangular system from its last equation up. */
  method BackSubstitute(A: array<real>, b: array<real>, n: nat, x: array<real>)
    requires n >= 1 && A.Length == n * n && b.Length == x.Length == n && A != x && b != x
    requires Triangular(n, A[..], n)
    modifies x
    ensures Solves(n, A[..], b[..], x[..])
  {
    ghost var m, c, start := A[..], b[..], x[..];
    hide Idx, Triangular, Dot;
    assert forall j: nat :: j < n ==> m[Idx(n, j, j)] != 0.0 by { DiagonalIsNonzero(n, m); }
    x[n - 1] := b[n - 1] / A[Idx(n, n - 1, n - 1)];
    Quotient(m[Idx(n, n - 1, n - 1)], c[n - 1], x[n - 1]);
    EquationSettled(n, m, c, start, x[..], n - 1);
    var jc: int := n - 2;
    hide Holds;
    while jc >= 0
      invariant -1 <= jc <= n - 2
      invariant A[..] == m && b[..] == c
      invariant forall i: nat :: jc < i < n ==> Holds(n, m, c, x[..], i)
    {
      ghost var y := x[..];
      SubtractKnown(A, b, n, x, jc);
      ghost var r := x[jc];
      x[jc] := x[jc] / A[Idx(n, jc, jc)];
      Quotient(m[Idx(n, jc, jc)], r, x[jc]);
      EquationSettled(n, m, c, y, x[..], jc);
      forall i: nat | jc < i < n ensures Holds(n, m, c, x[..], i) {
        LaterEquations(n, m, c, y, x[..], i);
      }
      jc := jc - 1;
    }
  }

  lemma DiagonalIsNonzero(n: nat, m: seq<real>)
    requires |m| == n * n && Triangular(n, m, n)
    ensures forall j: nat :: j < n ==> m[Idx(n, j, j)] != 0.0
  {
  }

  /** Column `kc` has no usable pivot once the columns before it are reduced. */
  ghost predicate NoPivot(n: nat, m: seq<real>, kc: nat)
    requires |m| == n * n
  {
    kc < n && Triangular(n, m, kc) && forall i: nat :: kc <= i < n ==> Abs(m[Idx(n, i, kc)]) < 0.000000000001
  }

  /** The matrix was reduced all the way, with pivots that are not too small. */
  ghost predicate FullyReduced(n: nat, m: seq<real>)
    requires |m| == n * n
  {
    Triangular(n, m, n) && forall j: nat :: j < n ==> Abs(m[Idx(n, j, j)]) >= 0.000000000001
  }

  /** The first `kc` columns are reduced; below row `ir`, column `kc` is too. */
  ghost predicate Below(n: nat, m: seq<real>, kc: nat, ir: nat)
    requires |m| == n * n && kc < ir <= n
  {
    Triangular(n, m, kc) && m[Idx(n, kc, kc)] != 0.0 && forall i: nat :: kc < i < ir ==> m[Idx(n, i, kc)] == 0.0
  }

  lemma SwapKeepsShape(n: nat, m: seq<real>, b: seq<real>, m': seq<real>, b': seq<real>, kc: nat, p: nat)
    requires RowsSwapped(n, m, b, m', b', kc, p) && kc < p < n && Triangular(n, m, kc)
    ensures Triangular(n, m', kc) && m'[Idx(n, kc, kc)] == m[Idx(n, p, kc)]
    ensures forall j: nat :: j < kc ==> m'[Idx(n, j, j)] == m[Idx(n, j, j)]
  {
    hide Idx;
    forall i: nat, j: nat | j < kc && j <= i < n
      ensures i == j ==> m'[Idx(n, i, j)] == m[Idx(n, i, j)]
      ensures i > j ==> m'[Idx(n, i, j)] == 0.0
    {
      var from := if i == kc then p else if i == p then kc else i;
      assert SameRow(n, m, from, m', i);
      assert m'[Idx(n, i, j)] == m[Idx(n, from, j)];
    }
  }

  lemma ReduceKeepsShape(n: nat, m: seq<real>, b: seq<real>, m': seq<real>, b': seq<real>, kc: nat, ir: nat, f: real)
    requires RowReduced(n, m, b, m', b', ir, kc, f) && kc < ir < n && Below(n, m, kc, ir) && m'[Idx(n, ir, kc)] == 0.0
    ensures Below(n, m', kc, ir + 1)
    ensures forall j: nat :: j <= kc ==> m'[Idx(n, j, j)] == m[Idx(n, j, j)]
  {
    hide Idx, Less;
    LessOfZeros(f);
    forall i: nat, j: nat | j <= kc && j <= i < n && (j < kc || i <= ir)
      ensures i == j ==> m'[Idx(n, i, j)] == m[Idx(n, i, j)]
      ensures i > j ==> m'[Idx(n, i, j)] == 0.0
    {
      if i == ir {
        assert j < kc ==> m'[Idx(n, ir, j)] == Less(m[Idx(n, ir, j)], f, m[Idx(n, kc, j)]);
      } else {
        assert SameRow(n, m, i, m', i);
      }
    }
  }

  lemma BelowAll(n: nat, m: seq<real>, kc: nat)
    requires |m| == n * n && kc < n && Below(n, m, kc, n)
    ensures Triangular(n, m, kc + 1)
  {
    hide Idx;
  }

  /** Reduce column `kc` below the diagonal. */
  method ReduceColumn(A: array<real>, b: array<real>, n: nat, kc: nat)
    requires kc < n && A.Length == n * n && b.Length == n && A != b
    requires Triangular(n, A[..], kc) && A[Idx(n, kc, kc)] != 0.0
    modifies A, b
    ensures Triangular(n, A[..], kc + 1)
    ensures forall j: nat :: j <= kc ==> A[Idx(n, j, j)] == old(A[Idx(n, j, j)])
    ensures Equivalent(n, old(A[..]), old(b[..]), A[..], b[..])
  {
    hide Idx, Equivalent, RowReduced;
    ghost var m0, b0 := A[..], b[..];
    EquivalentToItself(n, m0, b0);
    var ir := kc + 1;
    while ir < n
      invariant kc < ir <= n
      invariant Below(n, A[..], kc, ir)
      invariant forall j: nat :: j <= kc ==> A[Idx(n, j, j)] == m0[Idx(n, j, j)]
      invariant Equivalent(n, m0, b0, A[..], b[..])
    {
      ghost var m, c := A[..], b[..];
      ghost var f := m[Idx(n, ir, kc)] / m[Idx(n, kc, kc)];
      ReduceRow(A, b, n, kc, ir);
      assert RowReduced(n, m, c, A[..], b[..], ir, kc, f);
      ReduceKeepsShape(n, m, c, A[..], b[..], kc, ir, f);
      ReducingIsEquivalent(n, m, c, A[..], b[..], ir, kc, f);
      EquivalentChain(n, m0, b0, m, c, A[..], b[..]);
      ir := ir + 1;
    }
    BelowAll(n, A[..], kc);
  }

  lemma EquivalentToItself(n: nat, m: seq<real>, b: seq<real>)
    requires Sized(n, m, b)
    ensures Equivalent(n, m, b, m, b)
  {
  }

  lemma OnlySolution(n: nat, m: seq<real>, b: seq<real>, x: seq<real>)
    requires Sized(n, m, b) && Triangular(n, m, n) && Solves(n, m, b, x)
    ensures forall y :: Solves(n, m, b, y) <==> y == x
  {
    hide Triangular;
    forall y | Solves(n, m, b, y) ensures y == x {
      AtMostOneSolution(n, m, b, y, x, n, 0);
      assert y == y[0..] && x == x[0..];
    }
  }

  /** On Success `x` is the one and only solution of the system as it was given; the
      system left in `A` and `b` always has the solutions of the one given; and the
      outcome is Success just when `A` was reduced all the way. */
  method Matsol(A: array<real>, b: array<real>, n: nat, x: array<real>) returns (status: Status)
    requires n >= 1 && A.Length == n * n && b.Length == x.Length == n && A != b && A != x && b != x
    modifies A, b, x
    ensures status == Success ==> forall y :: Solves(n, old(A[..]), old(b[..]), y) <==> y == x[..]
    ensures Equivalent(n, old(A[..]), old(b[..]), A[..], b[..])
    ensures status == Success <==> FullyReduced(n, A[..])
    ensures status == SingularMatrix ==> x[..] == old(x[..]) && exists kc: nat :: NoPivot(n, A[..], kc)
  {
    hide Idx, Equivalent, RowsSwapped, Triangular, Solves, Dot;
    ghost var m0, b0 := A[..], b[..];
    EquivalentToItself(n, m0, b0);
    TriangularAtFirst(n, m0);
    var kc := 0;
    while kc < n
      invariant kc <= n && x[..] == old(x[..])
      invariant Triangular(n, A[..], kc)
      invariant forall j: nat :: j < kc ==> Abs(A[Idx(n, j, j)]) >= EPS12
      invariant Equivalent(n, m0, b0, A[..], b[..])
    {
      var imax, amax := FindPivot(A, n, kc);
      if amax < EPS12 {
        assert NoPivot(n, A[..], kc);
        assert Abs(A[Idx(n, kc, kc)]) < EPS12;
        return SingularMatrix;
      }
      ghost var m, c := A[..], b[..];
      if imax != kc {
        SwapRows(A, b, n, kc, imax);
        SwapKeepsShape(n, m, c, A[..], b[..], kc, imax);
        SwappingIsEquivalent(n, m, c, A[..], b[..], kc, imax);
        EquivalentChain(n, m0, b0, m, c, A[..], b[..]);
      }
      ghost var m', c' := A[..], b[..];
      assert Abs(m'[Idx(n, kc, kc)]) >= EPS12;
      ReduceColumn(A, b, n, kc);
      EquivalentChain(n, m0, b0, m', c', A[..], b[..]);
      kc := kc + 1;
    }
    BackSubstitute(A, b, n, x);
    OnlySolution(n, A[..], b[..], x[..]);
    SameSolutions(n, m0, b0, A[..], b[..], x[..]);
    return Success;
  }

  lemma TriangularAtFirst(n: nat, m: seq<real>)
    requires |m| == n * n
    ensures Triangular(n, m, 0)
  {
  }

  lemma SameSolutions(n: nat, m: seq<real>, b: seq<real>, m': seq<real>, b': seq<real>, x: seq<real>)
    requires Sized(n, m, b) && Sized(n, m', b') && Equivalent(n, m, b, m', b')
    requires forall y :: Solves(n, m', b', y) <==> y == x
    ensures forall y :: Solves(n, m, b, y) <==> y == x
  {
    hide Solves;
  }

  /* ---- what a refusal says ---- */

  lemma {:induction false} DotOfSum(n: nat, m: seq<real>, i: nat, y: seq<real>, v: seq<real>, z: seq<real>, hi: nat)
    requires |m| == n * n && |y| == |v| == |z| == n && i < n && hi <= n
    requires forall j: nat :: j < n ==> z[j] == y[j] + v[j]
    ensures Dot(n, m, i, z, 0, hi) == Dot(n, m, i, y, 0, hi) + Dot(n, m, i, v, 0, hi)
    decreases hi
  {
    hide Idx;
    if hi > 0 {
      DotOfSum(n, m, i, y, v, z, hi - 1);
      Distributes(m[Idx(n, i, hi - 1)], y[hi - 1], v[hi - 1], z[hi - 1]);
    }
  }

  lemma Distributes(a: real, y: real, v: real, z: real)
    requires z == y + v
    ensures a * z == a * y + a * v
  {
  }

  /** Only zeros in column `kc` on and below the diagonal. */
  ghost predicate ZeroColumn(n: nat, m: seq<real>, kc: nat)
    requires |m| == n * n
  {
    kc < n && Triangular(n, m, kc) && forall i: nat :: kc <= i < n ==> m[Idx(n, i, kc)] == 0.0
  }

  /** A vector that is not zero and that rows `k` and on take to zero. */
  lemma {:induction false} NullVector(n: nat, m: seq<real>, kc: nat, k: nat) returns (v: seq<real>)
    requires |m| == n * n && ZeroColumn(n, m, kc) && k <= kc
    ensures |v| == n && v[kc] == 1.0 && (forall j: nat :: kc < j < n ==> v[j] == 0.0)
    ensures forall i: nat :: k <= i < n ==> Dot(n, m, i, v, 0, n) == 0.0
    decreases kc - k
  {
    hide Idx;
    if k == kc {
      v := seq(n, j requires 0 <= j < n => if j == kc then 1.0 else 0.0);
      forall i: nat | k <= i < n ensures Dot(n, m, i, v, 0, n) == 0.0 {
        DotOfZeros(n, m, i, v, 0, n);
      }
    } else {
      var w := NullVector(n, m, kc, k + 1);
      var a := m[Idx(n, k, k)];
      var r := -Dot(n, m, k, w, k + 1, n);
      v := w[k := r / a];
      Quotient(a, r, v[k]);
      TriangularRow(n, m, k, v);
      DotSame(n, m, k, m, k, w, v, k + 1, n);
      forall i: nat | k < i < n ensures Dot(n, m, i, v, 0, n) == 0.0 {
        LaterRows(n, m, kc, k, i, w, v);
      }
    }
  }

  lemma LaterRows(n: nat, m: seq<real>, kc: nat, k: nat, i: nat, w: seq<real>, v: seq<real>)
    requires |m| == n * n && kc <= n && Triangular(n, m, kc) && k < kc && k < i < n && |w| == |v| == n
    requires forall j: nat :: j < n && j != k ==> w[j] == v[j]
    ensures Dot(n, m, i, w, 0, n) == Dot(n, m, i, v, 0, n)
  {
    hide Idx;
    DotSplits(n, m, i, w, 0, k + 1, n);
    DotSplits(n, m, i, v, 0, k + 1, n);
    DotOfZeros(n, m, i, w, 0, k + 1);
    DotOfZeros(n, m, i, v, 0, k + 1);
    DotSame(n, m, i, m, i, w, v, k + 1, n);
  }

  /** If the column without a pivot is all zeros, the system given is singular: it does
      not have exactly one solution, whatever its right-hand side. */
  lemma ZeroColumnIsSingular(n: nat, m: seq<real>, b: seq<real>, m': seq<real>, b': seq<real>, kc: nat, y: seq<real>)
    requires Sized(n, m, b) && Sized(n, m', b') && Equivalent(n, m, b, m', b') && ZeroColumn(n, m', kc)
    requires Solves(n, m, b, y)
    ensures exists z :: z != y && Solves(n, m, b, z)
  {
    assert kc < n;
    hide Idx, Dot, ZeroColumn;
    var v := NullVector(n, m', kc, 0);
    var z := seq(n, j requires 0 <= j < n => y[j] + v[j]);
    assert Solves(n, m', b', y);
    forall i: nat | i < n ensures Holds(n, m', b', z, i) {
      DotOfSum(n, m', i, y, v, z, n);
      assert Holds(n, m', b', y, i);
    }
    assert Solves(n, m', b', z);
    assert z[kc] == y[kc] + 1.0;
  }

  /** The unknowns from `k` on, all others being zero. */
  function Padded(k: nat, u: seq<real>): seq<real> {
    seq(k, _ => 0.0) + u
  }

  /** `u` satisfies the equations from row `k` on in the unknowns from `k` on: the trailing
      block of the system, which starts at entry (k, k). */
  ghost predicate SolvesBlock(n: nat, m: seq<real>, b: seq<real>, k: nat, u: seq<real>)
    requires Sized(n, m, b) && k <= n
  {
    |u| == n - k && forall i: nat :: k <= i < n ==> BlockRow(n, m, i, k, u) == b[i]
  }

  ghost function BlockRow(n: nat, m: seq<real>, i: nat, k: nat, u: seq<real>): real
    requires |m| == n * n && i < n && k + |u| == n
  {
    Dot(n, m, i, Padded(k, u), k, n)
  }

  /** The system has exactly one solution. */
  ghost predicate Unique(n: nat, m: seq<real>, b: seq<real>)
    requires Sized(n, m, b)
  {
    exists x :: OnlyOne(n, m, b, x)
  }

  ghost predicate OnlyOne(n: nat, m: seq<real>, b: seq<real>, x: seq<real>)
    requires Sized(n, m, b)
  {
    forall y :: Solves(n, m, b, y) <==> y == x
  }

  /** The trailing block has exactly one solution. */
  ghost predicate BlockUnique(n: nat, m: seq<real>, b: seq<real>, k: nat)
    requires Sized(n, m, b) && k <= n
  {
    exists u :: OnlyOneBlock(n, m, b, k, u)
  }

  ghost predicate OnlyOneBlock(n: nat, m: seq<real>, b: seq<real>, k: nat, u: seq<real>)
    requires Sized(n, m, b) && k <= n
  {
    forall w :: SolvesBlock(n, m, b, k, w) <==> w == u
  }

  /** A row that is zero before column `k` sees only the block. */
  lemma BlockRowIsDot(n: nat, m: seq<real>, i: nat, k: nat, y: seq<real>)
    requires |m| == n * n && k <= i < n && |y| == n && Triangular(n, m, k)
    ensures Dot(n, m, i, y, 0, n) == BlockRow(n, m, i, k, y[k..])
  {
    hide Idx;
    DotOfZeros(n, m, i, y, 0, k);
    DotSplits(n, m, i, y, 0, k, n);
    DotSame(n, m, i, m, i, y, Padded(k, y[k..]), k, n);
  }

  /** A solution of the system solves the block. */
  lemma BlockIsSolved(n: nat, m: seq<real>, b: seq<real>, k: nat, y: seq<real>)
    requires Sized(n, m, b) && k <= n && Triangular(n, m, k) && Solves(n, m, b, y)
    ensures SolvesBlock(n, m, b, k, y[k..])
  {
    hide Idx, Dot, Triangular, BlockRow;
    forall i: nat | k <= i < n ensures BlockRow(n, m, i, k, y[k..]) == b[i] {
      BlockRowIsDot(n, m, i, k, y);
      assert Holds(n, m, b, y, i);
    }
  }

  /** A solution of the block is the end of one of the system, from row `r` on. */
  lemma {:induction false} BlockExtends(n: nat, m: seq<real>, b: seq<real>, k: nat, u: seq<real>, r: nat)
    returns (y: seq<real>)
    requires Sized(n, m, b) && r <= k <= n && Triangular(n, m, k) && SolvesBlock(n, m, b, k, u)
    ensures |y| == n && y[k..] == u && forall i: nat :: r <= i < n ==> Holds(n, m, b, y, i)
    decreases k - r
  {
    hide Idx, Dot, BlockRow, Triangular, Holds;
    if r == k {
      y := Padded(k, u);
      assert y[k..] == u;
      forall i: nat | r <= i < n ensures Holds(n, m, b, y, i) {
        BlockRowIsDot(n, m, i, k, y);
        DotHolds(n, m, b, y, i);
      }
    } else {
      var w := BlockExtends(n, m, b, k, u, r + 1);
      y := OneMoreEquation(n, m, b, k, r, w);
      assert y[k..] == w[k..];
    }
  }

  lemma DotHolds(n: nat, m: seq<real>, b: seq<real>, y: seq<real>, i: nat)
    requires Sized(n, m, b) && i < n && |y| == n && Dot(n, m, i, y, 0, n) == b[i]
    ensures Holds(n, m, b, y, i)
  {
  }

  /** Equation `r` can be met by its own unknown, and the later ones do not notice. */
  lemma OneMoreEquation(n: nat, m: seq<real>, b: seq<real>, k: nat, r: nat, w: seq<real>) returns (y: seq<real>)
    requires Sized(n, m, b) && r < k <= n && Triangular(n, m, k) && |w| == n
    requires forall i: nat :: r < i < n ==> Holds(n, m, b, w, i)
    ensures |y| == n && y == w[r := y[r]] && forall i: nat :: r <= i < n ==> Holds(n, m, b, y, i)
  {
    hide Idx, Dot, Holds;
    var a := m[Idx(n, r, r)];
    var c := b[r] - Dot(n, m, r, w, r + 1, n);
    y := w[r := c / a];
    Quotient(a, c, y[r]);
    TriangularRow(n, m, r, y);
    DotSame(n, m, r, m, r, w, y, r + 1, n);
    DotHolds(n, m, b, y, r);
    forall i: nat | r < i < n ensures Holds(n, m, b, y, i) {
      LaterRows(n, m, k, r, i, w, y);
      SameDot(n, m, b, w, y, i);
    }
  }

  lemma SameDot(n: nat, m: seq<real>, b: seq<real>, w: seq<real>, y: seq<real>, i: nat)
    requires Sized(n, m, b) && i < n && |y| == |w| == n && Dot(n, m, i, w, 0, n) == Dot(n, m, i, y, 0, n)
    ensures Holds(n, m, b, w, i) <==> Holds(n, m, b, y, i)
  {
    hide Dot;
  }

  /** When a refusal at column `kc` is right: the system given has exactly one solution if
      and only if the trailing block of what is left in place of it has. */
  lemma RefusalIsRightIff(n: nat, m: seq<real>, b: seq<real>, m': seq<real>, b': seq<real>, kc: nat)
    requires Sized(n, m, b) && Sized(n, m', b') && Equivalent(n, m, b, m', b') && kc <= n && Triangular(n, m', kc)
    ensures Unique(n, m, b) <==> BlockUnique(n, m', b', kc)
  {
    hide Triangular, OnlyOne, OnlyOneBlock, Equivalent;
    forall x | OnlyOne(n, m, b, x) ensures BlockUnique(n, m', b', kc) {
      OneForAll(n, m, b, m', b', x);
      SizeOfSolution(n, m', b', x);
      BlockIsUnique(n, m', b', kc, x);
    }
    forall u | OnlyOneBlock(n, m', b', kc, u) ensures Unique(n, m, b) {
      var x := UniqueFromBlock(n, m', b', kc, u);
      OneForAll(n, m, b, m', b', x);
    }
  }

  lemma SizeOfSolution(n: nat, m: seq<real>, b: seq<real>, x: seq<real>)
    requires Sized(n, m, b) && OnlyOne(n, m, b, x)
    ensures |x| == n && Solves(n, m, b, x)
  {
    hide Holds;
    assert Solves(n, m, b, x);
  }

  lemma OneForAll(n: nat, m: seq<real>, b: seq<real>, m': seq<real>, b': seq<real>, x: seq<real>)
    requires Sized(n, m, b) && Sized(n, m', b') && Equivalent(n, m, b, m', b')
    ensures OnlyOne(n, m, b, x) <==> OnlyOne(n, m', b', x)
  {
    hide Solves;
  }

  lemma BlockIsUnique(n: nat, m: seq<real>, b: seq<real>, k: nat, x: seq<real>)
    requires Sized(n, m, b) && k <= n && Triangular(n, m, k) && OnlyOne(n, m, b, x) && |x| == n
    ensures OnlyOneBlock(n, m, b, k, x[k..])
  {
    hide Idx, Dot, Triangular, SolvesBlock, Holds;
    assert Solves(n, m, b, x);
    BlockIsSolved(n, m, b, k, x);
    forall w | SolvesBlock(n, m, b, k, w) ensures w == x[k..] {
      var y := BlockExtends(n, m, b, k, w, 0);
      assert Solves(n, m, b, y);
    }
  }

  lemma UniqueFromBlock(n: nat, m: seq<real>, b: seq<real>, k: nat, u: seq<real>) returns (x: seq<real>)
    requires Sized(n, m, b) && k <= n && Triangular(n, m, k) && OnlyOneBlock(n, m, b, k, u)
    ensures OnlyOne(n, m, b, x)
  {
    hide Idx, Dot, Triangular, SolvesBlock, Holds;
    x := BlockExtends(n, m, b, k, u, 0);
    assert Solves(n, m, b, x);
    forall y | Solves(n, m, b, y) ensures y == x {
      BlockIsSolved(n, m, b, k, y);
      AtMostOneSolution(n, m, b, y, x, k, 0);
      assert y[0..] == y && x[0..] == x;
    }
  }

  /** A refusal at the last column is right just when the entry there is zero. */
  lemma LastRefusalIsRightIff(n: nat, m: seq<real>, b: seq<real>, m': seq<real>, b': seq<real>)
    requires n >= 1 && Sized(n, m, b) && Sized(n, m', b') && Equivalent(n, m, b, m', b') && Triangular(n, m', n - 1)
    ensures Unique(n, m, b) <==> m'[Idx(n, n - 1, n - 1)] != 0.0
  {
    hide Idx, Triangular, Equivalent, Unique, OnlyOneBlock;
    var k: nat := n - 1;
    RefusalIsRightIff(n, m, b, m', b', k);
    if m'[Idx(n, k, k)] != 0.0 {
      LastBlockIsUnique(n, m', b');
    } else {
      forall u ensures !OnlyOneBlock(n, m', b', k, u) { LastBlockIsNotUnique(n, m', b', u); }
    }
  }

  lemma LastBlockIsUnique(n: nat, m: seq<real>, b: seq<real>)
    requires n >= 1 && Sized(n, m, b) && m[Idx(n, n - 1, n - 1)] != 0.0
    ensures OnlyOneBlock(n, m, b, n - 1, [b[n - 1] / m[Idx(n, n - 1, n - 1)]])
  {
    hide Idx, SolvesBlock;
    var k: nat := n - 1;
    var a, c := m[Idx(n, k, k)], b[k];
    Quotient(a, c, c / a);
    forall w ensures SolvesBlock(n, m, b, k, w) <==> w == [c / a] {
      if |w| == 1 {
        BlockOfOne(n, m, b, w);
        if a * w[0] == c { Cancel(a, w[0], c / a); }
      } else {
        BlockSize(n, m, b, w);
      }
    }
  }

  lemma LastBlockIsNotUnique(n: nat, m: seq<real>, b: seq<real>, u: seq<real>)
    requires n >= 1 && Sized(n, m, b) && m[Idx(n, n - 1, n - 1)] == 0.0
    ensures !OnlyOneBlock(n, m, b, n - 1, u)
  {
    hide Idx, SolvesBlock;
    if SolvesBlock(n, m, b, n - 1, u) {
      if |u| != 1 { BlockSize(n, m, b, u); }
      BlockOfOne(n, m, b, u);
      BlockOfOne(n, m, b, [u[0] + 1.0]);
    }
  }

  lemma BlockSize(n: nat, m: seq<real>, b: seq<real>, u: seq<real>)
    requires n >= 1 && Sized(n, m, b) && |u| != 1
    ensures !SolvesBlock(n, m, b, n - 1, u)
  {
  }

  lemma BlockOfOne(n: nat, m: seq<real>, b: seq<real>, u: seq<real>)
    requires n >= 1 && Sized(n, m, b) && |u| == 1
    ensures SolvesBlock(n, m, b, n - 1, u) <==> m[Idx(n, n - 1, n - 1)] * u[0] == b[n - 1]
  {
    hide Idx;
    var y := Padded(n - 1, u);
    assert y[n - 1] == u[0];
    assert Dot(n, m, n - 1, y, n - 1, n - 1) == 0.0;
    assert BlockRow(n, m, n - 1, n - 1, u) == m[Idx(n, n - 1, n - 1)] * u[0];
  }

  /** A refused system need not be singular: the one equation 1e-13 x = 1e-13 has exactly
      one solution, and no usable pivot. */
  lemma RefusedButSolvable()
    ensures NoPivot(1, [0.0000000000001], 0)
    ensures forall y :: Solves(1, [0.0000000000001], [0.0000000000001], y) <==> y == [1.0]
  {
    var m := [0.0000000000001];
    forall y ensures Solves(1, m, m, y) <==> y == [1.0] {
      if |y| == 1 {
        assert Dot(1, m, 0, y, 0, 1) == Dot(1, m, 0, y, 0, 0) + m[Idx(1, 0, 0)] * y[0];
        assert Holds(1, m, m, y, 0) <==> y[0] == 1.0;
        assert Solves(1, m, m, y) <==> Holds(1, m, m, y, 0);
      }
    }
  }
}
