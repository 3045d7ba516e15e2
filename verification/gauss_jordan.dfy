/**
 * The normal-equation solver the regression models of the model-comparison
 * page share: it forms XᵀX and Xᵀy and runs Gauss-Jordan elimination on the
 * augmented matrix [XᵀX | Xᵀy] without pivoting.  Each column's pivot row is
 * divided by the pivot (from the pivot column on) and then subtracted, scaled,
 * from every other row.  When every pivot met on the way is non-zero, the
 * left block ends as the identity and the last column solves the system.
 */
module GaussJordan {
  import opened Numerics

  /** p rows of p + 1 entries: the coefficient block and the right-hand side. */
  predicate Augmented(a: seq<seq<real>>, p: nat)
  {
    |a| == p && forall r :: 0 <= r < p ==> |a[r]| == p + 1
  }

  /** `row[0] * beta[0] + ... + row[len - 1] * beta[len - 1]`, summed left to right. */
  function Dot(row: seq<real>, beta: seq<real>, len: nat): real
    requires len <= |row| && len <= |beta|
  {
    if len == 0 then 0.0 else Dot(row, beta, len - 1) + row[len - 1] * beta[len - 1]
  }

  /** beta solves every row: the coefficient block times beta is the right-hand side. */
  ghost predicate Solves(a: seq<seq<real>>, p: nat, beta: seq<real>)
    requires Augmented(a, p) && |beta| == p
  {
    forall r :: 0 <= r < p ==> Dot(a[r], beta, p) == a[r][p]
  }

  /** Columns before i already hold the identity. */
  ghost predicate IdentityBefore(a: seq<seq<real>>, p: nat, i: nat)
    requires Augmented(a, p) && i <= p
  {
    forall r, c :: 0 <= r < p && 0 <= c < i ==> a[r][c] == if r == c then 1.0 else 0.0
  }

  /** `for (j = i; j <= n; j++) row[j] /= pivot`. */
  function ScaleFrom(m: MathLib, row: seq<real>, i: nat, pivot: real): (r: seq<real>)
    ensures |r| == |row|
    ensures forall j :: 0 <= j < |row| ==> r[j] == if j >= i then m.divide(row[j], pivot) else row[j]
  {
    seq(|row|, j requires 0 <= j < |row| => if j >= i then m.divide(row[j], pivot) else row[j])
  }

  /** `for (j = i; j <= n; j++) row[j] -= factor * pivotRow[j]`. */
  function SubtractFrom(row: seq<real>, pivotRow: seq<real>, factor: real, i: nat): (r: seq<real>)
    requires |pivotRow| == |row|
    ensures |r| == |row|
    ensures forall j :: 0 <= j < |row| ==> r[j] == if j >= i then row[j] - factor * pivotRow[j] else row[j]
  {
    seq(|row|, j requires 0 <= j < |row| => if j >= i then row[j] - factor * pivotRow[j] else row[j])
  }

  /** One iteration of the outer loop: normalise row i, then clear column i in every other row. */
  function Step(m: MathLib, a: seq<seq<real>>, p: nat, i: nat): (r: seq<seq<real>>)
    requires Augmented(a, p) && i < p
    ensures Augmented(r, p)
    ensures r[i] == ScaleFrom(m, a[i], i, a[i][i])
    ensures forall k :: 0 <= k < p && k != i ==> r[k] == SubtractFrom(a[k], r[i], a[k][i], i)
  {
    var pivotRow := ScaleFrom(m, a[i], i, a[i][i]);
    seq(p, k requires 0 <= k < p => if k == i then pivotRow else SubtractFrom(a[k], pivotRow, a[k][i], i))
  }

  /** The outer loop from column i on. */
  function EliminateFrom(m: MathLib, a: seq<seq<real>>, p: nat, i: nat): (r: seq<seq<real>>)
    requires Augmented(a, p) && i <= p
    ensures Augmented(r, p)
    decreases p - i
  {
    if i == p then a else EliminateFrom(m, Step(m, a, p, i), p, i + 1)
  }

  /** Every pivot the loop divides by, from column i on, is non-zero. */
  predicate PivotsNonZero(m: MathLib, a: seq<seq<real>>, p: nat, i: nat)
    requires Augmented(a, p) && i <= p
    decreases p - i
  {
    i == p || (a[i][i] != 0.0 && PivotsNonZero(m, Step(m, a, p, i), p, i + 1))
  }

  /** `augmented.map(row => row[n])`. */
  function LastColumn(a: seq<seq<real>>, p: nat): (beta: seq<real>)
    requires Augmented(a, p)
    ensures |beta| == p && forall r :: 0 <= r < p ==> beta[r] == a[r][p]
  {
    seq(p, r requires 0 <= r < p => a[r][p])
  }

  /** The solver: Gauss-Jordan elimination on the augmented matrix, then its last column. */
  function Solve(m: MathLib, a: seq<seq<real>>, p: nat): (beta: seq<real>)
    requires Augmented(a, p)
    ensures |beta| == p
  {
    LastColumn(EliminateFrom(m, a, p, 0), p)
  }

  // ---------------------------------------------------------------------
  // Linearity of Dot
  // ---------------------------------------------------------------------

  lemma {:induction false} DotScaled(u: seq<real>, v: seq<real>, beta: seq<real>, c: real, len: nat)
    requires len <= |u| && len <= |v| && len <= |beta| && c != 0.0
    requires forall j :: 0 <= j < len ==> u[j] == v[j] / c
    ensures Dot(u, beta, len) == Dot(v, beta, len) / c
    decreases len
  {
    if len > 0 {
      DotScaled(u, v, beta, c, len - 1);
      var x, b := v[len - 1], beta[len - 1];
      assert (x / c) * b == (x * b) / c;
      assert Dot(v, beta, len - 1) / c + (x * b) / c == (Dot(v, beta, len - 1) + x * b) / c;
    }
  }

  /** `u[j] == v[j] - f * w[j]` for every j below len, stated one column at a time. */
  ghost predicate CombinedUpTo(u: seq<real>, v: seq<real>, w: seq<real>, f: real, len: nat)
    requires len <= |u| && len <= |v| && len <= |w|
  {
    len == 0 || (CombinedUpTo(u, v, w, f, len - 1) && u[len - 1] == v[len - 1] - f * w[len - 1])
  }

  lemma {:induction false} CombinedFromAll(u: seq<real>, v: seq<real>, w: seq<real>, f: real, len: nat)
    requires len <= |u| && len <= |v| && len <= |w|
    requires forall j :: 0 <= j < len ==> u[j] == v[j] - f * w[j]
    ensures CombinedUpTo(u, v, w, f, len)
    decreases len
  {
    if len > 0 {
      CombinedFromAll(u, v, w, f, len - 1);
    }
  }

  lemma {:induction false} DotCombination(u: seq<real>, v: seq<real>, w: seq<real>, beta: seq<real>, f: real, len: nat)
    requires len <= |u| && len <= |v| && len <= |w| && len <= |beta|
    requires CombinedUpTo(u, v, w, f, len)
    ensures Dot(u, beta, len) == Dot(v, beta, len) - f * Dot(w, beta, len)
    decreases len
  {
    if len > 0 {
      DotCombination(u, v, w, beta, f, len - 1);
      var x, y, b := v[len - 1], w[len - 1], beta[len - 1];
      assert (x - f * y) * b == x * b - f * (y * b);
      assert f * Dot(w, beta, len - 1) + f * (y * b) == f * (Dot(w, beta, len - 1) + y * b);
    }
  }

  /** A row of the identity picks out one coordinate. */
  lemma {:induction false} DotUnit(row: seq<real>, beta: seq<real>, r: nat, len: nat)
    requires len <= |row| && len <= |beta|
    requires forall c :: 0 <= c < len ==> row[c] == if r == c then 1.0 else 0.0
    ensures Dot(row, beta, len) == if r < len then beta[r] else 0.0
    decreases len
  {
    if len > 0 {
      DotUnit(row, beta, r, len - 1);
    }
  }

  // ---------------------------------------------------------------------
  // One step: the identity grows by a column and no solution is gained
  // ---------------------------------------------------------------------

  lemma StepExtendsIdentity(m: MathLib, a: seq<seq<real>>, p: nat, i: nat)
    requires Sound(m) && Augmented(a, p) && i < p && IdentityBefore(a, p, i) && a[i][i] != 0.0
    ensures IdentityBefore(Step(m, a, p, i), p, i + 1)
  {
    var s := Step(m, a, p, i);
    var pivot := a[i][i];
    forall r, c | 0 <= r < p && 0 <= c < i + 1
      ensures s[r][c] == if r == c then 1.0 else 0.0
    {
      if r == i {
        if c == i {
          assert s[i][i] == pivot / pivot;
        }
      } else {
        if c == i {
          assert s[i][i] == pivot / pivot == 1.0;
          assert s[r][i] == a[r][i] - a[r][i] * 1.0;
        }
      }
    }
  }

  /** The normalised pivot row is the old pivot row divided by the pivot, in every column. */
  lemma PivotRowScaled(m: MathLib, a: seq<seq<real>>, p: nat, i: nat)
    requires Sound(m) && Augmented(a, p) && i < p && IdentityBefore(a, p, i) && a[i][i] != 0.0
    ensures forall j :: 0 <= j < p + 1 ==> Step(m, a, p, i)[i][j] == a[i][j] / a[i][i]
  {
    var s := Step(m, a, p, i);
    forall j | 0 <= j < p + 1
      ensures s[i][j] == a[i][j] / a[i][i]
    {
      if j < i {
        assert a[i][j] == 0.0;
      }
    }
  }

  /** Every other row is the old row minus its factor times the new pivot row, in every column. */
  lemma OtherRowCombined(m: MathLib, a: seq<seq<real>>, p: nat, i: nat, k: nat)
    requires Sound(m) && Augmented(a, p) && i < p && IdentityBefore(a, p, i) && a[i][i] != 0.0
    requires k < p && k != i
    ensures CombinedUpTo(Step(m, a, p, i)[k], a[k], Step(m, a, p, i)[i], a[k][i], p + 1)
  {
    var s := Step(m, a, p, i);
    PivotRowScaled(m, a, p, i);
    forall j | 0 <= j < p + 1
      ensures s[k][j] == a[k][j] - a[k][i] * s[i][j]
    {
      if j < i {
        assert a[i][j] == 0.0;
        assert s[i][j] == 0.0 / a[i][i] == 0.0;
      }
    }
    CombinedFromAll(s[k], a[k], s[i], a[k][i], p + 1);
  }

  lemma PivotRowSolved(m: MathLib, a: seq<seq<real>>, p: nat, i: nat, beta: seq<real>)
    requires Sound(m) && Augmented(a, p) && i < p && IdentityBefore(a, p, i) && a[i][i] != 0.0
    requires |beta| == p && Solves(Step(m, a, p, i), p, beta)
    ensures Dot(a[i], beta, p) == a[i][p]
  {
    var s := Step(m, a, p, i);
    PivotRowScaled(m, a, p, i);
    DotScaled(s[i], a[i], beta, a[i][i], p);
    assert Dot(s[i], beta, p) == s[i][p];
    DivideBothSides(Dot(a[i], beta, p), a[i][p], a[i][i]);
  }

  lemma OtherRowSolved(m: MathLib, a: seq<seq<real>>, p: nat, i: nat, k: nat, beta: seq<real>)
    requires Sound(m) && Augmented(a, p) && i < p && IdentityBefore(a, p, i) && a[i][i] != 0.0
    requires k < p && k != i
    requires |beta| == p && Solves(Step(m, a, p, i), p, beta)
    ensures Dot(a[k], beta, p) == a[k][p]
  {
    var s := Step(m, a, p, i);
    OtherRowCombined(m, a, p, i, k);
    RowFromCombination(a[k], s[i], s[k], beta, a[k][i], p);
  }

  /** If `sk = ak - f * si` column by column and beta solves si and sk, it solves ak. */
  lemma RowFromCombination(ak: seq<real>, si: seq<real>, sk: seq<real>, beta: seq<real>, f: real, p: nat)
    requires |ak| == |si| == |sk| == p + 1 && |beta| == p
    requires CombinedUpTo(sk, ak, si, f, p + 1)
    requires Dot(sk, beta, p) == sk[p] && Dot(si, beta, p) == si[p]
    ensures Dot(ak, beta, p) == ak[p]
  {
    DotCombination(sk, ak, si, beta, f, p);
  }

  /** Whatever solves the system after a step solved it before. */
  lemma StepKeepsSolutions(m: MathLib, a: seq<seq<real>>, p: nat, i: nat, beta: seq<real>)
    requires Sound(m) && Augmented(a, p) && i < p && IdentityBefore(a, p, i) && a[i][i] != 0.0
    requires |beta| == p && Solves(Step(m, a, p, i), p, beta)
    ensures Solves(a, p, beta)
  {
    forall k | 0 <= k < p
      ensures Dot(a[k], beta, p) == a[k][p]
    {
      if k == i {
        PivotRowSolved(m, a, p, i, beta);
      } else {
        OtherRowSolved(m, a, p, i, k, beta);
      }
    }
  }

  lemma DivideBothSides(x: real, y: real, c: real)
    requires c != 0.0 && x / c == y / c
    ensures x == y
  {
    assert x == (x / c) * c;
    assert y == (y / c) * c;
  }

  // ---------------------------------------------------------------------
  // The whole loop
  // ---------------------------------------------------------------------

  lemma {:induction false} EliminationReachesIdentity(m: MathLib, a: seq<seq<real>>, p: nat, i: nat)
    requires Sound(m) && Augmented(a, p) && i <= p && IdentityBefore(a, p, i) && PivotsNonZero(m, a, p, i)
    ensures IdentityBefore(EliminateFrom(m, a, p, i), p, p)
    ensures Solves(a, p, LastColumn(EliminateFrom(m, a, p, i), p))
    decreases p - i
  {
    if i == p {
      IdentitySolves(a, p);
    } else {
      StepExtendsIdentity(m, a, p, i);
      EliminationReachesIdentity(m, Step(m, a, p, i), p, i + 1);
      StepKeepsSolutions(m, a, p, i, LastColumn(EliminateFrom(m, a, p, i), p));
    }
  }

  /** Once the coefficient block is the identity, the last column solves the system. */
  lemma IdentitySolves(a: seq<seq<real>>, p: nat)
    requires Augmented(a, p) && IdentityBefore(a, p, p)
    ensures Solves(a, p, LastColumn(a, p))
  {
    var beta := LastColumn(a, p);
    forall r | 0 <= r < p
      ensures Dot(a[r], beta, p) == a[r][p]
    {
      DotUnit(a[r], beta, r, p);
    }
  }

  /** With non-zero pivots the solver's answer satisfies the system it was given. */
  lemma SolveSatisfiesSystem(m: MathLib, a: seq<seq<real>>, p: nat)
    requires Sound(m) && Augmented(a, p) && PivotsNonZero(m, a, p, 0)
    ensures Solves(a, p, Solve(m, a, p))
  {
    EliminationReachesIdentity(m, a, p, 0);
  }
}
