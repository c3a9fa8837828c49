/**
 * Edit distance (insertions, deletions and substitutions, each of cost 1). The code base has
 * two implementations: a full matrix in lib/logic.ts and a single rolling row in the verify
 * route. Both are proved to compute the recurrence `D` below.
 */
module Levenshtein {

  function Min3(x: int, y: int, z: int): (m: int)
    ensures m <= x && m <= y && m <= z
    ensures m == x || m == y || m == z
  {
    if x <= y && x <= z then x else if y <= z then y else z
  }

  /** Substitution cost of the i-th character of `a` against the j-th of `b` (1-based). */
  function Cost(a: string, b: string, i: nat, j: nat): nat
    requires 1 <= i <= |a| && 1 <= j <= |b|
  {
    if a[i - 1] == b[j - 1] then 0 else 1
  }

  /** The edit distance between the prefixes a[..i] and b[..j]. */
  function D(a: string, b: string, i: nat, j: nat): nat
    requires i <= |a| && j <= |b|
    decreases i + j
  {
    if i == 0 then j
    else if j == 0 then i
    else Min3(D(a, b, i - 1, j) + 1, D(a, b, i, j - 1) + 1, D(a, b, i - 1, j - 1) + Cost(a, b, i, j))
  }

  /** The edit distance between two whole strings. */
  function Dist(a: string, b: string): nat {
    D(a, b, |a|, |b|)
  }

  /** One step of the recurrence, phrased for callers that tabulate it. */
  lemma DStep(a: string, b: string, i: nat, j: nat, up: nat, left: nat, diag: nat)
    requires 1 <= i <= |a| && 1 <= j <= |b|
    requires up == D(a, b, i - 1, j) && left == D(a, b, i, j - 1) && diag == D(a, b, i - 1, j - 1)
    ensures Min3(up + 1, left + 1, diag + (if a[i - 1] == b[j - 1] then 0 else 1)) == D(a, b, i, j)
  {
  }

  // ---------------------------------------------------------------------------
  // Properties of the distance
  // ---------------------------------------------------------------------------

  /** The distance is at least the difference and at most the larger of the two lengths. */
  lemma {:induction false} DBounds(a: string, b: string, i: nat, j: nat)
    requires i <= |a| && j <= |b|
    ensures Gap(i, j) <= D(a, b, i, j) <= Larger(i, j)
    decreases i + j
  {
    if i > 0 && j > 0 {
      DBounds(a, b, i - 1, j);
      DBounds(a, b, i, j - 1);
      DBounds(a, b, i - 1, j - 1);
      DUnfold(a, b, i, j);
      BoundsStep(i, j, D(a, b, i - 1, j), D(a, b, i, j - 1), D(a, b, i - 1, j - 1), Cost(a, b, i, j));
    }
  }

  function Gap(i: nat, j: nat): nat { if i >= j then i - j else j - i }

  function Larger(i: nat, j: nat): nat { if i >= j then i else j }

  /** The bounds pass from the three neighbours of a cell to the cell. */
  lemma BoundsStep(i: nat, j: nat, up: nat, left: nat, diag: nat, c: nat)
    requires 1 <= i && 1 <= j && c <= 1
    requires Gap(i - 1, j) <= up <= Larger(i - 1, j)
    requires Gap(i, j - 1) <= left <= Larger(i, j - 1)
    requires Gap(i - 1, j - 1) <= diag <= Larger(i - 1, j - 1)
    ensures Gap(i, j) <= Min3(up + 1, left + 1, diag + c) <= Larger(i, j)
  {
  }

  /** The recurrence at an inner cell, as one equation. */
  lemma DUnfold(a: string, b: string, i: nat, j: nat)
    requires 1 <= i <= |a| && 1 <= j <= |b|
    ensures D(a, b, i, j) == Min3(D(a, b, i - 1, j) + 1, D(a, b, i, j - 1) + 1, D(a, b, i - 1, j - 1) + Cost(a, b, i, j))
  {
  }

  lemma DistBounds(a: string, b: string)
    ensures (if |a| >= |b| then |a| - |b| else |b| - |a|) <= Dist(a, b)
    ensures Dist(a, b) <= (if |a| >= |b| then |a| else |b|)
  {
    DBounds(a, b, |a|, |b|);
  }

  /** Swapping the arguments does not change the distance. */
  lemma {:induction false} DSymmetric(a: string, b: string, i: nat, j: nat)
    requires i <= |a| && j <= |b|
    ensures D(a, b, i, j) == D(b, a, j, i)
    decreases i + j
  {
    if i > 0 && j > 0 {
      DSymmetric(a, b, i - 1, j);
      DSymmetric(a, b, i, j - 1);
      DSymmetric(a, b, i - 1, j - 1);
      DUnfold(a, b, i, j);
      DUnfold(b, a, j, i);
      assert Cost(a, b, i, j) == Cost(b, a, j, i);
    }
  }

  lemma DistSymmetric(a: string, b: string)
    ensures Dist(a, b) == Dist(b, a)
  {
    DSymmetric(a, b, |a|, |b|);
  }

  lemma {:induction false} DSelf(a: string, i: nat)
    requires i <= |a|
    ensures D(a, a, i, i) == 0
  {
    if i > 0 {
      DSelf(a, i - 1);
    }
  }

  lemma {:induction false} DZero(a: string, b: string, i: nat, j: nat)
    requires i <= |a| && j <= |b| && D(a, b, i, j) == 0
    ensures i == j && a[..i] == b[..j]
    decreases i + j
  {
    DBounds(a, b, i, j);
    if i > 0 {
      DUnfold(a, b, i, j);
      assert D(a, b, i - 1, j - 1) == 0 && a[i - 1] == b[j - 1];
      DZero(a, b, i - 1, j - 1);
      assert a[..i] == a[..i - 1] + [a[i - 1]];
      assert b[..j] == b[..j - 1] + [b[j - 1]];
    }
  }

  /** Distance zero exactly for equal strings. */
  lemma DistZeroIff(a: string, b: string)
    ensures Dist(a, b) == 0 <==> a == b
  {
    if a == b {
      DSelf(a, |a|);
    }
    if Dist(a, b) == 0 {
      DZero(a, b, |a|, |b|);
      assert a == a[..|a|] && b == b[..|b|];
    }
  }

  // ---------------------------------------------------------------------------
  // The two implementations
  // ---------------------------------------------------------------------------

  /** `levenshteinDistance` of lib/logic.ts: a (|b|+1) x (|a|+1) matrix filled row by row. */
  method LevenshteinDistance(a: string, b: string) returns (d: nat)
    ensures d == Dist(a, b)
  {
    var matrix := new nat[|b| + 1, |a| + 1];
    for i := 0 to |a| + 1
      invariant forall k :: 0 <= k < i ==> matrix[0, k] == k
    {
      matrix[0, i] := i;
    }
    for j := 0 to |b| + 1
      invariant forall k :: 0 <= k <= |a| ==> matrix[0, k] == k
      invariant forall k :: 0 <= k < j ==> matrix[k, 0] == k
    {
      matrix[j, 0] := j;
    }
    for j := 1 to |b| + 1
      invariant forall jj, ii {:trigger matrix[jj, ii]} :: 0 <= jj < j && 0 <= ii <= |a| ==> matrix[jj, ii] == D(a, b, ii, jj)
      invariant forall k :: j <= k <= |b| ==> matrix[k, 0] == k
    {
      FillRow(a, b, matrix, j);
    }
    d := matrix[|b|, |a|];
  }

  /** The inner loop of `levenshteinDistance`: row j of the matrix from row j-1. */
  method FillRow(a: string, b: string, matrix: array2<nat>, j: nat)
    requires matrix.Length0 == |b| + 1 && matrix.Length1 == |a| + 1 && 1 <= j <= |b|
    requires forall jj, ii {:trigger matrix[jj, ii]} :: 0 <= jj < j && 0 <= ii <= |a| ==> matrix[jj, ii] == D(a, b, ii, jj)
    requires matrix[j, 0] == j
    modifies matrix
    ensures forall jj, ii {:trigger matrix[jj, ii]} :: 0 <= jj <= j && 0 <= ii <= |a| ==> matrix[jj, ii] == D(a, b, ii, jj)
    ensures forall jj, ii {:trigger matrix[jj, ii]} :: j < jj <= |b| && 0 <= ii <= |a| ==> matrix[jj, ii] == old(matrix[jj, ii])
  {
    for i := 1 to |a| + 1
      invariant forall jj, ii {:trigger matrix[jj, ii]} :: 0 <= jj < j && 0 <= ii <= |a| ==> matrix[jj, ii] == D(a, b, ii, jj)
      invariant forall ii {:trigger matrix[j, ii]} :: 0 <= ii < i ==> matrix[j, ii] == D(a, b, ii, j)
      invariant forall jj, ii {:trigger matrix[jj, ii]} :: j < jj <= |b| && 0 <= ii <= |a| ==> matrix[jj, ii] == old(matrix[jj, ii])
    {
      var indicator := if a[i - 1] == b[j - 1] then 0 else 1;
      var before, above, diag := matrix[j, i - 1], matrix[j - 1, i], matrix[j - 1, i - 1];
      DStep(a, b, i, j, before, above, diag);
      matrix[j, i] := Min3(before + 1, above + 1, diag + indicator);
    }
  }

  /** `levenshtein` of the verify route: one row `dp` of length |b|+1, updated in place. */
  method RollingDistance(a: string, b: string) returns (d: nat)
    ensures d == Dist(a, b)
  {
    var m, n := |a|, |b|;
    if m == 0 {
      return n;
    }
    if n == 0 {
      return m;
    }
    var dp := new nat[n + 1];
    for i := 0 to n + 1
      invariant forall k :: 0 <= k < i ==> dp[k] == k
    {
      dp[i] := i;
    }
    for i := 1 to m + 1
      invariant forall k {:trigger dp[k]} :: 0 <= k <= n ==> dp[k] == D(a, b, i - 1, k)
    {
      NextRow(a, b, i, dp);
    }
    d := dp[n];
  }

  /** The body of the outer loop of `levenshtein`: turns row i-1 of the table into row i in place. */
  method NextRow(a: string, b: string, i: nat, dp: array<nat>)
    requires 1 <= i <= |a| && dp.Length == |b| + 1
    requires forall k {:trigger dp[k]} :: 0 <= k <= |b| ==> dp[k] == D(a, b, i - 1, k)
    modifies dp
    ensures forall k {:trigger dp[k]} :: 0 <= k <= |b| ==> dp[k] == D(a, b, i, k)
  {
    ghost var above := dp[..];
    assert forall k {:trigger above[k]} :: 0 <= k <= |b| ==> above[k] == D(a, b, i - 1, k);
    var prev := dp[0];
    dp[0] := i;
    for j := 1 to |b| + 1
      invariant prev == above[j - 1]
      invariant forall k {:trigger dp[k]} :: 0 <= k < j ==> dp[k] == D(a, b, i, k)
      invariant forall k {:trigger dp[k]} :: j <= k <= |b| ==> dp[k] == above[k]
    {
      var cur, left := dp[j], dp[j - 1];
      var cost := if a[i - 1] == b[j - 1] then 0 else 1;
      var v := Min3(cur + 1, left + 1, prev + cost);
      DStep(a, b, i, j, cur, left, prev);
      dp[j] := v;
      prev := cur;
    }
  }
}
