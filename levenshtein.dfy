/** The edit distance of findbadnames.py: a dynamic programme over a
    `(len(seq1) + 1) x (len(seq2) + 1)` matrix, proved equal to the
    recursive definition of the distance between prefixes. */
module Levenshtein {

  function Min3(a: int, b: int, c: int): (r: int)
    ensures r <= a && r <= b && r <= c
    ensures r == a || r == b || r == c
  {
    if a <= b && a <= c then a else if b <= c then b else c
  }

  /** The distance between the first `i` characters of `a` and the first
      `j` of `b`: deletions, insertions and substitutions all cost one. */
  function Dist(a: string, b: string, i: nat, j: nat): nat
    requires i <= |a| && j <= |b|
    decreases i + j
  {
    if i == 0 then j
    else if j == 0 then i
    else Min3(Dist(a, b, i - 1, j) + 1, Dist(a, b, i - 1, j - 1) + (if a[i - 1] == b[j - 1] then 0 else 1), Dist(a, b, i, j - 1) + 1)
  }

  function EditDistance(a: string, b: string): nat {
    Dist(a, b, |a|, |b|)
  }

  /** The rows of `matrix` above `x` hold the distances of the prefixes. */
  ghost predicate RowsDone(matrix: array2<int>, seq1: string, seq2: string, x: nat)
    reads matrix
    requires matrix.Length0 == |seq1| + 1 && matrix.Length1 == |seq2| + 1 && x <= matrix.Length0
  {
    forall i, j :: 0 <= i < x && 0 <= j < matrix.Length1 ==> matrix[i, j] == Dist(seq1, seq2, i, j)
  }

  /** The first column below row `x` still holds the row numbers. */
  ghost predicate ColumnZero(matrix: array2<int>, x: nat)
    reads matrix
    requires matrix.Length1 >= 1
  {
    forall i :: x <= i < matrix.Length0 ==> matrix[i, 0] == i
  }

  /** `np.zeros`, then the first column and the first row set to the indices. */
  method InitMatrix(seq1: string, seq2: string) returns (matrix: array2<int>)
    ensures fresh(matrix)
    ensures matrix.Length0 == |seq1| + 1 && matrix.Length1 == |seq2| + 1
    ensures RowsDone(matrix, seq1, seq2, 1) && ColumnZero(matrix, 1)
  {
    var sizeX := |seq1| + 1;
    var sizeY := |seq2| + 1;
    matrix := new int[sizeX, sizeY];
    for x := 0 to sizeX
      invariant forall i :: 0 <= i < x ==> matrix[i, 0] == i
    {
      matrix[x, 0] := x;
    }
    for y := 0 to sizeY
      invariant forall j :: 0 <= j < y ==> matrix[0, j] == j
      invariant forall i :: 1 <= i < sizeX ==> matrix[i, 0] == i
    {
      matrix[0, y] := y;
    }
  }

  /** Row `x` holds the distances left of column `y`. */
  ghost predicate RowPrefixDone(matrix: array2<int>, seq1: string, seq2: string, x: nat, y: nat)
    reads matrix
    requires matrix.Length0 == |seq1| + 1 && matrix.Length1 == |seq2| + 1 && x < matrix.Length0 && y <= matrix.Length1
  {
    forall j :: 0 <= j < y ==> matrix[x, j] == Dist(seq1, seq2, x, j)
  }

  /** The body of the inner loop: the cell `(x, y)` from its neighbours. */
  method FillCell(matrix: array2<int>, seq1: string, seq2: string, x: nat, y: nat)
    modifies matrix
    requires matrix.Length0 == |seq1| + 1 && matrix.Length1 == |seq2| + 1 && 1 <= x < matrix.Length0 && 1 <= y < matrix.Length1
    requires RowsDone(matrix, seq1, seq2, x) && ColumnZero(matrix, x + 1) && RowPrefixDone(matrix, seq1, seq2, x, y)
    ensures RowsDone(matrix, seq1, seq2, x) && ColumnZero(matrix, x + 1) && RowPrefixDone(matrix, seq1, seq2, x, y + 1)
  {
    if seq1[x - 1] == seq2[y - 1] {
      matrix[x, y] := Min3(matrix[x - 1, y] + 1, matrix[x - 1, y - 1], matrix[x, y - 1] + 1);
    } else {
      matrix[x, y] := Min3(matrix[x - 1, y] + 1, matrix[x - 1, y - 1] + 1, matrix[x, y - 1] + 1);
    }
  }

  /** One pass of the inner loop: row `x` filled from row `x - 1` and the
      cell to the left. */
  method FillRow(matrix: array2<int>, seq1: string, seq2: string, x: nat)
    modifies matrix
    requires matrix.Length0 == |seq1| + 1 && matrix.Length1 == |seq2| + 1 && 1 <= x < matrix.Length0
    requires RowsDone(matrix, seq1, seq2, x) && ColumnZero(matrix, x)
    ensures RowsDone(matrix, seq1, seq2, x + 1) && ColumnZero(matrix, x + 1)
  {
    for y := 1 to matrix.Length1
      invariant RowsDone(matrix, seq1, seq2, x) && ColumnZero(matrix, x + 1)
      invariant RowPrefixDone(matrix, seq1, seq2, x, y)
    {
      FillCell(matrix, seq1, seq2, x, y);
    }
  }

  /** `levenshtein(seq1, seq2)`: the first row and column hold the prefix
      lengths, then each cell is filled row by row from its three
      neighbours above and to the left. */
  method ComputeLevenshtein(seq1: string, seq2: string) returns (d: int)
    ensures d == EditDistance(seq1, seq2)
  {
    var matrix := InitMatrix(seq1, seq2);
    for x := 1 to matrix.Length0
      invariant RowsDone(matrix, seq1, seq2, x) && ColumnZero(matrix, x)
    {
      FillRow(matrix, seq1, seq2, x);
    }
    d := matrix[matrix.Length0 - 1, matrix.Length1 - 1];
  }

  /** A prefix is at distance zero from itself. */
  lemma {:induction false} DistSelf(a: string, i: nat)
    requires i <= |a|
    ensures Dist(a, a, i, i) == 0
  {
    if i > 0 {
      DistSelf(a, i - 1);
    }
  }

  /** The distance is symmetric. */
  lemma {:induction false} DistSymmetric(a: string, b: string, i: nat, j: nat)
    requires i <= |a| && j <= |b|
    ensures Dist(a, b, i, j) == Dist(b, a, j, i)
    decreases i + j
  {
    if i > 0 && j > 0 {
      DistSymmetric(a, b, i - 1, j);
      DistSymmetric(a, b, i - 1, j - 1);
      DistSymmetric(a, b, i, j - 1);
    }
  }

  /** Never more than the longer prefix: substitute along the shorter one,
      then insert or delete the rest. */
  lemma {:induction false} DistUpper(a: string, b: string, i: nat, j: nat)
    requires i <= |a| && j <= |b|
    ensures Dist(a, b, i, j) <= if i < j then j else i
    decreases i + j
  {
    if i > 0 && j > 0 {
      DistUpper(a, b, i - 1, j - 1);
    }
  }

  /** Never less than the difference of the lengths. */
  lemma {:induction false} DistLower(a: string, b: string, i: nat, j: nat)
    requires i <= |a| && j <= |b|
    ensures Dist(a, b, i, j) >= if i < j then j - i else i - j
    decreases i + j
  {
    if i > 0 && j > 0 {
      DistLower(a, b, i - 1, j);
      DistLower(a, b, i - 1, j - 1);
      DistLower(a, b, i, j - 1);
    }
  }

  /** `lev(s, s) = 0`, `lev(s, "") = |s|`, symmetry, and
      `||a| - |b|| <= lev(a, b) <= max(|a|, |b|)`. */
  lemma EditDistanceProperties(a: string, b: string)
    ensures EditDistance(a, a) == 0
    ensures EditDistance(a, "") == |a| && EditDistance("", a) == |a|
    ensures EditDistance(a, b) == EditDistance(b, a)
    ensures EditDistance(a, b) <= if |a| < |b| then |b| else |a|
    ensures EditDistance(a, b) >= if |a| < |b| then |b| - |a| else |a| - |b|
  {
    DistSelf(a, |a|);
    DistSymmetric(a, b, |a|, |b|);
    DistUpper(a, b, |a|, |b|);
    DistLower(a, b, |a|, |b|);
  }

  /** Names one substitution apart are within the `< 2` misspelling window. */
  lemma {:induction false} OneSubstitution(a: string, b: string, k: nat)
    requires |a| == |b| && k < |a|
    requires forall m :: 0 <= m < |a| && m != k ==> a[m] == b[m]
    ensures EditDistance(a, b) <= 1
  {
    SameUpTo(a, b, k);
    BoundAfter(a, b, k + 1, |a|);
  }

  /** Equal prefixes are at distance zero. */
  lemma {:induction false} SameUpTo(a: string, b: string, k: nat)
    requires k <= |a| && k <= |b|
    requires forall m :: 0 <= m < k ==> a[m] == b[m]
    ensures Dist(a, b, k, k) == 0
  {
    if k > 0 {
      SameUpTo(a, b, k - 1);
    }
  }

  /** Past the one differing position the distance stays at most one. */
  lemma {:induction false} BoundAfter(a: string, b: string, k: nat, n: nat)
    requires |a| == |b| && 0 < k <= n <= |a|
    requires forall m :: k <= m < |a| ==> a[m] == b[m]
    requires Dist(a, b, k - 1, k - 1) == 0
    ensures Dist(a, b, n, n) <= 1
    decreases n
  {
    if n > k {
      BoundAfter(a, b, k, n - 1);
    }
  }
}
