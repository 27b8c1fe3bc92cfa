/** TmdbMatcher.levenshteinDistance: the classic edit distance (insert, delete,
    substitute, each of cost one) between the lower-cased strings, computed with a
    single row of costs. */
module Distance {
  import opened Text

  function Min(x: int, y: int): int {
    if x <= y then x else y
  }

  function Max(x: int, y: int): int {
    if x >= y then x else y
  }

  /** Edit distance between the prefixes a[..i] and b[..j], by the textbook recurrence. */
  function LevAt(a: string, b: string, i: nat, j: nat): nat
    requires i <= |a| && j <= |b|
    decreases i + j
  {
    if i == 0 then j
    else if j == 0 then i
    else Step(LevAt(a, b, i - 1, j), LevAt(a, b, i, j - 1), LevAt(a, b, i - 1, j - 1), a[i - 1] == b[j - 1])
  }

  /** One cell of the table from its upper, left and upper-left neighbours: delete,
      insert, or keep/substitute. */
  function Step(up: int, left: int, diag: int, same: bool): int {
    Min(Min(up + 1, left + 1), if same then diag else diag + 1)
  }

  /** Edit distance between two whole strings. */
  function EditDistance(a: string, b: string): nat {
    LevAt(a, b, |a|, |b|)
  }

  /** What levenshteinDistance computes: the edit distance of the lower-cased strings. */
  function Levenshtein(s1: string, s2: string): nat {
    EditDistance(Lower(s1), Lower(s2))
  }

  /** Entries lo..hi-1 of a cost row hold the distances from a[..i] to b[..k]. */
  ghost predicate RowHolds(costs: seq<int>, a: string, b: string, i: nat, lo: nat, hi: nat)
    requires i <= |a| && hi <= |b| + 1 && hi <= |costs|
  {
    forall k :: lo <= k < hi ==> costs[k] == LevAt(a, b, i, k)
  }

  /** levenshteinDistance: `costs[k]` holds the distance from the first i characters of
      a to the first k characters of b. */
  method LevenshteinDistance(s1: string, s2: string) returns (d: int)
    ensures d == Levenshtein(s1, s2)
  {
    var a := Lower(s1);
    var b := Lower(s2);
    var costs := new int[|b| + 1];
    for j := 0 to costs.Length
      invariant RowHolds(costs[..], a, b, 0, 0, j)
    {
      costs[j] := j;
    }
    for i := 1 to |a| + 1
      invariant RowHolds(costs[..], a, b, i - 1, 0, |b| + 1)
    {
      NextRow(costs, a, b, i);
    }
    return costs[|b|];
  }

  /** One pass of the outer loop of levenshteinDistance: turns the row for a[..i-1]
      into the row for a[..i] in place; `nw` keeps the overwritten diagonal entry. */
  method NextRow(costs: array<int>, a: string, b: string, i: nat)
    requires 1 <= i <= |a| && costs.Length == |b| + 1
    requires RowHolds(costs[..], a, b, i - 1, 0, |b| + 1)
    modifies costs
    ensures RowHolds(costs[..], a, b, i, 0, |b| + 1)
  {
    ghost var before := costs[..];
    costs[0] := i;
    RowUpdate(before, a, b, i, 0, i);
    assert costs[..] == before[0 := i];
    var nw := i - 1;
    for j := 1 to |b| + 1
      invariant RowHolds(costs[..], a, b, i, 0, j)
      invariant RowHolds(costs[..], a, b, i - 1, j, |b| + 1)
      invariant nw == LevAt(a, b, i - 1, j - 1)
    {
      var cj := Min(Min(costs[j] + 1, costs[j - 1] + 1),
                    if a[i - 1] == b[j - 1] then nw else nw + 1);
      CellFromNeighbours(costs[..], a, b, i, j, nw);
      before := costs[..];
      nw := costs[j];
      costs[j] := cj;
      RowUpdate(before, a, b, i, j, cj);
      assert costs[..] == before[j := cj];
    }
  }

  /** The loop body's new entry is the distance for cell (i, j). */
  lemma CellFromNeighbours(c: seq<int>, a: string, b: string, i: nat, j: nat, nw: int)
    requires 0 < i <= |a| && 0 < j <= |b| && |c| == |b| + 1
    requires RowHolds(c, a, b, i, 0, j) && RowHolds(c, a, b, i - 1, j, |b| + 1)
    requires nw == LevAt(a, b, i - 1, j - 1)
    ensures Step(c[j], c[j - 1], nw, a[i - 1] == b[j - 1]) == LevAt(a, b, i, j)
  {
    var i1: nat, j1: nat := i - 1, j - 1;
    assert c[j] == LevAt(a, b, i1, j);
    assert c[j1] == LevAt(a, b, i, j1);
    LevAtStep(a, b, i, j, i1, j1);
  }

  /** Writing the distance for cell (i, j) into entry j moves the boundary between
      the new row and the old one by one place. */
  lemma RowUpdate(c: seq<int>, a: string, b: string, i: nat, j: nat, v: int)
    requires 0 < i <= |a| && j <= |b| && |c| == |b| + 1
    requires RowHolds(c, a, b, i, 0, j) && RowHolds(c, a, b, i - 1, j, |b| + 1)
    requires v == LevAt(a, b, i, j)
    ensures RowHolds(c[j := v], a, b, i, 0, j + 1) && RowHolds(c[j := v], a, b, i - 1, j + 1, |b| + 1)
  {
  }

  /** A cell is zero only when its diagonal neighbour is zero and the characters agree. */
  lemma StepZero(up: nat, left: nat, diag: nat, same: bool)
    requires Step(up, left, diag, same) == 0
    ensures diag == 0 && same
  {
  }

  /** Equal prefixes followed by equal characters are longer equal prefixes. */
  lemma PrefixesExtend(a: string, b: string, i: nat, j: nat)
    requires i < |a| && j < |b| && a[..i] == b[..j] && a[i] == b[j]
    ensures a[..i + 1] == b[..j + 1]
  {
    assert a[..i + 1] == a[..i] + [a[i]];
    assert b[..j + 1] == b[..j] + [b[j]];
  }

  /** A string is at distance zero from itself. */
  lemma {:induction false} LevAtSame(a: string, i: nat)
    requires i <= |a|
    ensures LevAt(a, a, i, i) == 0
  {
    if i > 0 {
      var i1: nat := i - 1;
      LevAtSame(a, i1);
      LevAtStep(a, a, i, i, i1, i1);
    }
  }

  /** Distance zero means equal prefixes. */
  lemma {:induction false} LevAtZero(a: string, b: string, i: nat, j: nat)
    requires i <= |a| && j <= |b| && LevAt(a, b, i, j) == 0
    ensures i == j && a[..i] == b[..j]
    decreases i + j
  {
    if i > 0 && j > 0 {
      var i1: nat, j1: nat := i - 1, j - 1;
      LevAtStep(a, b, i, j, i1, j1);
      StepZero(LevAt(a, b, i1, j), LevAt(a, b, i, j1), LevAt(a, b, i1, j1), a[i1] == b[j1]);
      LevAtZero(a, b, i1, j1);
      PrefixesExtend(a, b, i1, j1);
    }
  }

  /** The edit distance is zero exactly when the strings are equal. */
  lemma EditDistanceZero(a: string, b: string)
    ensures EditDistance(a, b) == 0 <==> a == b
  {
    if a == b {
      LevAtSame(a, |a|);
    }
    if EditDistance(a, b) == 0 {
      LevAtZero(a, b, |a|, |b|);
      assert a == a[..|a|] && b == b[..|b|];
    }
  }

  /** Swapping the upper and left neighbours does not change a cell. */
  lemma StepSwap(up: int, left: int, diag: int, same: bool)
    ensures Step(up, left, diag, same) == Step(left, up, diag, same)
  {
  }

  /** A cell of the swapped table is the cell of the original table, once the
      neighbours (at i1 = i - 1 and j1 = j - 1) are known to agree. */
  lemma StepOfSwapped(a: string, b: string, i: nat, j: nat, i1: nat, j1: nat)
    requires 0 < i <= |a| && 0 < j <= |b| && i1 == i - 1 && j1 == j - 1
    requires LevAt(a, b, i1, j) == LevAt(b, a, j, i1)
    requires LevAt(a, b, i, j1) == LevAt(b, a, j1, i)
    requires LevAt(a, b, i1, j1) == LevAt(b, a, j1, i1)
    ensures LevAt(a, b, i, j) == LevAt(b, a, j, i)
  {
    LevAtStep(a, b, i, j, i1, j1);
    LevAtStep(b, a, j, i, j1, i1);
    StepSwap(LevAt(a, b, i1, j), LevAt(a, b, i, j1), LevAt(a, b, i1, j1), a[i1] == b[j1]);
  }

  /** A cell is at most one more than its diagonal neighbour. */
  lemma StepAtMostDiag(up: int, left: int, diag: int, same: bool)
    ensures Step(up, left, diag, same) <= diag + 1
  {
  }

  /** A cell is at least m when its neighbours are at least m - 1, m - 1 and m. */
  lemma StepAtLeast(up: int, left: int, diag: int, same: bool, m: int)
    requires up + 1 >= m && left + 1 >= m && diag >= m
    ensures Step(up, left, diag, same) >= m
  {
  }

  /** A cell in terms of its neighbours at i1 = i - 1 and j1 = j - 1. */
  lemma LevAtStep(a: string, b: string, i: nat, j: nat, i1: nat, j1: nat)
    requires 0 < i <= |a| && 0 < j <= |b| && i1 == i - 1 && j1 == j - 1
    ensures LevAt(a, b, i, j) == Step(LevAt(a, b, i1, j), LevAt(a, b, i, j1), LevAt(a, b, i1, j1), a[i1] == b[j1])
  {
    var up, left, diag := LevAt(a, b, i1, j), LevAt(a, b, i, j1), LevAt(a, b, i1, j1);
    assert LevAt(a, b, i, j) == Step(up, left, diag, a[i1] == b[j1]);
  }

  /** Never more than the longer prefix: substitute along the shorter one, then insert or delete. */
  lemma {:induction false} LevAtUpper(a: string, b: string, i: nat, j: nat)
    requires i <= |a| && j <= |b|
    ensures LevAt(a, b, i, j) <= Max(i, j)
    decreases i + j
  {
    if i > 0 && j > 0 {
      var i1: nat, j1: nat := i - 1, j - 1;
      LevAtUpper(a, b, i1, j1);
      LevAtStep(a, b, i, j, i1, j1);
      StepAtMostDiag(LevAt(a, b, i1, j), LevAt(a, b, i, j1), LevAt(a, b, i1, j1), a[i1] == b[j1]);
    }
  }

  /** Never less than the difference in length: each step changes the length by at most one. */
  lemma {:induction false} LevAtLower(a: string, b: string, i: nat, j: nat)
    requires i <= |a| && j <= |b|
    ensures LevAt(a, b, i, j) >= i - j && LevAt(a, b, i, j) >= j - i
    decreases i + j
  {
    if i > 0 && j > 0 {
      var i1: nat, j1: nat := i - 1, j - 1;
      LevAtLower(a, b, i1, j1);
      LevAtLower(a, b, i1, j);
      LevAtLower(a, b, i, j1);
      LevAtStep(a, b, i, j, i1, j1);
      var up, left, diag := LevAt(a, b, i1, j), LevAt(a, b, i, j1), LevAt(a, b, i1, j1);
      StepAtLeast(up, left, diag, a[i1] == b[j1], i - j);
      StepAtLeast(up, left, diag, a[i1] == b[j1], j - i);
    }
  }

  /** The distance does not depend on the order of the arguments. */
  lemma {:induction false} LevAtSymmetric(a: string, b: string, i: nat, j: nat)
    requires i <= |a| && j <= |b|
    ensures LevAt(a, b, i, j) == LevAt(b, a, j, i)
    decreases i + j
  {
    if i > 0 && j > 0 {
      var i1: nat, j1: nat := i - 1, j - 1;
      LevAtSymmetric(a, b, i1, j);
      LevAtSymmetric(a, b, i, j1);
      LevAtSymmetric(a, b, i1, j1);
      StepOfSwapped(a, b, i, j, i1, j1);
    }
  }

  /** The bounds of the edit distance in terms of the lengths, and its symmetry. */
  lemma EditDistanceBounds(a: string, b: string)
    ensures |a| - |b| <= EditDistance(a, b) && |b| - |a| <= EditDistance(a, b)
    ensures EditDistance(a, b) <= Max(|a|, |b|)
    ensures EditDistance(a, b) == EditDistance(b, a)
  {
    LevAtLower(a, b, |a|, |b|);
    LevAtUpper(a, b, |a|, |b|);
    LevAtSymmetric(a, b, |a|, |b|);
  }

  /** The distance from or to the empty string is the other string's length. */
  lemma EditDistanceEmpty(a: string)
    ensures EditDistance(a, "") == |a| && EditDistance("", a) == |a|
  {
  }

  /** levenshteinDistance ignores ASCII case and is symmetric; it is bounded by the
      longer string and zero exactly for strings equal up to case. */
  lemma LevenshteinProperties(s1: string, s2: string)
    ensures Levenshtein(s1, s2) == Levenshtein(s2, s1)
    ensures Levenshtein(s1, s2) <= Max(|s1|, |s2|)
    ensures |s1| - |s2| <= Levenshtein(s1, s2) && |s2| - |s1| <= Levenshtein(s1, s2)
    ensures Levenshtein(s1, s2) == 0 <==> Lower(s1) == Lower(s2)
    ensures Levenshtein(s1, s2) == Levenshtein(Lower(s1), Lower(s2))
  {
    EditDistanceBounds(Lower(s1), Lower(s2));
    EditDistanceZero(Lower(s1), Lower(s2));
    LowerIdempotent(s1);
    LowerIdempotent(s2);
  }
}
