/** The flat dynamic-programming table of the diff (packages/core/src/utils/diff.ts, `lcsDiff`). */
module LcsTable {
  import opened Lcs

  const MAX_CELLS := 4_000_000

  /** Start of row `i` in the flat table: `i * width`, by addition only. */
  function Row(i: nat, width: nat): nat {
    if i == 0 then 0 else Row(i - 1, width) + width
  }

  lemma {:induction false} RowIsProduct(i: nat, width: nat)
    ensures Row(i, width) == i * width
  {
    if i > 0 {
      RowIsProduct(i - 1, width);
      assert i * width == (i - 1) * width + width;
    }
  }

  lemma {:induction false} RowsApart(i: nat, p: nat, width: nat)
    requires i < p
    ensures Row(i, width) + width <= Row(p, width)
  {
    if i < p - 1 {
      RowsApart(i, p - 1, width);
    }
  }

  /** Position of cell (i, j) in the flat table with rows of `width` cells. */
  function Cell(i: nat, j: nat, width: nat): nat {
    Row(i, width) + j
  }

  lemma CellInside(i: nat, j: nat, n: nat, m: nat)
    requires i <= n && j <= m
    ensures Cell(i, j, m + 1) < Row(n + 1, m + 1)
  {
    RowsApart(i, n + 1, m + 1);
  }

  lemma CellsDiffer(i: nat, j: nat, p: nat, q: nat, width: nat)
    requires j < width && q < width && (i != p || j != q)
    ensures Cell(i, j, width) != Cell(p, q, width)
  {
    if i < p {
      RowsApart(i, p, width);
    } else if p < i {
      RowsApart(p, i, width);
    }
  }

  /** The table entry as a `Uint32Array` stores it. */
  function ToUint32(x: nat): nat {
    x % 0x1_0000_0000
  }

  lemma LcsFits(a: seq<string>, b: seq<string>)
    requires |a| * |b| <= MAX_CELLS
    ensures ToUint32(LcsLength(a, b)) == LcsLength(a, b)
  {
    LengthBounds(a, b);
    if a != [] && b != [] {
      assert |a| <= |a| * |b|;
    }
  }

  ghost predicate CellHolds(dp: seq<nat>, a: seq<string>, b: seq<string>, p: nat, q: nat)
    requires p <= |a| && q <= |b|
  {
    var at := Cell(p, q, |b| + 1);
    at < |dp| && dp[at] == LcsLength(a[p..], b[q..])
  }

  /** Cells to the right of and below (i, j), and the zero border, hold the lengths for the suffixes. */
  ghost predicate Filled(dp: seq<nat>, a: seq<string>, b: seq<string>, i: int, j: int) {
    forall p: nat, q: nat ::
      p <= |a| && q <= |b| && (p > i || q == |b| || (p == i && q > j)) ==> CellHolds(dp, a, b, p, q)
  }

  lemma OtherCellHolds(dp: seq<nat>, a: seq<string>, b: seq<string>, i: nat, j: nat, p: nat, q: nat, value: nat)
    requires j <= |b| && p <= |a| && q <= |b| && (p != i || q != j)
    requires CellHolds(dp, a, b, p, q) && Cell(i, j, |b| + 1) < |dp|
    ensures CellHolds(dp[Cell(i, j, |b| + 1) := value], a, b, p, q)
  {
    CellsDiffer(i, j, p, q, |b| + 1);
  }

  lemma CellWritten(dp: seq<nat>, a: seq<string>, b: seq<string>, i: nat, j: nat)
    requires i < |a| && j < |b| && Filled(dp, a, b, i, j)
    requires Cell(i, j, |b| + 1) < |dp|
    ensures Filled(dp[Cell(i, j, |b| + 1) := LcsLength(a[i..], b[j..])], a, b, i, j - 1)
  {
    var value := LcsLength(a[i..], b[j..]);
    var next := dp[Cell(i, j, |b| + 1) := value];
    forall p: nat, q: nat | p <= |a| && q <= |b| && (p > i || q == |b| || (p == i && q > j - 1))
      ensures CellHolds(next, a, b, p, q)
    {
      if p != i || q != j {
        OtherCellHolds(dp, a, b, i, j, p, q, value);
      }
    }
  }

  /** Fills the flat table backwards; afterwards every cell holds the LCS length of the two suffixes. */
  method FillTable(a: seq<string>, b: seq<string>) returns (dp: array<nat>)
    requires |a| * |b| <= MAX_CELLS
    ensures fresh(dp) && dp.Length == Row(|a| + 1, |b| + 1)
    ensures Filled(dp[..], a, b, -1, |b|)
  {
    var n, m := |a|, |b|;
    var width := m + 1;
    RowIsProduct(n + 1, width);
    dp := new nat[(n + 1) * width](_ => 0);
    forall p: nat, q: nat | p <= n && q <= m && (p == n || q == m) ensures CellHolds(dp[..], a, b, p, q) {
      CellInside(p, q, n, m);
    }
    var i := n - 1;
    while i >= 0
      invariant -1 <= i < n
      invariant Filled(dp[..], a, b, i, m)
    {
      var j := m - 1;
      while j >= 0
        invariant -1 <= j < m
        invariant Filled(dp[..], a, b, i, j)
      {
        FillCell(dp, a, b, i, j);
        j := j - 1;
      }
      i := i - 1;
    }
  }

  /** The assignment in the inner loop. */
  method FillCell(dp: array<nat>, a: seq<string>, b: seq<string>, i: nat, j: nat)
    requires |a| * |b| <= MAX_CELLS
    requires i < |a| && j < |b| && Filled(dp[..], a, b, i, j)
    modifies dp
    ensures Filled(dp[..], a, b, i, j - 1)
  {
    var width := |b| + 1;
    RowIsProduct(i, width);
    RowIsProduct(i + 1, width);
    CellInside(i, j, |a|, |b|);
    var here, down, right, diagonal := i * width + j, (i + 1) * width + j, i * width + j + 1, (i + 1) * width + j + 1;
    assert CellHolds(dp[..], a, b, i + 1, j) && CellHolds(dp[..], a, b, i, j + 1);
    assert CellHolds(dp[..], a, b, i + 1, j + 1) && here == Cell(i, j, width);
    assert a[i..][1..] == a[i + 1..] && b[j..][1..] == b[j + 1..];
    ghost var before := dp[..];
    var value := if a[i] == b[j] then dp[diagonal] + 1
                 else if dp[down] >= dp[right] then dp[down] else dp[right];
    SuffixFits(a, b, i, j);
    dp[here] := ToUint32(value);
    assert dp[..] == before[here := LcsLength(a[i..], b[j..])];
    CellWritten(before, a, b, i, j);
  }

  lemma SuffixFits(a: seq<string>, b: seq<string>, i: nat, j: nat)
    requires i <= |a| && j <= |b| && |a| * |b| <= MAX_CELLS
    ensures ToUint32(LcsLength(a[i..], b[j..])) == LcsLength(a[i..], b[j..])
  {
    var x, y := |a[i..]|, |b[j..]|;
    assert x * y <= |a| * y <= |a| * |b|;
    LcsFits(a[i..], b[j..]);
  }
}
