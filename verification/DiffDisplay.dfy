/** Folding long unchanged runs of a diff for display (packages/core/src/utils/diff.ts, `collapseUnchanged`). */
module DiffDisplay {
  import opened Options
  import opened LineDiff

  datatype DisplayRow = LineRow(line: DiffLine) | Collapsed(count: nat, firstOld: nat, firstNew: nat)

  function NumberOr0(n: Option<nat>): nat {
    if n.Some? then n.value else 0
  }

  /**
   The rows stand for the lines, in order: a line row for one line, a collapsed row for `count` unchanged
   lines, the first of which has the numbers the row shows.
   */
  ghost predicate Shows(rows: seq<DisplayRow>, lines: seq<DiffLine>) {
    if rows == [] then lines == []
    else
      var n, m := |rows| - 1, |lines|;
      match rows[n]
      case LineRow(l) => m > 0 && lines[m - 1] == l && Shows(rows[..n], lines[..m - 1])
      case Collapsed(count, firstOld, firstNew) =>
        && 0 < count <= m
        && (forall k :: m - count <= k < m ==> lines[k].kind == Same)
        && firstOld == NumberOr0(lines[m - count].oldNumber)
        && firstNew == NumberOr0(lines[m - count].newNumber)
        && Shows(rows[..n], lines[..m - count])
  }

  predicate IsSameRow(row: DisplayRow) {
    row.LineRow? && row.line.kind == Same
  }

  ghost predicate Flanked(rows: seq<DisplayRow>, r: int, context: nat) {
    && context <= r < |rows| - context
    && forall k :: r - context <= k <= r + context && k != r ==> IsSameRow(rows[k])
  }

  /** Around every collapsed row at least `context` unchanged lines are shown on both sides. */
  ghost predicate KeepsContext(rows: seq<DisplayRow>, context: nat) {
    forall r :: 0 <= r < |rows| && rows[r].Collapsed? ==> Flanked(rows, r, context)
  }

  /** How many unchanged lines the rows end with. */
  function SameTail(rows: seq<DisplayRow>): nat {
    if rows == [] || !IsSameRow(rows[|rows| - 1]) then 0 else SameTail(rows[..|rows| - 1]) + 1
  }

  /** No long run is shown in full: at most twice the context and one line; and a collapsed row hides at least two. */
  ghost predicate Compact(rows: seq<DisplayRow>, context: nat) {
    rows == [] ||
    (&& SameTail(rows) <= 2 * context + 1
     && (rows[|rows| - 1].Collapsed? ==> rows[|rows| - 1].count >= 2)
     && Compact(rows[..|rows| - 1], context))
  }

  method PushLines(rows: seq<DisplayRow>, lines: seq<DiffLine>, from: nat, to: nat, context: nat)
    returns (next: seq<DisplayRow>)
    requires from <= to <= |lines| && Shows(rows, lines[..from])
    requires forall k :: from <= k < to ==> lines[k].kind == Same
    requires Compact(rows, context) && SameTail(rows) + to - from <= 2 * context + 1
    ensures Shows(next, lines[..to]) && |next| == |rows| + to - from && rows <= next
    ensures Compact(next, context) && SameTail(next) == SameTail(rows) + to - from
    ensures forall k :: |rows| <= k < |next| ==> IsSameRow(next[k])
  {
    next := rows;
    for k := from to to
      invariant Shows(next, lines[..k]) && |next| == |rows| + k - from && rows <= next
      invariant forall j :: |rows| <= j < |next| ==> IsSameRow(next[j])
      invariant Compact(next, context) && SameTail(next) == SameTail(rows) + k - from
    {
      ghost var before := next;
      next := next + [LineRow(lines[k])];
      assert next[..|next| - 1] == before && lines[..k + 1][..k] == lines[..k];
    }
  }

  /** The collapsed row for the unchanged lines from `from` to `to`. */
  method PushFold(rows: seq<DisplayRow>, lines: seq<DiffLine>, from: nat, to: nat, context: nat)
    returns (next: seq<DisplayRow>)
    requires from + 2 <= to <= |lines| && forall k :: from <= k < to ==> lines[k].kind == Same
    requires Shows(rows, lines[..from]) && Compact(rows, context)
    ensures |next| == |rows| + 1 && rows <= next
    ensures Shows(next, lines[..to]) && Compact(next, context) && SameTail(next) == 0
  {
    var first := lines[from];
    var row := Collapsed(to - from, NumberOr0(first.oldNumber), NumberOr0(first.newNumber));
    next := rows + [row];
    assert next[..|rows|] == rows && lines[..to][..from] == lines[..from];
  }

  /** Ends a run of unchanged lines: shown in full when short, otherwise collapsed between its contexts. */
  method Flush(rows: seq<DisplayRow>, lines: seq<DiffLine>, runStart: nat, runLength: nat, context: nat)
    returns (next: seq<DisplayRow>)
    requires runStart + runLength <= |lines|
    requires forall k :: runStart <= k < runStart + runLength ==> lines[k].kind == Same
    requires Shows(rows, lines[..runStart]) && KeepsContext(rows, context)
    requires Compact(rows, context) && SameTail(rows) == 0
    ensures Shows(next, lines[..runStart + runLength]) && KeepsContext(next, context) && Compact(next, context)
  {
    var end := runStart + runLength;
    if runLength <= context * 2 + 1 {
      next := PushLines(rows, lines, runStart, end, context);
    } else {
      next := FlushLong(rows, lines, runStart, end, context);
    }
  }

  method FlushLong(rows: seq<DisplayRow>, lines: seq<DiffLine>, runStart: nat, end: nat, context: nat)
    returns (next: seq<DisplayRow>)
    requires runStart + 2 * context + 2 <= end <= |lines|
    requires forall k :: runStart <= k < end ==> lines[k].kind == Same
    requires Shows(rows, lines[..runStart]) && KeepsContext(rows, context)
    requires Compact(rows, context) && SameTail(rows) == 0
    ensures Shows(next, lines[..end]) && KeepsContext(next, context) && Compact(next, context)
  {
    var head := PushLines(rows, lines, runStart, runStart + context, context);
    var folded := PushFold(head, lines, runStart + context, end - context, context);
    next := PushLines(folded, lines, end - context, end, context);
    SameAround(|rows|, head, folded, next);
  }

  /** Before and after the collapsed row are the context lines. */
  lemma SameAround(start: nat, head: seq<DisplayRow>, folded: seq<DisplayRow>, next: seq<DisplayRow>)
    requires |folded| == |head| + 1 && head <= folded <= next
    requires forall k :: start <= k < |head| ==> IsSameRow(head[k])
    requires forall k :: |folded| <= k < |next| ==> IsSameRow(next[k])
    ensures forall k :: start <= k < |next| && k != |head| ==> IsSameRow(next[k])
  {
    forall k | start <= k < |next| && k != |head| ensures IsSameRow(next[k]) {
      if k < |head| {
        assert next[k] == folded[k] == head[k];
      }
    }
  }

  /** A changed line is shown as it is and ends every run. */
  lemma ChangeShown(rows: seq<DisplayRow>, lines: seq<DiffLine>, i: nat, context: nat)
    requires i < |lines| && lines[i].kind != Same
    requires Shows(rows, lines[..i]) && KeepsContext(rows, context) && Compact(rows, context)
    ensures var next := rows + [LineRow(lines[i])];
            Shows(next, lines[..i + 1]) && KeepsContext(next, context) && Compact(next, context) && SameTail(next) == 0
  {
    assert lines[..i] + [lines[i]] == lines[..i + 1];
  }

  /** `collapseUnchanged`. */
  method CollapseUnchanged(lines: seq<DiffLine>, context: nat) returns (rows: seq<DisplayRow>)
    ensures Shows(rows, lines) && KeepsContext(rows, context) && Compact(rows, context)
  {
    rows := [];
    var runStart, runLength := 0, 0;
    for i := 0 to |lines|
      invariant runStart + runLength == i
      invariant Shows(rows, lines[..runStart]) && KeepsContext(rows, context)
      invariant Compact(rows, context) && SameTail(rows) == 0
      invariant forall k :: runStart <= k < i ==> lines[k].kind == Same
    {
      if lines[i].kind == Same {
        runLength := runLength + 1;
      } else {
        rows := Flush(rows, lines, runStart, runLength, context);
        ChangeShown(rows, lines, i, context);
        rows := rows + [LineRow(lines[i])];
        runStart, runLength := i + 1, 0;
      }
    }
    rows := Flush(rows, lines, runStart, runLength, context);
    assert lines[..|lines|] == lines;
  }
}
