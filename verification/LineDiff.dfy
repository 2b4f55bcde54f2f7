/** The line diff of the version history panel (packages/core/src/utils/diff.ts). */
module LineDiff {
  import opened Options
  import opened Text
  import opened Lcs
  import opened LcsTable

  datatype Kind = Same | Add | Del

  /** One operation on the middles, with 0-based indices on the sides it belongs to. */
  datatype Op = Op(kind: Kind, text: string, aIndex: Option<nat>, bIndex: Option<nat>)

  /** One line of the result, with 1-based numbers on the sides it belongs to. */
  datatype DiffLine = DiffLine(kind: Kind, text: string, oldNumber: Option<nat>, newNumber: Option<nat>)

  datatype DiffResult = DiffResult(lines: seq<DiffLine>, added: nat, removed: nat, unchangedLines: nat, truncated: bool)

  // ---------------------------------------------------------------- what a result says about both texts

  /** A line numbered consistently with its kind. */
  predicate WellNumbered(l: DiffLine) {
    && (l.oldNumber.Some? <==> l.kind != Add)
    && (l.newNumber.Some? <==> l.kind != Del)
  }

  /** The numbered lines of one side: `lines` without its additions, or without its deletions. */
  function Side(lines: seq<DiffLine>, omit: Kind): seq<(Option<nat>, string)> {
    if lines == [] then []
    else
      var n := |lines| - 1;
      var number := if omit == Add then lines[n].oldNumber else lines[n].newNumber;
      Side(lines[..n], omit) + if lines[n].kind == omit then [] else [(number, lines[n].text)]
  }

  /** The lines `a` numbered from `from + 1` on. */
  function Numbered(a: seq<string>, from: nat): seq<(Option<nat>, string)> {
    seq(|a|, i requires 0 <= i < |a| => (Some(from + i + 1), a[i]))
  }

  function CountKind(lines: seq<DiffLine>, kind: Kind): nat {
    if lines == [] then 0
    else CountKind(lines[..|lines| - 1], kind) + if lines[|lines| - 1].kind == kind then 1 else 0
  }

  /**
   A result that tells the truth about both texts: leaving out the additions gives exactly the old lines
   numbered 1..n in order, leaving out the deletions exactly the new lines numbered 1..m, and the counters
   are the numbers of lines of each kind.
   */
  ghost predicate Faithful(r: DiffResult, a: seq<string>, b: seq<string>) {
    && (forall l :: l in r.lines ==> WellNumbered(l))
    && Side(r.lines, Add) == Numbered(a, 0)
    && Side(r.lines, Del) == Numbered(b, 0)
    && r.added == CountKind(r.lines, Add)
    && r.removed == CountKind(r.lines, Del)
    && r.unchangedLines == CountKind(r.lines, Same)
  }

  /** No addition comes directly before a deletion: in every changed stretch the deletions come first. */
  ghost predicate DeletionsFirst(lines: seq<DiffLine>) {
    forall k {:trigger lines[k]} :: 0 < k < |lines| && lines[k].kind == Del ==> lines[k - 1].kind != Add
  }

  ghost predicate AllSame(lines: seq<DiffLine>) {
    forall k :: 0 <= k < |lines| ==> lines[k].kind == Same
  }

  // ---------------------------------------------------------------- the walk over the table

  /** An operation on the middles as a line of the whole result. */
  function ToLine(op: Op, prefix: nat): DiffLine {
    DiffLine(op.kind, op.text,
             if op.aIndex.Some? then Some(prefix + op.aIndex.value + 1) else None,
             if op.bIndex.Some? then Some(prefix + op.bIndex.value + 1) else None)
  }

  function ToLines(ops: seq<Op>, prefix: nat): seq<DiffLine> {
    seq(|ops|, i requires 0 <= i < |ops| => ToLine(ops[i], prefix))
  }

  predicate AfterAddition(ops: seq<Op>) {
    ops != [] && ops[|ops| - 1].kind == Add
  }

  ghost predicate InOrder(ops: seq<Op>) {
    ops == [] ||
    (InOrder(ops[..|ops| - 1]) && (ops[|ops| - 1].kind == Del ==> !AfterAddition(ops[..|ops| - 1])))
  }

  lemma {:induction false} InOrderLines(head: seq<DiffLine>, ops: seq<Op>, prefix: nat)
    requires AllSame(head) && InOrder(ops)
    ensures DeletionsFirst(head + ToLines(ops, prefix))
  {
    if ops != [] {
      var n := |ops| - 1;
      InOrderLines(head, ops[..n], prefix);
      assert head + ToLines(ops, prefix) == head + ToLines(ops[..n], prefix) + [ToLine(ops[n], prefix)];
    } else {
      assert head + ToLines(ops, prefix) == head;
    }
  }

  /** The lines so far account for exactly the first `i` old and the first `j` new lines. */
  ghost predicate Accounts(lines: seq<DiffLine>, a: seq<string>, b: seq<string>, from: nat) {
    && (forall k :: 0 <= k < |lines| ==> WellNumbered(lines[k]))
    && Side(lines, Add) == Numbered(a, from)
    && Side(lines, Del) == Numbered(b, from)
  }

  /** Pushing one operation extends the account by the lines it belongs to. */
  lemma AccountsPush(lines: seq<DiffLine>, a: seq<string>, b: seq<string>, from: nat, l: DiffLine, i: nat, j: nat)
    requires i <= |a| && j <= |b| && Accounts(lines, a[..i], b[..j], from)
    requires match l.kind
             case Same =>
               i < |a| && j < |b| && a[i] == b[j] && l == DiffLine(Same, a[i], Some(from + i + 1), Some(from + j + 1))
             case Del => i < |a| && l == DiffLine(Del, a[i], Some(from + i + 1), None)
             case Add => j < |b| && l == DiffLine(Add, b[j], None, Some(from + j + 1))
    ensures var i', j' := if l.kind == Add then i else i + 1, if l.kind == Del then j else j + 1;
            Accounts(lines + [l], a[..i'], b[..j'], from)
    ensures forall kind :: CountKind(lines + [l], kind) == CountKind(lines, kind) + if l.kind == kind then 1 else 0
  {
    if l.kind != Add {
      assert a[..i + 1] == a[..i] + [a[i]];
    }
    if l.kind != Del {
      assert b[..j + 1] == b[..j] + [b[j]];
    }
  }

  method PushOp(ops: seq<Op>, op: Op, ghost a: seq<string>, ghost b: seq<string>, ghost prefix: nat, ghost i: nat,
                ghost j: nat)
      returns (next: seq<Op>)
    requires i <= |a| && j <= |b| && Accounts(ToLines(ops, prefix), a[..i], b[..j], prefix)
    requires match op.kind
             case Same => i < |a| && j < |b| && op == Op(Same, a[i], Some(i), Some(j)) && a[i] == b[j]
             case Del => i < |a| && op == Op(Del, a[i], Some(i), None)
             case Add => j < |b| && op == Op(Add, b[j], None, Some(j))
    requires InOrder(ops) && (op.kind == Del ==> !AfterAddition(ops))
    ensures InOrder(next) && (AfterAddition(next) <==> op.kind == Add)
    ensures var i', j' := if op.kind == Add then i else i + 1, if op.kind == Del then j else j + 1;
            Accounts(ToLines(next, prefix), a[..i'], b[..j'], prefix)
    ensures CountKind(ToLines(next, prefix), Same) ==
            CountKind(ToLines(ops, prefix), Same) + if op.kind == Same then 1 else 0
  {
    next := ops + [op];
    assert next[..|ops|] == ops;
    AccountsPush(ToLines(ops, prefix), a, b, prefix, ToLine(op, prefix), i, j);
    assert ToLines(next, prefix) == ToLines(ops, prefix) + [ToLine(op, prefix)];
  }

  /** The comparison of two cells that decides between a deletion and an addition. */
  method PrefersDeletion(dp: array<nat>, a: seq<string>, b: seq<string>, i: nat, j: nat) returns (yes: bool)
    requires i < |a| && j < |b| && Filled(dp[..], a, b, -1, |b|)
    ensures yes <==> LcsLength(a[i + 1..], b[j..]) >= LcsLength(a[i..], b[j + 1..])
  {
    var width := |b| + 1;
    RowIsProduct(i, width);
    RowIsProduct(i + 1, width);
    assert CellHolds(dp[..], a, b, i + 1, j) && CellHolds(dp[..], a, b, i, j + 1);
    yes := dp[(i + 1) * width + j] >= dp[i * width + j + 1];
  }

  /** Without the old line `i` what is left would have a shorter LCS. */
  ghost predicate NeedsLine(a: seq<string>, b: seq<string>, i: nat, j: nat) {
    i < |a| && j <= |b| && LcsLength(a[i + 1..], b[j..]) < LcsLength(a[i..], b[j..])
  }

  /** A line that may be deleted is not needed. */
  lemma NoLineNeeded(a: seq<string>, b: seq<string>, i: nat, j: nat)
    requires i < |a| && j < |b| && a[i] != b[j] && LcsLength(a[i + 1..], b[j..]) >= LcsLength(a[i..], b[j + 1..])
    ensures !NeedsLine(a, b, i, j)
  {
    assert a[i..][1..] == a[i + 1..] && b[j..][1..] == b[j + 1..];
  }

  /** A line that may not be deleted is needed after the addition. */
  lemma StillNeeded(a: seq<string>, b: seq<string>, i: nat, j: nat)
    requires i < |a| && j < |b| && LcsLength(a[i + 1..], b[j..]) < LcsLength(a[i..], b[j + 1..])
    ensures NeedsLine(a, b, i, j + 1)
  {
    OneLess(a[i + 1..], b[j..]);
    assert b[j..][1..] == b[j + 1..];
  }

  /** The two loops after the walk: one side is used up, the lines left on the other are deleted or added. */
  method PushRest(ops: seq<Op>, a: seq<string>, b: seq<string>, ghost prefix: nat, i: nat, j: nat)
    returns (out: seq<Op>)
    requires i <= |a| && j <= |b| && (i == |a| || j == |b|)
    requires Accounts(ToLines(ops, prefix), a[..i], b[..j], prefix)
    requires InOrder(ops) && (i < |a| ==> !AfterAddition(ops))
    ensures Accounts(ToLines(out, prefix), a, b, prefix) && InOrder(out)
    ensures CountKind(ToLines(out, prefix), Same) == CountKind(ToLines(ops, prefix), Same)
  {
    out := ops;
    for k := i to |a|
      invariant Accounts(ToLines(out, prefix), a[..k], b[..j], prefix)
      invariant InOrder(out) && (k < |a| ==> !AfterAddition(out))
      invariant CountKind(ToLines(out, prefix), Same) == CountKind(ToLines(ops, prefix), Same)
    {
      out := PushOp(out, Op(Del, a[k], Some(k), None), a, b, prefix, k, j);
    }
    for k := j to |b|
      invariant Accounts(ToLines(out, prefix), a[..|a|], b[..k], prefix) && InOrder(out)
      invariant CountKind(ToLines(out, prefix), Same) == CountKind(ToLines(ops, prefix), Same)
    {
      out := PushOp(out, Op(Add, b[k], None, Some(k)), a, b, prefix, |a|, k);
    }
    assert a[..|a|] == a && b[..|b|] == b;
  }

  /**
   The LCS diff of the middles: it accounts for all lines of both sides, it keeps as many lines as the longest common
   subsequence has, and between kept lines the deletions come first. The texts around the middles begin with `prefix`
   common lines.
   */
  method LcsDiff(a: seq<string>, b: seq<string>, ghost prefix: nat) returns (out: seq<Op>)
    requires |a| * |b| <= MAX_CELLS
    ensures Accounts(ToLines(out, prefix), a, b, prefix)
    ensures CountKind(ToLines(out, prefix), Same) == LcsLength(a, b)
    ensures InOrder(out)
  {
    var n, m := |a|, |b|;
    var dp := FillTable(a, b);
    out := [];
    var i, j := 0, 0;
    while i < n && j < m
      invariant i <= n && j <= m && Filled(dp[..], a, b, -1, m)
      invariant Accounts(ToLines(out, prefix), a[..i], b[..j], prefix)
      invariant CountKind(ToLines(out, prefix), Same) + LcsLength(a[i..], b[j..]) == LcsLength(a, b)
      invariant InOrder(out) && (AfterAddition(out) ==> NeedsLine(a, b, i, j))
      decreases n - i + m - j
    {
      var deletion := PrefersDeletion(dp, a, b, i, j);
      if a[i] == b[j] {
        out := PushOp(out, Op(Same, a[i], Some(i), Some(j)), a, b, prefix, i, j);
        i, j := i + 1, j + 1;
      } else if deletion {
        NoLineNeeded(a, b, i, j);
        out := PushOp(out, Op(Del, a[i], Some(i), None), a, b, prefix, i, j);
        i := i + 1;
      } else {
        StillNeeded(a, b, i, j);
        out := PushOp(out, Op(Add, b[j], None, Some(j)), a, b, prefix, i, j);
        j := j + 1;
      }
    }
    assert LcsLength(a[i..], b[j..]) == 0;
    out := PushRest(out, a, b, prefix, i, j);
  }

  // ---------------------------------------------------------------- the whole diff

  /** The lines of a text; the empty string has none. */
  function TextLines(text: string): seq<string> {
    if text == "" then [] else Split(text, '\n')
  }

  /** `diffLines`. */
  method DiffLines(oldText: string, newText: string) returns (r: DiffResult)
    ensures Faithful(r, TextLines(oldText), TextLines(newText)) && DeletionsFirst(r.lines)
    ensures !r.truncated ==> r.unchangedLines == LcsLength(TextLines(oldText), TextLines(newText))
    ensures oldText == newText ==> !r.truncated
    ensures oldText != newText ==> exists prefix: nat, aEnd: nat, bEnd: nat ::
      Trimmed(TextLines(oldText), TextLines(newText), prefix, aEnd, bEnd) &&
      (r.truncated <==> (aEnd - prefix) * (bEnd - prefix) > MAX_CELLS) &&
      (r.truncated ==> r.unchangedLines == prefix + |TextLines(oldText)| - aEnd)
  {
    if oldText == newText {
      var a := TextLines(oldText);
      var lines := KeepPrefix(a, a, |a|);
      assert a[..|a|] == a && a + [] == a;
      PrefixAdds(a, [], []);
      return DiffResult(lines, 0, 0, |lines|, false);
    }
    var a, b := TextLines(oldText), TextLines(newText);
    var prefix, aEnd, bEnd := Trim(a, b);
    var head := KeepPrefix(a, b, prefix);
    var truncated := (aEnd - prefix) * (bEnd - prefix) > MAX_CELLS;
    var lines, added, removed;
    if truncated {
      lines, added, removed := CoarseMiddle(head, a, b, prefix, aEnd, bEnd);
    } else {
      lines, added, removed := FineMiddle(head, a, b, prefix, aEnd, bEnd);
    }
    ghost var kept := CountKind(lines, Same);
    lines := KeepSuffix(lines, a, b, aEnd, bEnd);
    CountsAddUp(lines);
    TrimmedLcs(a, b, prefix, aEnd, bEnd);
    r := DiffResult(lines, added, removed, |lines| - added - removed, truncated);
  }

  lemma TrimmedLcs(a: seq<string>, b: seq<string>, prefix: nat, aEnd: nat, bEnd: nat)
    requires prefix <= aEnd <= |a| && prefix <= bEnd <= |b|
    requires a[..prefix] == b[..prefix] && a[aEnd..] == b[bEnd..]
    ensures LcsLength(a, b) == prefix + LcsLength(a[prefix..aEnd], b[prefix..bEnd]) + |a| - aEnd
  {
    assert a == a[..prefix] + a[prefix..aEnd] + a[aEnd..];
    assert b == b[..prefix] + b[prefix..bEnd] + b[bEnd..];
    TrimPreservesLcs(a[..prefix], a[prefix..aEnd], b[prefix..bEnd], a[aEnd..]);
  }

  /** The longest common prefix, and then the longest common suffix that does not reach into it. */
  ghost predicate Trimmed(a: seq<string>, b: seq<string>, prefix: nat, aEnd: nat, bEnd: nat) {
    && prefix <= aEnd <= |a| && prefix <= bEnd <= |b|
    && a[..prefix] == b[..prefix] && a[aEnd..] == b[bEnd..] && |a| - aEnd == |b| - bEnd
    && (prefix < |a| && prefix < |b| ==> a[prefix] != b[prefix])
    && (prefix < aEnd && prefix < bEnd ==> a[aEnd - 1] != b[bEnd - 1])
  }

  /** Counts the common lines at both ends; the suffix never reaches into the prefix. */
  method Trim(a: seq<string>, b: seq<string>) returns (prefix: nat, aEnd: nat, bEnd: nat)
    ensures Trimmed(a, b, prefix, aEnd, bEnd)
  {
    prefix := 0;
    while prefix < |a| && prefix < |b| && a[prefix] == b[prefix]
      invariant prefix <= |a| && prefix <= |b| && a[..prefix] == b[..prefix]
    {
      prefix := prefix + 1;
    }
    var suffix := 0;
    while suffix < |a| - prefix && suffix < |b| - prefix && a[|a| - 1 - suffix] == b[|b| - 1 - suffix]
      invariant suffix <= |a| - prefix && suffix <= |b| - prefix && a[|a| - suffix..] == b[|b| - suffix..]
    {
      suffix := suffix + 1;
      assert a[|a| - suffix..] == [a[|a| - suffix]] + a[|a| - suffix + 1..];
      assert b[|b| - suffix..] == [b[|b| - suffix]] + b[|b| - suffix + 1..];
    }
    aEnd, bEnd := |a| - suffix, |b| - suffix;
  }

  method KeepPrefix(a: seq<string>, b: seq<string>, prefix: nat) returns (lines: seq<DiffLine>)
    requires prefix <= |a| && prefix <= |b| && a[..prefix] == b[..prefix]
    ensures Accounts(lines, a[..prefix], b[..prefix], 0)
    ensures CountKind(lines, Same) == prefix == |lines| && CountKind(lines, Add) == CountKind(lines, Del) == 0
    ensures AllSame(lines)
  {
    lines := [];
    for i := 0 to prefix
      invariant AllSame(lines)
      invariant Accounts(lines, a[..i], b[..i], 0)
      invariant CountKind(lines, Same) == i == |lines| && CountKind(lines, Add) == CountKind(lines, Del) == 0
    {
      assert a[i] == a[..prefix][i] == b[..prefix][i] == b[i];
      var l := DiffLine(Same, a[i], Some(i + 1), Some(i + 1));
      AccountsPush(lines, a, b, 0, l, i, i);
      lines := lines + [l];
    }
  }

  method KeepSuffix(body: seq<DiffLine>, a: seq<string>, b: seq<string>, aEnd: nat, bEnd: nat)
    returns (lines: seq<DiffLine>)
    requires aEnd <= |a| && bEnd <= |b| && a[aEnd..] == b[bEnd..]
    requires Accounts(body, a[..aEnd], b[..bEnd], 0) && DeletionsFirst(body)
    ensures Accounts(lines, a, b, 0) && DeletionsFirst(lines)
    ensures CountKind(lines, Same) == CountKind(body, Same) + |a| - aEnd
    ensures CountKind(lines, Add) == CountKind(body, Add) && CountKind(lines, Del) == CountKind(body, Del)
  {
    lines := body;
    var suffix := |a| - aEnd;
    assert |a[aEnd..]| == |b[bEnd..]|;
    for i := 0 to suffix
      invariant Accounts(lines, a[..aEnd + i], b[..bEnd + i], 0) && DeletionsFirst(lines)
      invariant CountKind(lines, Same) == CountKind(body, Same) + i
      invariant CountKind(lines, Add) == CountKind(body, Add) && CountKind(lines, Del) == CountKind(body, Del)
    {
      var ai, bi := aEnd + i, bEnd + i;
      assert a[ai] == a[aEnd..][i] == b[bEnd..][i] == b[bi];
      var l := DiffLine(Same, a[ai], Some(ai + 1), Some(bi + 1));
      AccountsPush(lines, a, b, 0, l, ai, bi);
      lines := lines + [l];
    }
    assert a[..|a|] == a && b[..|b|] == b;
  }

  /** Too many cells: everything in the middle is reported as removed and added. */
  method CoarseMiddle(head: seq<DiffLine>, a: seq<string>, b: seq<string>, prefix: nat, aEnd: nat, bEnd: nat)
      returns (lines: seq<DiffLine>, added: nat, removed: nat)
    requires prefix <= aEnd <= |a| && prefix <= bEnd <= |b|
    requires Accounts(head, a[..prefix], b[..prefix], 0)
    requires CountKind(head, Add) == CountKind(head, Del) == 0 && AllSame(head)
    ensures Accounts(lines, a[..aEnd], b[..bEnd], 0) && DeletionsFirst(lines)
    ensures added == CountKind(lines, Add) && removed == CountKind(lines, Del)
    ensures CountKind(lines, Same) == CountKind(head, Same)
  {
    lines, added, removed := head, 0, 0;
    for i := prefix to aEnd
      invariant Accounts(lines, a[..i], b[..prefix], 0) && DeletionsFirst(lines)
      invariant forall k :: 0 <= k < |lines| ==> lines[k].kind != Add
      invariant CountKind(lines, Same) == CountKind(head, Same)
      invariant added == CountKind(lines, Add) && removed == CountKind(lines, Del)
    {
      AccountsPush(lines, a, b, 0, DiffLine(Del, a[i], Some(i + 1), None), i, prefix);
      lines := lines + [DiffLine(Del, a[i], Some(i + 1), None)];
      removed := removed + 1;
    }
    for j := prefix to bEnd
      invariant Accounts(lines, a[..aEnd], b[..j], 0) && DeletionsFirst(lines)
      invariant CountKind(lines, Same) == CountKind(head, Same)
      invariant added == CountKind(lines, Add) && removed == CountKind(lines, Del)
    {
      AccountsPush(lines, a, b, 0, DiffLine(Add, b[j], None, Some(j + 1)), aEnd, j);
      lines := lines + [DiffLine(Add, b[j], None, Some(j + 1))];
      added := added + 1;
    }
  }

  lemma {:induction false} Concatenated(x: seq<DiffLine>, y: seq<DiffLine>)
    ensures forall omit :: Side(x + y, omit) == Side(x, omit) + Side(y, omit)
    ensures forall kind :: CountKind(x + y, kind) == CountKind(x, kind) + CountKind(y, kind)
  {
    if y == [] {
      assert x + y == x;
    } else {
      var n := |y| - 1;
      Concatenated(x, y[..n]);
      assert (x + y)[..|x + y| - 1] == x + y[..n];
    }
  }

  /** The middle by the LCS diff, its operations renumbered as lines of the whole. */
  method FineMiddle(head: seq<DiffLine>, a: seq<string>, b: seq<string>, prefix: nat, aEnd: nat, bEnd: nat)
      returns (lines: seq<DiffLine>, added: nat, removed: nat)
    requires prefix <= aEnd <= |a| && prefix <= bEnd <= |b|
    requires |a[prefix..aEnd]| * |b[prefix..bEnd]| <= MAX_CELLS
    requires Accounts(head, a[..prefix], b[..prefix], 0)
    requires CountKind(head, Add) == CountKind(head, Del) == 0 && AllSame(head)
    ensures Accounts(lines, a[..aEnd], b[..bEnd], 0) && DeletionsFirst(lines)
    ensures added == CountKind(lines, Add) && removed == CountKind(lines, Del)
    ensures CountKind(lines, Same) == CountKind(head, Same) + LcsLength(a[prefix..aEnd], b[prefix..bEnd])
  {
    var mid := LcsDiff(a[prefix..aEnd], b[prefix..bEnd], prefix);
    ghost var tail := ToLines(mid, prefix);
    lines, added, removed := head, 0, 0;
    for i := 0 to |mid|
      invariant lines == head + tail[..i]
      invariant added == CountKind(lines, Add) && removed == CountKind(lines, Del)
    {
      lines := lines + [ToLine(mid[i], prefix)];
      if mid[i].kind == Add { added := added + 1; }
      if mid[i].kind == Del { removed := removed + 1; }
    }
    assert tail[..|mid|] == tail;
    InOrderLines(head, mid, prefix);
    MiddleDone(head, tail, a, b, prefix, aEnd, bEnd);
  }

  lemma {:induction false} MiddleDone(head: seq<DiffLine>, tail: seq<DiffLine>, a: seq<string>, b: seq<string>,
                                      prefix: nat, aEnd: nat, bEnd: nat)
    requires prefix <= aEnd <= |a| && prefix <= bEnd <= |b|
    requires Accounts(head, a[..prefix], b[..prefix], 0)
    requires Accounts(tail, a[prefix..aEnd], b[prefix..bEnd], prefix)
    ensures Accounts(head + tail, a[..aEnd], b[..bEnd], 0)
    ensures forall kind :: CountKind(head + tail, kind) == CountKind(head, kind) + CountKind(tail, kind)
  {
    Concatenated(head, tail);
    assert Numbered(a[..prefix], 0) + Numbered(a[prefix..aEnd], prefix) == Numbered(a[..aEnd], 0);
    assert Numbered(b[..prefix], 0) + Numbered(b[prefix..bEnd], prefix) == Numbered(b[..bEnd], 0);
  }

  lemma {:induction false} CountsAddUp(lines: seq<DiffLine>)
    ensures CountKind(lines, Same) + CountKind(lines, Add) + CountKind(lines, Del) == |lines|
  {
    if lines != [] {
      CountsAddUp(lines[..|lines| - 1]);
    }
  }

  // ---------------------------------------------------------------- what the diff promises

  /** The texts of the lines kept on both sides. */
  function Kept(lines: seq<DiffLine>): seq<string> {
    if lines == [] then []
    else
      var n := |lines| - 1;
      Kept(lines[..n]) + if lines[n].kind == Same then [lines[n].text] else []
  }

  function Texts(side: seq<(Option<nat>, string)>): seq<string> {
    seq(|side|, i requires 0 <= i < |side| => side[i].1)
  }

  lemma {:induction false} SubseqSnoc(c: seq<string>, a: seq<string>, x: string)
    requires IsSubseq(c, a)
    ensures IsSubseq(c, a + [x]) && IsSubseq(c + [x], a + [x])
  {
    if a == [] {
      assert c == [] && (c + [x])[1..] == [] && (a + [x])[1..] == [];
    } else {
      assert (a + [x])[1..] == a[1..] + [x];
      if c != [] && c[0] == a[0] && IsSubseq(c[1..], a[1..]) {
        SubseqSnoc(c[1..], a[1..], x);
        assert (c + [x])[1..] == c[1..] + [x];
      } else if c == [] {
        SubseqSnoc([], a[1..], x);
      } else {
        SubseqSnoc(c, a[1..], x);
      }
    }
  }

  /** The kept lines are a subsequence of each side. */
  lemma {:induction false} KeptIsSubseq(lines: seq<DiffLine>, omit: Kind)
    requires omit != Same
    ensures |Kept(lines)| == CountKind(lines, Same)
    ensures IsSubseq(Kept(lines), Texts(Side(lines, omit)))
  {
    if lines != [] {
      var n := |lines| - 1;
      KeptIsSubseq(lines[..n], omit);
      var side := Side(lines[..n], omit);
      if lines[n].kind == omit {
        assert Kept(lines) == Kept(lines[..n]) && Side(lines, omit) == side;
      } else {
        assert Texts(Side(lines, omit)) == Texts(side) + [lines[n].text];
        SubseqSnoc(Kept(lines[..n]), Texts(side), lines[n].text);
        assert lines[n].kind != Same ==> Kept(lines) == Kept(lines[..n]);
      }
    }
  }

  /** No faithful result, however computed, keeps more lines than the longest common subsequence has. */
  lemma FaithfulKeepsAtMostLcs(r: DiffResult, a: seq<string>, b: seq<string>)
    requires Faithful(r, a, b)
    ensures r.unchangedLines <= LcsLength(a, b)
    ensures r.unchangedLines + r.removed == |a| && r.unchangedLines + r.added == |b|
  {
    KeptIsSubseq(r.lines, Add);
    KeptIsSubseq(r.lines, Del);
    assert Texts(Numbered(a, 0)) == a && Texts(Numbered(b, 0)) == b;
    CommonSubseqBound(Kept(r.lines), a, b);
    SideLength(r.lines);
  }

  lemma {:induction false} SideLength(lines: seq<DiffLine>)
    ensures |Side(lines, Add)| == CountKind(lines, Same) + CountKind(lines, Del)
    ensures |Side(lines, Del)| == CountKind(lines, Same) + CountKind(lines, Add)
  {
    if lines != [] {
      SideLength(lines[..|lines| - 1]);
    }
  }

  /** A result that keeps as many lines as an LCS reports the fewest changes any faithful result can. */
  lemma LcsResultIsMinimal(r: DiffResult, other: DiffResult, a: seq<string>, b: seq<string>)
    requires Faithful(r, a, b) && r.unchangedLines == LcsLength(a, b)
    requires Faithful(other, a, b)
    ensures r.added + r.removed <= other.added + other.removed
    ensures forall c :: IsSubseq(c, a) && IsSubseq(c, b) ==> |c| <= r.unchangedLines
  {
    FaithfulKeepsAtMostLcs(r, a, b);
    FaithfulKeepsAtMostLcs(other, a, b);
    forall c | IsSubseq(c, a) && IsSubseq(c, b) ensures |c| <= r.unchangedLines {
      CommonSubseqBound(c, a, b);
    }
  }

  /** Either text can be rebuilt from a faithful result, whether or not it was truncated. */
  lemma TextsRecovered(r: DiffResult, oldText: string, newText: string)
    requires Faithful(r, TextLines(oldText), TextLines(newText))
    ensures Join(Texts(Side(r.lines, Add)), '\n') == oldText
    ensures Join(Texts(Side(r.lines, Del)), '\n') == newText
  {
    var a, b := TextLines(oldText), TextLines(newText);
    assert Texts(Numbered(a, 0)) == a && Texts(Numbered(b, 0)) == b;
    JoinSplit(oldText, '\n');
    JoinSplit(newText, '\n');
  }
}
