/**
 Replacing all search results at once
 (packages/core/src/components/shared/editor/extensions/searchAndReplace.ts).
 The document is a flat sequence of positions.
 */
module ReplaceAll {
  import opened Options

  datatype Range = Range(from: int, to: int)

  /** Search results: in ascending order, not overlapping, inside a document of `length` positions. */
  ghost predicate Ascending(ranges: seq<Range>, length: nat) {
    && (forall i {:trigger ranges[i]} :: 0 <= i < |ranges| ==> 0 <= ranges[i].from <= ranges[i].to <= length)
    && (forall i, j {:trigger ranges[i], ranges[j]} :: 0 <= i < j < |ranges| ==> ranges[i].to <= ranges[j].from)
  }

  // ---------------------------------------------------------------- simultaneous substitution

  /** The end of range `i - 1`, where the gap before range `i` begins. */
  function GapStart(ranges: seq<Range>, i: nat): int
    requires i <= |ranges|
  {
    if i == 0 then 0 else ranges[i - 1].to
  }

  /** The text before range `i`, with the ranges before it replaced. */
  ghost function Before<T>(text: seq<T>, ranges: seq<Range>, replacement: seq<T>, i: nat): seq<T>
    requires Ascending(ranges, |text|) && i <= |ranges|
  {
    if i == 0 then []
    else Before(text, ranges, replacement, i - 1) + text[GapStart(ranges, i - 1)..ranges[i - 1].from] + replacement
  }

  /** Every range replaced, every gap as it was. */
  ghost function Substituted<T>(text: seq<T>, ranges: seq<Range>, replacement: seq<T>): seq<T>
    requires Ascending(ranges, |text|)
  {
    Before(text, ranges, replacement, |ranges|) + text[GapStart(ranges, |ranges|)..]
  }

  /** How far range `i` has moved to the left once the ranges before it are replaced. */
  ghost function Offset(ranges: seq<Range>, length: nat, i: nat): int
    requires i <= |ranges|
  {
    if i == 0 then 0 else Offset(ranges, length, i - 1) + (ranges[i - 1].to - ranges[i - 1].from) - length
  }

  ghost function Shifted(r: Range, offset: int): Range {
    Range(r.from - offset, r.to - offset)
  }

  lemma {:induction false} BeforeLength<T>(text: seq<T>, ranges: seq<Range>, replacement: seq<T>, i: nat)
    requires Ascending(ranges, |text|) && i <= |ranges|
    ensures |Before(text, ranges, replacement, i)| == GapStart(ranges, i) - Offset(ranges, |replacement|, i)
  {
    if i > 0 {
      BeforeLength(text, ranges, replacement, i - 1);
    }
  }

  /** One edit of the loop: range `i` at its rebased place. */
  lemma EditStep<T>(doc: seq<T>, text: seq<T>, ranges: seq<Range>, replacement: seq<T>, i: nat)
    requires Ascending(ranges, |text|) && i < |ranges|
    requires doc == Before(text, ranges, replacement, i) + text[GapStart(ranges, i)..]
    ensures var r := Shifted(ranges[i], Offset(ranges, |replacement|, i));
            && 0 <= r.from <= r.to <= |doc|
            && doc[..r.from] + replacement + doc[r.to..] ==
               Before(text, ranges, replacement, i + 1) + text[GapStart(ranges, i + 1)..]
  {
    BeforeLength(text, ranges, replacement, i);
    var done, gap := Before(text, ranges, replacement, i), GapStart(ranges, i);
    var r := Shifted(ranges[i], Offset(ranges, |replacement|, i));
    assert doc[..r.from] == done + text[gap..ranges[i].from];
    assert doc[r.to..] == text[ranges[i].to..];
  }

  // ---------------------------------------------------------------- the loop

  class Transaction<T> {
    var doc: seq<T>

    constructor (text: seq<T>)
      ensures doc == text
    {
      doc := text;
    }

    method InsertText(text: seq<T>, from: int, to: int)
      requires 0 <= from <= to <= |doc|
      modifies this
      ensures doc == old(doc)[..from] + text + old(doc)[to..]
    {
      doc := doc[..from] + text + doc[to..];
    }
  }

  /** `rebaseNextResult`: overwrites the next result with its place after the edit of result `index`. */
  method RebaseNextResult(replacementLength: nat, index: nat, lastOffset: int, results: array<Range>)
    returns (offset: Option<int>)
    modifies results
    ensures index + 1 >= results.Length ==> offset == None && results[..] == old(results[..])
    ensures index + 1 < results.Length ==>
              var o := results[index].to - results[index].from - replacementLength + lastOffset;
              offset == Some(o) && results[..] == old(results[..])[index + 1 := Shifted(old(results[index + 1]), o)]
  {
    var next := index + 1;
    if next >= results.Length {
      return None;
    }
    var current := results[index];
    var o := current.to - current.from - replacementLength + lastOffset;
    results[next] := Range(results[next].from - o, results[next].to - o);
    offset := Some(o);
  }

  /** `replaceAll`: the sequential edits with rebased offsets equal one simultaneous substitution. */
  method ReplaceAllResults<T>(tr: Transaction<T>, replacement: seq<T>, results: seq<Range>)
    requires Ascending(results, |tr.doc|)
    modifies tr
    ensures tr.doc == Substituted(old(tr.doc), results, replacement)
  {
    ghost var text := tr.doc;
    if |results| == 0 {
      return;
    }
    var offset := 0;
    var copy := new Range[|results|](i requires 0 <= i < |results| => results[i]);
    for i := 0 to copy.Length
      invariant tr.doc == Before(text, results, replacement, i) + text[GapStart(results, i)..]
      invariant i < copy.Length ==> offset == Offset(results, |replacement|, i)
      invariant i < copy.Length ==> copy[i] == Shifted(results[i], Offset(results, |replacement|, i))
      invariant forall k :: i < k < copy.Length ==> copy[k] == results[k]
    {
      EditStep(tr.doc, text, results, replacement, i);
      tr.InsertText(replacement, copy[i].from, copy[i].to);
      var response := RebaseNextResult(|replacement|, i, offset, copy);
      match response {
        case None =>
        case Some(o) => offset := o;
      }
    }
  }

  // ---------------------------------------------------------------- what substitution means

  lemma {:induction false} BeforeIsPrefix<T>(text: seq<T>, ranges: seq<Range>, replacement: seq<T>, i: nat, j: nat)
    requires Ascending(ranges, |text|) && i <= j <= |ranges|
    ensures Before(text, ranges, replacement, i) <= Before(text, ranges, replacement, j)
    decreases j
  {
    if i < j {
      BeforeIsPrefix(text, ranges, replacement, i, j - 1);
    }
  }

  /** The result begins with what is before range `i`, the gap before it, and the replacement. */
  lemma ResultBegins<T>(text: seq<T>, ranges: seq<Range>, replacement: seq<T>, i: nat)
    requires Ascending(ranges, |text|) && i < |ranges|
    ensures 0 <= GapStart(ranges, i) <= ranges[i].from <= |text|
    ensures Before(text, ranges, replacement, i) + text[GapStart(ranges, i)..ranges[i].from] + replacement
            <= Substituted(text, ranges, replacement)
  {
    BeforeIsPrefix(text, ranges, replacement, i + 1, |ranges|);
    PrefixOfSum(Before(text, ranges, replacement, i + 1), Before(text, ranges, replacement, |ranges|),
                text[GapStart(ranges, |ranges|)..]);
  }

  /** Range `i` holds the replacement at its rebased place, and the gap before it is the original text. */
  lemma RangeAndGap<T>(text: seq<T>, ranges: seq<Range>, replacement: seq<T>, i: nat)
    requires Ascending(ranges, |text|) && i < |ranges|
    ensures var result, offset := Substituted(text, ranges, replacement), Offset(ranges, |replacement|, i);
            var gap, from := GapStart(ranges, i) - offset, ranges[i].from - offset;
            && 0 <= gap <= from <= from + |replacement| <= |result|
            && result[gap..from] == text[GapStart(ranges, i)..ranges[i].from]
            && result[from..from + |replacement|] == replacement
  {
    ResultBegins(text, ranges, replacement, i);
    BeforeLength(text, ranges, replacement, i);
    PartsAt(Substituted(text, ranges, replacement), Before(text, ranges, replacement, i),
            text[GapStart(ranges, i)..ranges[i].from], replacement);
  }

  lemma PrefixOfSum<T>(a: seq<T>, b: seq<T>, c: seq<T>)
    requires a <= b
    ensures a <= b + c
  {
  }

  lemma PartsAt<T>(whole: seq<T>, a: seq<T>, b: seq<T>, c: seq<T>)
    requires a + b + c <= whole
    ensures |a| + |b| + |c| <= |whole| && whole[|a|..|a| + |b|] == b
    ensures whole[|a| + |b|..|a| + |b| + |c|] == c
  {
    var front := a + b + c;
    assert front == whole[..|front|];
    assert whole[|a|..|a| + |b|] == front[|a|..|a| + |b|];
    assert whole[|a| + |b|..|a| + |b| + |c|] == front[|a| + |b|..|a| + |b| + |c|];
  }

  /** What follows the last range is the original text, and nothing follows that. */
  lemma LastGap<T>(text: seq<T>, ranges: seq<Range>, replacement: seq<T>)
    requires Ascending(ranges, |text|)
    ensures var result, n := Substituted(text, ranges, replacement), |ranges|;
            var gap := GapStart(ranges, n) - Offset(ranges, |replacement|, n);
            0 <= gap <= |result| && result[gap..] == text[GapStart(ranges, n)..]
  {
    BeforeLength(text, ranges, replacement, |ranges|);
  }

  // ---------------------------------------------------------------- replacing back

  /** Where the replacements are in the result. */
  ghost function Moved(ranges: seq<Range>, length: nat): (moved: seq<Range>)
    ensures |moved| == |ranges|
  {
    seq(|ranges|, i requires 0 <= i < |ranges| =>
      var from := ranges[i].from - Offset(ranges, length, i);
      Range(from, from + length))
  }

  lemma {:induction false} OffsetsOrder(ranges: seq<Range>, total: nat, length: nat, i: nat, j: nat)
    requires Ascending(ranges, total) && i < j < |ranges|
    ensures Moved(ranges, length)[i].to <= Moved(ranges, length)[j].from
    decreases j
  {
    if i < j - 1 {
      OffsetsOrder(ranges, total, length, i, j - 1);
    }
  }

  lemma MovedAscending<T>(text: seq<T>, ranges: seq<Range>, replacement: seq<T>)
    requires Ascending(ranges, |text|)
    ensures Ascending(Moved(ranges, |replacement|), |Substituted(text, ranges, replacement)|)
  {
    var moved := Moved(ranges, |replacement|);
    forall i {:trigger moved[i]} | 0 <= i < |moved|
      ensures 0 <= moved[i].from <= moved[i].to <= |Substituted(text, ranges, replacement)|
    {
      RangeAndGap(text, ranges, replacement, i);
    }
    forall i, j {:trigger moved[i], moved[j]} | 0 <= i < j < |moved| ensures moved[i].to <= moved[j].from {
      OffsetsOrder(ranges, |text|, |replacement|, i, j);
    }
  }

  /** The gap before place `i` of the result is the gap before range `i` of the text. */
  ghost predicate SameGap<T>(result: seq<T>, moved: seq<Range>, text: seq<T>, ranges: seq<Range>, i: nat)
    requires Ascending(moved, |result|) && Ascending(ranges, |text|) && i < |moved| == |ranges|
  {
    result[GapStart(moved, i)..moved[i].from] == text[GapStart(ranges, i)..ranges[i].from]
  }

  lemma {:induction false} BackBefore<T>(result: seq<T>, moved: seq<Range>, text: seq<T>, ranges: seq<Range>,
                                         word: seq<T>, i: nat)
    requires Ascending(ranges, |text|) && Ascending(moved, |result|) && i <= |ranges| == |moved|
    requires forall k {:trigger ranges[k]} :: 0 <= k < |ranges| ==> text[ranges[k].from..ranges[k].to] == word
    requires forall k {:trigger SameGap(result, moved, text, ranges, k)} :: 0 <= k < |ranges| ==>
        SameGap(result, moved, text, ranges, k)
    ensures Before(result, moved, word, i) == text[..GapStart(ranges, i)]
  {
    if i > 0 {
      BackBefore(result, moved, text, ranges, word, i - 1);
      assert SameGap(result, moved, text, ranges, i - 1);
      assert text[ranges[i - 1].from..ranges[i - 1].to] == word;
      ThreeParts(text, GapStart(ranges, i - 1), ranges[i - 1].from, ranges[i - 1].to);
    }
  }

  lemma ThreeParts<T>(text: seq<T>, a: int, b: int, c: int)
    requires 0 <= a <= b <= c <= |text|
    ensures text[..a] + text[a..b] + text[b..c] == text[..c]
  {
  }

  lemma BackOne<T>(text: seq<T>, ranges: seq<Range>, replacement: seq<T>, i: nat)
    requires Ascending(ranges, |text|) && i < |ranges|
    requires Ascending(Moved(ranges, |replacement|), |Substituted(text, ranges, replacement)|)
    ensures SameGap(Substituted(text, ranges, replacement), Moved(ranges, |replacement|), text, ranges, i)
  {
    RangeAndGap(text, ranges, replacement, i);
    MovedGap(ranges, |replacement|, i);
  }

  /** The gap after a moved range begins where the gap after the range was moved to. */
  lemma MovedGap(ranges: seq<Range>, length: nat, i: nat)
    requires i <= |ranges|
    ensures GapStart(Moved(ranges, length), i) == GapStart(ranges, i) - Offset(ranges, length, i)
  {
  }

  /** Replacing every occurrence of a word and then replacing those places by the word gives the original text. */
  lemma ReplaceBack<T>(text: seq<T>, ranges: seq<Range>, replacement: seq<T>, word: seq<T>)
    requires Ascending(ranges, |text|)
    requires forall k {:trigger ranges[k]} :: 0 <= k < |ranges| ==> text[ranges[k].from..ranges[k].to] == word
    ensures var result, moved := Substituted(text, ranges, replacement), Moved(ranges, |replacement|);
            Ascending(moved, |result|) && Substituted(result, moved, word) == text
  {
    MovedAscending(text, ranges, replacement);
    forall k {:trigger SameGap(Substituted(text, ranges, replacement), Moved(ranges, |replacement|), text, ranges, k)}
      | 0 <= k < |ranges|
      ensures SameGap(Substituted(text, ranges, replacement), Moved(ranges, |replacement|), text, ranges, k)
    {
      BackOne(text, ranges, replacement, k);
    }
    BackBefore(Substituted(text, ranges, replacement), Moved(ranges, |replacement|), text, ranges, word, |ranges|);
    LastGap(text, ranges, replacement);
    MovedGap(ranges, |replacement|, |ranges|);
    assert text[..GapStart(ranges, |ranges|)] + text[GapStart(ranges, |ranges|)..] == text;
  }
}
