/** Names for conflict copies (packages/core/src/api/sync.ts, `conflictPath`). */
module ConflictNames {

  import opened Text

  /** A formatted timestamp: it contains neither of the two separators the name is cut at. */
  predicate PlainStamp(stamp: string) {
    '.' !in stamp && '/' !in stamp
  }

  function Mark(stamp: string): string {
    " (conflict " + stamp + ")"
  }

  /** Index at which the mark is inserted: before the extension of the last segment, if it has one. */
  function Cut(rel: string): (i: nat)
    ensures i <= |rel|
  {
    var dot := LastIndexOf(rel, '.');
    if dot > LastIndexOf(rel, '/') then dot else |rel|
  }

  function ConflictPath(rel: string, stamp: string): string {
    rel[..Cut(rel)] + Mark(stamp) + rel[Cut(rel)..]
  }

  /** The mark goes before the last dot of a name, and whatever follows that dot stays the end of the name. */
  lemma ExtensionIsKept(stem: string, extension: string, stamp: string)
    requires '.' !in extension && '/' !in extension
    ensures ConflictPath(stem + "." + extension, stamp) == stem + Mark(stamp) + "." + extension
  {
    var rel := stem + "." + extension;
    LastIndexUnique(rel, '.', |stem|);
    assert rel[|stem|..] == "." + extension && rel[..|stem|] == stem;
  }

  /** A name without a dot gets the mark at its end, whatever dots its directories have. */
  lemma NoExtensionNoCut(directory: string, name: string, stamp: string)
    requires '.' !in name && '/' !in name && (directory == "" || directory[|directory| - 1] == '/')
    ensures ConflictPath(directory + name, stamp) == directory + name + Mark(stamp)
  {
    var rel := directory + name;
    if directory != "" {
      LastIndexUnique(rel, '/', |directory| - 1);
    }
  }

  lemma CutOfCopy(rel: string, stamp: string)
    requires PlainStamp(stamp)
    ensures Cut(ConflictPath(rel, stamp)) ==
            if Cut(rel) < |rel| then Cut(rel) + |Mark(stamp)| else |ConflictPath(rel, stamp)|
  {
    var m, k, c := Mark(stamp), Cut(rel), ConflictPath(rel, stamp);
    CopyChars(rel, stamp);
    if k < |rel| {
      assert c[k + |m|] == '.';
      LastIndexUnique(c, '.', k + |m|);
      var slash := LastIndexOf(c, '/');
      assert slash < k + |m|;
    } else {
      CutAtEnd(rel, stamp);
    }
  }

  /** The copy's characters: the name up to the cut, the mark, the rest; the mark has no dot and no slash. */
  lemma CopyChars(rel: string, stamp: string)
    requires PlainStamp(stamp)
    ensures var m, k, c := Mark(stamp), Cut(rel), ConflictPath(rel, stamp);
            && |c| == |rel| + |m|
            && (forall j :: 0 <= j < k ==> c[j] == rel[j])
            && (forall j :: k <= j < k + |m| ==> c[j] == m[j - k])
            && (forall j :: k + |m| <= j < |c| ==> c[j] == rel[j - |m|])
            && (forall j :: 0 <= j < |m| ==> m[j] != '.' && m[j] != '/')
  {
  }

  lemma CutAtEnd(rel: string, stamp: string)
    requires PlainStamp(stamp) && Cut(rel) == |rel|
    ensures LastIndexOf(ConflictPath(rel, stamp), '.') <= LastIndexOf(ConflictPath(rel, stamp), '/')
  {
    var m, k, c := Mark(stamp), Cut(rel), ConflictPath(rel, stamp);
    CopyChars(rel, stamp);
    var dot, slash := LastIndexOf(rel, '.'), LastIndexOf(rel, '/');
    assert dot <= slash;
    if slash >= 0 {
      assert dot < slash;
      assert c[slash] == '/';
      LastIndexUnique(c, '/', slash);
    }
  }

  /** For one timestamp, two different files never get the same conflict-copy name. */
  lemma ConflictPathInjective(a: string, b: string, stamp: string)
    requires PlainStamp(stamp)
    requires ConflictPath(a, stamp) == ConflictPath(b, stamp)
    ensures a == b
  {
    CutOfCopy(a, stamp);
    CutOfCopy(b, stamp);
    TakeOutMark(a, stamp);
    TakeOutMark(b, stamp);
  }

  /** The name is what is left of the copy without the mark. */
  lemma TakeOutMark(rel: string, stamp: string)
    ensures var c, k, m := ConflictPath(rel, stamp), Cut(rel), |Mark(stamp)|;
            k + m <= |c| && rel == c[..k] + c[k + m..]
  {
    var c, k, m := ConflictPath(rel, stamp), Cut(rel), |Mark(stamp)|;
    assert c[..k] == rel[..k] && c[k + m..] == rel[k..];
  }

  /** The copy keeps the directory of the file it was made from. */
  lemma ConflictPathKeepsDirectory(rel: string, stamp: string)
    requires PlainStamp(stamp)
    ensures LastIndexOf(ConflictPath(rel, stamp), '/') == LastIndexOf(rel, '/')
    ensures ConflictPath(rel, stamp)[..LastIndexOf(rel, '/') + 1] == rel[..LastIndexOf(rel, '/') + 1]
  {
    var m, k, c := Mark(stamp), Cut(rel), ConflictPath(rel, stamp);
    var slash := LastIndexOf(rel, '/');
    assert slash < k;
    CopyChars(rel, stamp);
    if slash >= 0 {
      LastIndexUnique(c, '/', slash);
    }
  }
}
