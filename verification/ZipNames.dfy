/** Names of archive entries (packages/core/src/utils/zip.ts): sanitized and made pairwise distinct. */
module ZipNames {
  import opened Text

  /** `name.replace(/\\/g, '/')`. */
  function ForwardSlashes(name: string): string {
    if name == "" then "" else [if name[0] == '\\' then '/' else name[0]] + ForwardSlashes(name[1..])
  }

  predicate IsPlain(segment: string) {
    segment != "" && segment != "." && segment != ".."
  }

  function KeepPlain(segments: seq<string>): seq<string> {
    if segments == [] then []
    else (if IsPlain(segments[0]) then [segments[0]] else []) + KeepPlain(segments[1..])
  }

  function SanitizeName(name: string): string {
    Join(KeepPlain(Split(ForwardSlashes(name), '/')), '/')
  }

  /** A name a reader can extract safely: no backslash and no empty, "." or ".." segment. */
  ghost predicate IsSafe(name: string) {
    && '\\' !in name
    && forall i :: 0 <= i < |Split(name, '/')| ==> IsPlain(Split(name, '/')[i])
  }

  lemma {:induction false} NoBackslash(name: string)
    ensures '\\' !in ForwardSlashes(name)
  {
    if name != "" {
      NoBackslash(name[1..]);
    }
  }

  lemma {:induction false} KeepPlainProperties(segments: seq<string>)
    ensures forall i :: 0 <= i < |KeepPlain(segments)| ==>
              IsPlain(KeepPlain(segments)[i]) && KeepPlain(segments)[i] in segments
  {
    if segments != [] {
      KeepPlainProperties(segments[1..]);
    }
  }

  lemma {:induction false} JoinedChars(pieces: seq<string>, sep: char, c: char)
    requires c != sep && NoneContains(pieces, c)
    ensures c !in Join(pieces, sep)
  {
    if |pieces| > 1 {
      JoinedChars(pieces[1..], sep, c);
    }
  }

  lemma {:induction false} SplitChars(s: string, sep: char, c: char)
    requires c !in s
    ensures NoneContains(Split(s, sep), c)
  {
    if s != "" {
      SplitChars(s[1..], sep, c);
    }
  }

  /** A sanitized name that is not empty is safe. */
  lemma SanitizedIsSafe(name: string)
    requires SanitizeName(name) != ""
    ensures IsSafe(SanitizeName(name))
  {
    var slashed := ForwardSlashes(name);
    var pieces := Split(slashed, '/');
    var kept := KeepPlain(pieces);
    NoBackslash(name);
    JoinSplit(slashed, '/');
    KeepPlainProperties(pieces);
    SplitChars(slashed, '/', '\\');
    assert NoneContains(kept, '/') && NoneContains(kept, '\\');
    SplitJoin(kept, '/');
    JoinedChars(kept, '/', '\\');
  }

  /** The segments of a sanitized name. */
  function Parts(name: string): seq<string> {
    if SanitizeName(name) == "" then [] else Split(SanitizeName(name), '/')
  }

  lemma {:induction false} JoinedEmpty(pieces: seq<string>)
    requires forall i :: 0 <= i < |pieces| ==> pieces[i] != ""
    ensures Join(pieces, '/') == "" <==> pieces == []
  {
  }

  lemma PartsAreKept(name: string)
    ensures Parts(name) == KeepPlain(Split(ForwardSlashes(name), '/'))
  {
    var pieces := Split(ForwardSlashes(name), '/');
    JoinSplit(ForwardSlashes(name), '/');
    KeepPlainProperties(pieces);
    JoinedEmpty(KeepPlain(pieces));
    if KeepPlain(pieces) != [] {
      SplitJoin(KeepPlain(pieces), '/');
    }
  }

  lemma {:induction false} KeepPlainConcat(a: seq<string>, b: seq<string>)
    ensures KeepPlain(a + b) == KeepPlain(a) + KeepPlain(b)
  {
    if a == [] {
      assert a + b == b;
    } else {
      var first := if IsPlain(a[0]) then [a[0]] else [];
      KeepPlainConcat(a[1..], b);
      assert (a + b)[1..] == a[1..] + b;
      assert KeepPlain(a + b) == first + (KeepPlain(a[1..]) + KeepPlain(b));
    }
  }

  lemma {:induction false} ForwardConcat(a: string, b: string)
    ensures ForwardSlashes(a + b) == ForwardSlashes(a) + ForwardSlashes(b)
  {
    if a == "" {
      assert a + b == b;
    } else {
      ForwardConcat(a[1..], b);
      assert (a + b)[1..] == a[1..] + b;
    }
  }

  /** Either slash separates, and the segments of both sides stay in order. */
  lemma PartsConcat(a: string, b: string)
    ensures Parts(a + "/" + b) == Parts(a) + Parts(b)
    ensures Parts(a + "\\" + b) == Parts(a) + Parts(b)
  {
    ForwardConcat(a, "/" + b);
    ForwardConcat("/", b);
    ForwardConcat(a, "\\" + b);
    ForwardConcat("\\", b);
    assert a + ("/" + b) == a + "/" + b && a + ("\\" + b) == a + "\\" + b;
    assert ForwardSlashes("/") == ForwardSlashes("\\") == "/";
    var x, y := ForwardSlashes(a), ForwardSlashes(b);
    assert x + ("/" + y) == x + ['/'] + y;
    SplitAt(x, y, '/');
    KeepPlainConcat(Split(x, '/'), Split(y, '/'));
    PartsAreKept(a);
    PartsAreKept(b);
    PartsAreKept(a + "/" + b);
    PartsAreKept(a + "\\" + b);
  }

  lemma {:induction false} NothingToReplace(s: string)
    requires '\\' !in s
    ensures ForwardSlashes(s) == s
  {
    if s != "" {
      NothingToReplace(s[1..]);
    }
  }

  /** A name without slashes is one segment, unless it is empty or consists of one or two dots. */
  lemma SinglePart(s: string)
    requires '/' !in s && '\\' !in s
    ensures Parts(s) == if s == "" || s == "." || s == ".." then [] else [s]
  {
    NothingToReplace(s);
    SplitSingle(s, '/');
    PartsAreKept(s);
    assert [s][1..] == [];
  }

  lemma {:induction false} KeepAllPlain(segments: seq<string>)
    requires forall i :: 0 <= i < |segments| ==> IsPlain(segments[i])
    ensures KeepPlain(segments) == segments
  {
    if segments != [] {
      KeepAllPlain(segments[1..]);
      assert segments == [segments[0]] + segments[1..];
    }
  }

  /** A safe name is left as it is. */
  lemma SafeIsKept(name: string)
    requires IsSafe(name)
    ensures SanitizeName(name) == name
  {
    NothingToReplace(name);
    KeepAllPlain(Split(name, '/'));
    JoinSplit(name, '/');
  }

  // ---------------------------------------------------------------- numbered duplicates

  function Digit(d: nat): char
    requires d < 10
  {
    ['0', '1', '2', '3', '4', '5', '6', '7', '8', '9'][d]
  }

  function Decimal(n: nat): string {
    if n < 10 then [Digit(n)] else Decimal(n / 10) + [Digit(n % 10)]
  }

  lemma {:induction false} DecimalInjective(a: nat, b: nat)
    requires Decimal(a) == Decimal(b)
    ensures a == b
  {
    var s := Decimal(a);
    if a < 10 || b < 10 {
    } else {
      assert Decimal(a / 10) == s[..|s| - 1] == Decimal(b / 10);
      DecimalInjective(a / 10, b / 10);
      assert s[|s| - 1] == Digit(a % 10) == Digit(b % 10);
    }
  }

  /** The number a string of digits stands for. */
  function Value(digits: string): int {
    if digits == "" then 0
    else 10 * Value(digits[..|digits| - 1]) + (digits[|digits| - 1] as int - '0' as int)
  }

  lemma {:induction false} DecimalValue(n: nat)
    ensures Value(Decimal(n)) == n
    ensures Decimal(n)[0] == '0' ==> n == 0
  {
    if n >= 10 {
      DecimalValue(n / 10);
      assert Decimal(n)[..|Decimal(n)| - 1] == Decimal(n / 10);
      assert Digit(n % 10) as int - '0' as int == n % 10;
    } else {
      assert [Digit(n)][..0] == "";
      assert Digit(n) as int - '0' as int == n;
    }
  }

  function Stem(name: string): string {
    var dot := LastIndexOf(name, '.');
    if dot > 0 then name[..dot] else name
  }

  function Extension(name: string): string {
    var dot := LastIndexOf(name, '.');
    if dot > 0 then name[dot..] else ""
  }

  /** `${stem} (${i})${ext}`. */
  function NumberedName(name: string, i: nat): string {
    Stem(name) + (" (" + Decimal(i) + ")") + Extension(name)
  }

  /** The number goes before the last dot, or to the end if there is no dot or only one at the beginning. */
  lemma NumberedBeforeExtension(stem: string, extension: string, i: nat)
    requires '.' !in extension
    ensures NumberedName(extension, i) == extension + (" (" + Decimal(i) + ")")
    ensures NumberedName(stem + "." + extension, i) ==
            if stem == "" then "." + extension + (" (" + Decimal(i) + ")")
            else stem + (" (" + Decimal(i) + ")") + "." + extension
  {
    var name, mark := stem + "." + extension, " (" + Decimal(i) + ")";
    LastIndexUnique(name, '.', |stem|);
    assert extension + mark + "" == extension + mark;
    assert name[|stem|..] == "." + extension && name[..|stem|] == stem;
    if stem == "" {
      assert name == "." + extension && name + mark + "" == name + mark;
    } else {
      assert stem + mark + ("." + extension) == stem + mark + "." + extension;
    }
  }

  lemma NumberedInjective(name: string, i: nat, j: nat)
    requires NumberedName(name, i) == NumberedName(name, j)
    ensures i == j
  {
    var a, b := NumberedName(name, i), NumberedName(name, j);
    var m, e := |Stem(name)| + 2, |Extension(name)| + 1;
    assert a[m..|a| - e] == Decimal(i);
    assert b[m..|b| - e] == Decimal(j);
    DecimalInjective(i, j);
  }

  /** Numbering a safe name gives a safe name: the number only makes one segment longer. */
  lemma NumberedIsSafe(name: string, i: nat)
    requires IsSafe(name)
    ensures IsSafe(NumberedName(name, i))
  {
    var stem, mark, ext := Stem(name), " (" + Decimal(i) + ")", Extension(name);
    assert name == stem + ext;
    DecimalChars(i);
    InsertedMark(stem, mark, ext);
  }

  lemma {:induction false} DecimalChars(n: nat)
    ensures forall c :: c in Decimal(n) ==> '0' <= c <= '9'
  {
    if n >= 10 {
      DecimalChars(n / 10);
    }
  }

  /** A mark between the two halves of a name lengthens the one piece it is inserted into. */
  lemma InsertedMark(stem: string, mark: string, ext: string)
    requires IsSafe(stem + ext) && '/' !in mark && '\\' !in mark && '(' in mark
    ensures IsSafe(stem + mark + ext)
  {
    MarkedPieces(stem, mark, ext);
    SplitGlue(stem, ext);
    PlainPieces(Split(stem, '/'), mark, Split(ext, '/'));
  }

  lemma MarkedPieces(stem: string, mark: string, ext: string)
    requires '/' !in mark
    ensures Split(stem + mark + ext, '/') == Glue(Glue(Split(stem, '/'), [mark]), Split(ext, '/'))
  {
    SplitGlue(stem + mark, ext);
    SplitGlue(stem, mark);
    SplitSingle(mark, '/');
  }

  lemma PlainPieces(a: seq<string>, mark: string, b: seq<string>)
    requires a != [] && b != [] && '(' in mark
    requires forall k :: 0 <= k < |Glue(a, b)| ==> IsPlain(Glue(a, b)[k])
    ensures forall k :: 0 <= k < |Glue(Glue(a, [mark]), b)| ==> IsPlain(Glue(Glue(a, [mark]), b)[k])
  {
    var n, marked := |a| - 1, Glue(Glue(a, [mark]), b);
    assert marked == a[..n] + [a[n] + mark + b[0]] + b[1..];
    forall k | 0 <= k < |marked| ensures IsPlain(marked[k]) {
      if k == n {
        assert '(' in marked[k];
      } else {
        assert marked[k] == Glue(a, b)[k];
      }
    }
  }

  /** The pieces of a concatenation without a separator in between: the two middle ones are glued. */
  function Glue(a: seq<string>, b: seq<string>): seq<string>
    requires a != [] && b != []
  {
    a[..|a| - 1] + [a[|a| - 1] + b[0]] + b[1..]
  }

  lemma {:induction false} SplitGlue(x: string, y: string)
    ensures Split(x + y, '/') == Glue(Split(x, '/'), Split(y, '/'))
  {
    var b := Split(y, '/');
    if x == "" {
      assert x + y == y && "" + b[0] == b[0];
    } else {
      assert (x + y)[1..] == x[1..] + y;
      SplitGlue(x[1..], y);
      GlueFirst(x[0], Split(x[1..], '/'), b);
    }
  }

  lemma GlueFirst(c: char, rest: seq<string>, b: seq<string>)
    requires rest != [] && b != []
    ensures Glue([""] + rest, b) == [""] + Glue(rest, b)
    ensures Glue([[c] + rest[0]] + rest[1..], b) == [[c] + Glue(rest, b)[0]] + Glue(rest, b)[1..]
  {
    if |rest| == 1 {
      assert [c] + (rest[0] + b[0]) == [c] + rest[0] + b[0];
    }
  }

  // ---------------------------------------------------------------- deduplication

  /** The name an entry gets when `used` names are taken. */
  ghost predicate IsChosen(chosen: string, name: string, used: set<string>) {
    var base := if SanitizeName(name) == "" then "untitled" else SanitizeName(name);
    if base !in used then chosen == base
    else exists i :: i >= 1 && chosen == NumberedName(base, i) && chosen !in used &&
                     forall j :: 1 <= j < i ==> NumberedName(base, j) in used
  }

  /** The first free number exists: only finitely many names are used. */
  method FirstFree(base: string, used: set<string>) returns (i: nat)
    ensures i >= 1 && NumberedName(base, i) !in used
    ensures forall j :: 1 <= j < i ==> NumberedName(base, j) in used
  {
    i := 1;
    ghost var seen: set<string> := {};
    while NumberedName(base, i) in used
      invariant i >= 1 && seen <= used && |seen| == i - 1
      invariant forall j :: 1 <= j < i ==> NumberedName(base, j) in used
      invariant forall j :: j >= i ==> NumberedName(base, j) !in seen
      decreases |used| - |seen|
    {
      ghost var s := NumberedName(base, i);
      SubsetSize(seen + {s}, used);
      seen := seen + {s};
      forall j | j > i ensures NumberedName(base, j) != s {
        if NumberedName(base, j) == s {
          NumberedInjective(base, i, j);
        }
      }
      i := i + 1;
    }
  }

  lemma {:induction false} SubsetSize(a: set<string>, b: set<string>)
    requires a <= b
    ensures |a| <= |b|
  {
    if a != {} {
      var x :| x in a;
      SubsetSize(a - {x}, b - {x});
    }
  }

  function Used(names: seq<string>): set<string> {
    set name | name in names
  }

  /** A name is safe, the one its entry chooses, and different from all names before it. */
  ghost predicate WellChosenAt(chosen: seq<string>, names: seq<string>, i: nat)
    requires i < |chosen| && i < |names|
  {
    && IsSafe(chosen[i]) && chosen[i] != ""
    && chosen[i] !in chosen[..i]
    && IsChosen(chosen[i], names[i], Used(chosen[..i]))
  }

  ghost predicate WellChosen(chosen: seq<string>, names: seq<string>) {
    && |chosen| <= |names|
    && forall i {:trigger WellChosenAt(chosen, names, i)} :: 0 <= i < |chosen| ==> WellChosenAt(chosen, names, i)
  }

  lemma WellChosenPush(chosen: seq<string>, names: seq<string>, name: string)
    requires WellChosen(chosen, names) && |chosen| < |names|
    requires IsSafe(name) && IsChosen(name, names[|chosen|], Used(chosen))
    ensures WellChosen(chosen + [name], names)
  {
    var next := chosen + [name];
    forall i {:trigger WellChosenAt(next, names, i)} | 0 <= i < |next| ensures WellChosenAt(next, names, i) {
      if i < |chosen| {
        StillChosen(chosen, names, name, i);
      } else {
        assert next[..i] == chosen;
      }
    }
  }

  lemma StillChosen(chosen: seq<string>, names: seq<string>, name: string, i: nat)
    requires i < |chosen| < |names| && WellChosenAt(chosen, names, i)
    ensures WellChosenAt(chosen + [name], names, i)
  {
    assert (chosen + [name])[..i] == chosen[..i];
  }

  /** Names chosen this way are pairwise distinct. */
  lemma WellChosenDistinct(chosen: seq<string>, names: seq<string>, i: nat, j: nat)
    requires WellChosen(chosen, names) && i < j < |chosen|
    ensures chosen[i] != chosen[j] && IsSafe(chosen[i])
  {
    assert WellChosenAt(chosen, names, i) && WellChosenAt(chosen, names, j);
    assert chosen[..j][i] == chosen[i];
  }

  lemma AllDistinct(chosen: seq<string>, names: seq<string>)
    requires WellChosen(chosen, names)
    ensures forall i :: 0 <= i < |chosen| ==> IsSafe(chosen[i])
    ensures forall i, j :: 0 <= i < j < |chosen| ==> chosen[i] != chosen[j]
  {
    forall i | 0 <= i < |chosen| ensures IsSafe(chosen[i]) {
      assert WellChosenAt(chosen, names, i);
    }
    forall i, j | 0 <= i < j < |chosen| ensures chosen[i] != chosen[j] {
      WellChosenDistinct(chosen, names, i, j);
    }
  }

  /** The names of the archive entries, in entry order. */
  method ChooseNames(names: seq<string>) returns (chosen: seq<string>)
    ensures |chosen| == |names| && WellChosen(chosen, names)
  {
    chosen := [];
    var used: set<string> := {};
    for n := 0 to |names|
      invariant |chosen| == n && used == Used(chosen) && WellChosen(chosen, names)
    {
      var name := ChooseName(names[n], used);
      WellChosenPush(chosen, names, name);
      chosen := chosen + [name];
      used := used + {name};
    }
  }

  method ChooseName(entry: string, used: set<string>) returns (name: string)
    ensures IsSafe(name) && name != "" && name !in used && IsChosen(name, entry, used)
  {
    name := SanitizeName(entry);
    if name == "" {
      name := "untitled";
    }
    BaseIsSafe(entry);
    if name in used {
      var i := FirstFree(name, used);
      NumberedIsSafe(name, i);
      name := NumberedName(name, i);
    }
  }

  lemma BaseIsSafe(name: string)
    ensures IsSafe(if SanitizeName(name) == "" then "untitled" else SanitizeName(name))
  {
    if SanitizeName(name) == "" {
      SplitSingle("untitled", '/');
    } else {
      SanitizedIsSafe(name);
    }
  }
}
