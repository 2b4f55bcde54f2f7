/** Path helpers of the storage backends (packages/storage/src/paths.ts). */
module Paths {
  import opened Options
  import opened Text

  datatype Error = InvalidPath | NotFound | AlreadyExists | NotEmpty | IsDirectory | NotDirectory

  // ---------------------------------------------------------------- the code

  /** The segments `normalizePath` keeps. */
  function KeepSegments(segments: seq<string>): seq<string> {
    if segments == [] then []
    else
      var n := |segments| - 1;
      KeepSegments(segments[..n]) + if segments[n] == "" || segments[n] == "." then [] else [segments[n]]
  }

  function NormalizePath(path: string): Result<string, Error> {
    if path == "" || ".." in Split(path, '/') then Err(InvalidPath)
    else Ok("/" + Join(KeepSegments(Split(path, '/')), '/'))
  }

  /** The loop of `normalizePath`. */
  method ComputeNormalizePath(path: string) returns (r: Result<string, Error>)
    ensures r == NormalizePath(path)
  {
    if path == "" {
      return Err(InvalidPath);
    }
    var pieces := Split(path, '/');
    var segments: seq<string> := [];
    for i := 0 to |pieces|
      invariant segments == KeepSegments(pieces[..i]) && ".." !in pieces[..i]
    {
      assert pieces[..i + 1][..i] == pieces[..i];
      if pieces[i] == "" || pieces[i] == "." {
        continue;
      }
      if pieces[i] == ".." {
        return Err(InvalidPath);
      }
      segments := segments + [pieces[i]];
    }
    assert pieces[..|pieces|] == pieces;
    r := Ok("/" + Join(segments, '/'));
  }

  function ParentOf(normalized: string): string {
    var idx := LastIndexOf(normalized, '/');
    if idx <= 0 then "/" else normalized[..idx]
  }

  function ParentPath(path: string): Result<string, Error> {
    match NormalizePath(path)
    case Ok(normalized) => Ok(ParentOf(normalized))
    case Err(e) => Err(e)
  }

  function BaseOf(normalized: string): string {
    normalized[LastIndexOf(normalized, '/') + 1..]
  }

  function BaseName(path: string): Result<string, Error> {
    match NormalizePath(path)
    case Ok(normalized) => Ok(BaseOf(normalized))
    case Err(e) => Err(e)
  }

  function SegmentsOf(normalized: string): seq<string>
    requires normalized != ""
  {
    if normalized == "/" then [] else Split(normalized[1..], '/')
  }

  function PathSegments(path: string): Result<seq<string>, Error> {
    match NormalizePath(path)
    case Ok(normalized) => Ok(SegmentsOf(normalized))
    case Err(e) => Err(e)
  }

  /** `joinPath` of two parts. */
  function JoinPath(a: string, b: string): Result<string, Error> {
    NormalizePath(Join([a, b], '/'))
  }

  /** The string test of `isUnder`, on normalized paths. */
  predicate Under(child: string, ancestor: string) {
    ancestor == "/" || child == ancestor || ancestor + "/" <= child
  }

  function IsUnder(child: string, ancestor: string): Result<bool, Error> {
    match (NormalizePath(child), NormalizePath(ancestor))
    case (Ok(c), Ok(a)) => Ok(Under(c, a))
    case (Err(e), _) => Err(e)
    case (_, Err(e)) => Err(e)
  }

  // ---------------------------------------------------------------- normalized paths as segment lists

  /** A name that can occur in a normalized path. */
  predicate IsName(s: string) {
    s != "" && s != "." && s != ".." && '/' !in s
  }

  ghost predicate AreNames(segments: seq<string>) {
    forall i :: 0 <= i < |segments| ==> IsName(segments[i])
  }

  /** Every segment preceded by a slash. */
  function Slashed(segments: seq<string>): string {
    if segments == [] then "" else Slashed(segments[..|segments| - 1]) + "/" + segments[|segments| - 1]
  }

  function PathOf(segments: seq<string>): string {
    if segments == [] then "/" else Slashed(segments)
  }

  lemma {:induction false} SlashedConcat(a: seq<string>, b: seq<string>)
    ensures Slashed(a + b) == Slashed(a) + Slashed(b)
  {
    if b == [] {
      assert a + b == a;
    } else {
      var n := |b| - 1;
      SlashedConcat(a, b[..n]);
      assert (a + b)[..|a + b| - 1] == a + b[..n];
    }
  }

  lemma {:induction false} SlashedIsJoin(segments: seq<string>)
    requires segments != []
    ensures Slashed(segments) == "/" + Join(segments, '/')
  {
    var first, rest := segments[0], segments[1..];
    assert segments == [first] + rest;
    SlashedConcat([first], rest);
    assert Slashed([first]) == "/" + first;
    if rest != [] {
      SlashedIsJoin(rest);
    }
  }

  lemma {:induction false} SlashedSplits(segments: seq<string>)
    requires AreNames(segments) && segments != []
    ensures Split(Slashed(segments), '/') == [""] + segments
  {
    SlashedIsJoin(segments);
    SplitJoin(segments, '/');
    SplitAt("", Join(segments, '/'), '/');
    assert "" + ['/'] + Join(segments, '/') == Slashed(segments);
  }

  lemma {:induction false} KeepSegmentsNames(segments: seq<string>)
    requires NoneContains(segments, '/') && ".." !in segments
    ensures AreNames(KeepSegments(segments))
  {
    if segments != [] {
      var n := |segments| - 1;
      assert ".." !in segments[..n] && segments[n] in segments;
      KeepSegmentsNames(segments[..n]);
    }
  }

  lemma {:induction false} KeepSegmentsOfNames(segments: seq<string>)
    requires AreNames(segments)
    ensures KeepSegments(segments) == segments && KeepSegments([""] + segments) == segments
  {
    if segments != [] {
      var n := |segments| - 1;
      KeepSegmentsOfNames(segments[..n]);
      assert ([""] + segments)[..n + 1] == [""] + segments[..n];
      assert segments == segments[..n] + [segments[n]];
    } else {
      assert [""] + segments == [""] && [""][..0] == [];
    }
  }

  /** A path that normalizes is the path of a list of names, and normalizing it again changes nothing. */
  lemma NormalizeIdempotent(path: string) returns (segments: seq<string>)
    requires NormalizePath(path).Ok?
    ensures AreNames(segments) && NormalizePath(path) == Ok(PathOf(segments))
    ensures NormalizePath(PathOf(segments)) == Ok(PathOf(segments))
  {
    JoinSplit(path, '/');
    segments := KeepSegments(Split(path, '/'));
    KeepSegmentsNames(Split(path, '/'));
    if segments != [] {
      SlashedIsJoin(segments);
    }
    PathOfNormalizes(segments);
  }

  lemma PathOfNormalizes(segments: seq<string>)
    requires AreNames(segments)
    ensures NormalizePath(PathOf(segments)) == Ok(PathOf(segments))
  {
    if segments == [] {
      SplitAt("", "", '/');
      assert "" + ['/'] + "" == "/";
      assert Split("/", '/') == ["", ""] && ["", ""][..1] == [""] && [""][..0] == [];
      assert KeepSegments(["", ""]) == [] && "/" + Join([], '/') == "/";
    } else {
      SlashedSplits(segments);
      KeepSegmentsOfNames(segments);
      SlashedIsJoin(segments);
      assert ".." !in segments;
    }
  }

  /** Splitting a normalized path gives back the names it was built from. */
  lemma SegmentsOfPath(segments: seq<string>)
    requires AreNames(segments)
    ensures PathOf(segments) != ""
    ensures SegmentsOf(PathOf(segments)) == segments
    ensures PathSegments(PathOf(segments)) == Ok(segments)
  {
    PathOfNormalizes(segments);
    if segments != [] {
      SlashedIsJoin(segments);
      SplitJoin(segments, '/');
      assert Slashed(segments)[1..] == Join(segments, '/');
    }
  }

  /** Different lists of names have different paths. */
  lemma PathOfInjective(a: seq<string>, b: seq<string>)
    requires AreNames(a) && AreNames(b) && PathOf(a) == PathOf(b)
    ensures a == b
  {
    SegmentsOfPath(a);
    SegmentsOfPath(b);
  }

  // ---------------------------------------------------------------- any path

  lemma {:induction false} KeepSegmentsConcat(a: seq<string>, b: seq<string>)
    ensures KeepSegments(a + b) == KeepSegments(a) + KeepSegments(b)
  {
    if b == [] {
      assert a + b == a;
    } else {
      var n := |b| - 1;
      KeepSegmentsConcat(a, b[..n]);
      assert (a + b)[..|a + b| - 1] == a + b[..n];
    }
  }

  lemma SegmentsAreKept(path: string)
    requires path != ""
    ensures PathSegments(path) == if ".." in Split(path, '/') then Err(InvalidPath)
                                  else Ok(KeepSegments(Split(path, '/')))
  {
    if ".." !in Split(path, '/') {
      var segments := NormalizeIdempotent(path);
      SegmentsOfPath(segments);
      JoinSplit(path, '/');
      KeepSegmentsNames(Split(path, '/'));
      var kept := KeepSegments(Split(path, '/'));
      SegmentsOfPath(kept);
      if kept != [] {
        SlashedIsJoin(kept);
      }
    }
  }

  /** The segments on one side of a slash; an empty side has none. */
  function SideSegments(side: string): Result<seq<string>, Error> {
    if side == "" then Ok([]) else PathSegments(side)
  }

  /** What both sides have, if neither is refused. */
  function Both(a: Result<seq<string>, Error>, b: Result<seq<string>, Error>): Result<seq<string>, Error> {
    if a.Ok? && b.Ok? then Ok(a.value + b.value) else Err(InvalidPath)
  }

  lemma NoneBeside(side: Result<seq<string>, Error>)
    requires side.Ok? || side == Err(InvalidPath)
    ensures Both(Ok([]), side) == Both(side, Ok([])) == side
  {
    if side.Ok? {
      assert [] + side.value == side.value + [] == side.value;
    }
  }

  lemma SideIsKept(side: string)
    ensures SideSegments(side) == if ".." in Split(side, '/') then Err(InvalidPath)
                                  else Ok(KeepSegments(Split(side, '/')))
  {
    if side == "" {
      SplitSingle("", '/');
      assert [""][..0] == [];
      assert KeepSegments([""]) == KeepSegments([]) + [] && ".." !in [""];
    } else {
      SegmentsAreKept(side);
    }
  }

  /** Of two paths with a slash between them the segments are those of the one and then those of the other. */
  lemma SegmentsConcat(a: string, b: string)
    ensures PathSegments(a + "/" + b) == Both(SideSegments(a), SideSegments(b))
  {
    var path := a + "/" + b;
    SplitAt(a, b, '/');
    assert path == a + ['/'] + b;
    SegmentsAreKept(path);
    SideIsKept(a);
    SideIsKept(b);
    KeepSegmentsConcat(Split(a, '/'), Split(b, '/'));
  }

  /** A path without a slash is one name; a dot stands for nothing, and two dots are refused. */
  lemma SingleSegment(s: string)
    requires '/' !in s
    ensures PathSegments(s) == if s == "" || s == ".." then Err(InvalidPath) else if s == "." then Ok([]) else Ok([s])
  {
    SplitSingle(s, '/');
    if s != "" {
      SegmentsAreKept(s);
      assert [s][..0] == [];
    }
  }

  /** The normal form is the path of the segments. */
  lemma NormalFormOfSegments(path: string)
    ensures match PathSegments(path)
            case Ok(segments) => AreNames(segments) && NormalizePath(path) == Ok(PathOf(segments))
            case Err(e) => NormalizePath(path) == Err(e)
  {
    if NormalizePath(path).Ok? {
      var segments := NormalizeIdempotent(path);
      SegmentsOfPath(segments);
    }
  }

  /** Equal segments are equal normal forms. */
  lemma SameSegments(a: string, b: string)
    requires PathSegments(a) == PathSegments(b)
    ensures NormalizePath(a) == NormalizePath(b)
  {
    NormalFormOfSegments(a);
    NormalFormOfSegments(b);
  }

  /** A slash before or after a path changes nothing. */
  lemma OuterSlashChangesNothing(a: string)
    requires a != ""
    ensures NormalizePath(a + "/") == NormalizePath(a)
    ensures NormalizePath("/" + a) == NormalizePath(a)
  {
    SegmentsConcat(a, "");
    assert a + "/" + "" == a + "/";
    SideIsKept(a);
    NoneBeside(SideSegments(a));
    SlashBefore(a);
    SameSegments(a + "/", a);
    SameSegments("/" + a, a);
  }

  lemma SlashBefore(b: string)
    ensures SideSegments("/" + b) == SideSegments(b)
  {
    SideIsKept(b);
    NoneBeside(SideSegments(b));
    SegmentsConcat("", b);
    assert "" + "/" == "/";
  }

  lemma DotBefore(b: string)
    ensures SideSegments("./" + b) == SideSegments(b)
  {
    SideIsKept(b);
    NoneBeside(SideSegments(b));
    SegmentsConcat(".", b);
    SingleSegment(".");
    assert "." + "/" == "./";
  }

  lemma Regroup(a: string, x: string, y: string, b: string)
    ensures a + x + (y + b) == a + (x + y) + b
  {
  }

  lemma SameAfterSlash(a: string, b: string, c: string)
    requires SideSegments(b) == SideSegments(c)
    ensures NormalizePath(a + "/" + b) == NormalizePath(a + "/" + c)
  {
    SegmentsConcat(a, b);
    SegmentsConcat(a, c);
    SameSegments(a + "/" + b, a + "/" + c);
  }

  /** A doubled slash is one slash, and so is a dot between slashes. */
  lemma InnerSlashChangesNothing(a: string, b: string)
    ensures NormalizePath(a + "//" + b) == NormalizePath(a + "/" + b)
    ensures NormalizePath(a + "/./" + b) == NormalizePath(a + "/" + b)
  {
    SlashBefore(b);
    SameAfterSlash(a, "/" + b, b);
    Regroup(a, "/", "/", b);
    assert "/" + "/" == "//";
    DotBefore(b);
    SameAfterSlash(a, "./" + b, b);
    Regroup(a, "/", "./", b);
    assert "/" + "./" == "/./";
  }

  /** Joining two paths puts a slash between them. */
  lemma JoinedSegments(a: string, b: string)
    ensures JoinPath(a, b) == NormalizePath(a + "/" + b)
  {
    assert Join([a, b], '/') == a + ['/'] + Join([b], '/') == a + "/" + b;
  }

  /** Parent and base name are the list without its last name and that name; joined, they are the path. */
  lemma ParentAndBase(segments: seq<string>)
    requires AreNames(segments) && segments != []
    ensures var n, path := |segments| - 1, PathOf(segments);
            && ParentPath(path) == Ok(PathOf(segments[..n])) && BaseName(path) == Ok(segments[n])
            && ParentOf(path) == PathOf(segments[..n]) && BaseOf(path) == segments[n]
            && JoinPath(PathOf(segments[..n]), segments[n]) == Ok(path)
  {
    var n, path := |segments| - 1, PathOf(segments);
    PathOfNormalizes(segments);
    assert path == Slashed(segments[..n]) + "/" + segments[n];
    LastIndexUnique(path, '/', |Slashed(segments[..n])|);
    if n > 0 {
      SlashedIsJoin(segments[..n]);
      assert path[..|Slashed(segments[..n])|] == Slashed(segments[..n]);
      assert Join([PathOf(segments[..n]), segments[n]], '/') == path;
    } else {
      SplitAt("/", segments[0], '/');
      SplitAt("", "", '/');
      SplitSingle(segments[0], '/');
      assert "/" + ['/'] + segments[0] == Join(["/", segments[0]], '/');
      assert Split("//" + segments[0], '/') == ["", "", segments[0]];
      assert ["", "", segments[0]][..2] == ["", ""] && ["", ""][..1] == [""] && [""][..0] == [];
      assert KeepSegments(["", "", segments[0]]) == [segments[0]];
    }
  }

  lemma ParentOfRoot()
    ensures ParentPath("/") == Ok("/") && BaseName("/") == Ok("")
  {
    PathOfNormalizes([]);
    LastIndexUnique("/", '/', 0);
  }

  /** Parent and base name of any path, from its segments. */
  lemma ParentAndBaseOfPath(path: string)
    ensures match PathSegments(path)
            case Ok(segments) =>
              var n := |segments| - 1;
              && ParentPath(path) == Ok(PathOf(if n < 0 then [] else segments[..n]))
              && BaseName(path) == Ok(if n < 0 then "" else segments[n])
            case Err(e) => ParentPath(path) == Err(e) && BaseName(path) == Err(e)
  {
    NormalFormOfSegments(path);
    if NormalizePath(path).Ok? {
      var segments := PathSegments(path).value;
      PathOfNormalizes(segments);
      if segments == [] {
        ParentOfRoot();
      } else {
        ParentAndBase(segments);
      }
    }
  }

  /** The string test holds exactly when one segment list is a prefix of the other. */
  lemma UnderIffPrefix(c: seq<string>, a: seq<string>)
    requires AreNames(c) && AreNames(a)
    ensures Under(PathOf(c), PathOf(a)) <==> a <= c
    ensures IsUnder(PathOf(c), PathOf(a)) == Ok(a <= c)
  {
    PathOfNormalizes(c);
    PathOfNormalizes(a);
    if a <= c {
      PrefixGivesUnder(c, a);
    }
    if Under(PathOf(c), PathOf(a)) {
      UnderGivesPrefix(c, a);
    }
  }

  /** One path is under another exactly if the segments of the other begin its own. */
  lemma IsUnderOfPaths(c: string, a: string)
    ensures match (PathSegments(c), PathSegments(a))
            case (Ok(x), Ok(y)) => IsUnder(c, a) == Ok(y <= x)
            case _ => IsUnder(c, a) == Err(InvalidPath)
  {
    NormalFormOfSegments(c);
    NormalFormOfSegments(a);
    if NormalizePath(c).Ok? && NormalizePath(a).Ok? {
      UnderIffPrefix(PathSegments(c).value, PathSegments(a).value);
    }
  }

  lemma PrefixGivesUnder(c: seq<string>, a: seq<string>)
    requires a <= c
    ensures Under(PathOf(c), PathOf(a))
  {
    var rest := c[|a|..];
    assert c == a + rest;
    SlashedConcat(a, rest);
    if rest != [] && a != [] {
      SlashedIsJoin(rest);
      assert PathOf(c) == PathOf(a) + "/" + Join(rest, '/');
    }
  }

  lemma UnderGivesPrefix(c: seq<string>, a: seq<string>)
    requires AreNames(c) && AreNames(a) && Under(PathOf(c), PathOf(a))
    ensures a <= c
  {
    var pc, pa := PathOf(c), PathOf(a);
    if a != [] {
      assert |pa| >= 2;
      if pc == pa {
        PathOfInjective(c, a);
      } else {
        var rest := pc[|pa| + 1..];
        assert pc == pa + ['/'] + rest;
        SlashedGivesPrefix(c, a, rest);
      }
    }
  }

  lemma SlashedGivesPrefix(c: seq<string>, a: seq<string>, rest: string)
    requires AreNames(c) && AreNames(a) && a != []
    requires Slashed(c) == Slashed(a) + ['/'] + rest
    ensures a <= c
  {
    SplitAt(Slashed(a), rest, '/');
    SlashedSplits(c);
    SlashedSplits(a);
    SamePieces(c, a, Split(rest, '/'));
  }

  lemma SamePieces(c: seq<string>, a: seq<string>, more: seq<string>)
    requires [""] + c == [""] + a + more
    ensures a <= c
  {
    assert ([""] + c)[1..] == c && ([""] + a + more)[1..] == a + more;
  }

  /** `isUnder` is a partial order on normalized paths. */
  lemma UnderIsPartialOrder(a: seq<string>, b: seq<string>, c: seq<string>)
    requires AreNames(a) && AreNames(b) && AreNames(c)
    ensures Under(PathOf(a), PathOf(a))
    ensures Under(PathOf(a), PathOf(b)) && Under(PathOf(b), PathOf(a)) ==> PathOf(a) == PathOf(b)
    ensures Under(PathOf(a), PathOf(b)) && Under(PathOf(b), PathOf(c)) ==> Under(PathOf(a), PathOf(c))
  {
    UnderIffPrefix(a, a);
    UnderIffPrefix(a, b);
    UnderIffPrefix(b, a);
    UnderIffPrefix(b, c);
    UnderIffPrefix(a, c);
    if a <= b && b <= a {
      assert a == b;
    }
  }

  lemma SecondChar(ss: seq<string>)
    requires AreNames(ss) && ss != []
    ensures |PathOf(ss)| >= 2 && PathOf(ss)[1] != '/'
  {
    SlashedIsJoin(ss);
    assert IsName(ss[0]) && ss[0][0] in ss[0];
    assert Join(ss, '/')[0] == ss[0][0];
  }

  lemma NotUnderDoubleSlash(ss: seq<string>, suffix: string)
    requires AreNames(ss) && ss != [] && (suffix == "" || suffix[0] == '/')
    ensures !Under("/" + suffix, PathOf(ss))
  {
    SecondChar(ss);
    var p, q := PathOf(ss), "/" + suffix;
    if suffix != "" {
      assert q[1] == '/';
    }
    assert (p + "/")[1] == p[1];
  }
}
