/**
 The IndexedDB backend's operations on its table of records keyed by path
 (packages/storage/src/idbfs.ts), and how the table stands for a directory tree.
 */
module FlatTable {
  import opened Options
  import opened Paths
  import opened DirTree

  datatype Record = Record(path: string, parent: string, isDir: bool, data: Payload, mtime: int, ctime: int)

  type Table = map<string, Record>

  /** The table after an operation and the error it reported, if any. */
  datatype Done = Done(table: Table, error: Option<Error>)

  const NO_DATA := Text("", 0)

  predicate HasDir(t: Table, path: string) {
    path == "/" || (path in t && t[path].isDir)
  }

  // ---------------------------------------------------------------- operations on normalized paths

  /** `writeRecord`. */
  function FlatWrite(t: Table, path: string, data: Payload, now: int): Done {
    var parent := ParentOf(path);
    if !HasDir(t, parent) then Done(t, Some(NotFound))
    else if path in t && t[path].isDir then Done(t, Some(IsDirectory))
    else
      var ctime := if path in t then t[path].ctime else now;
      Done(t[path := Record(path, parent, false, data, now, ctime)], None)
  }

  /** The closure `makeDir`: it does not look at the parent. */
  function MakeDir(t: Table, path: string, now: int): Done {
    if path in t then Done(t, if t[path].isDir then None else Some(AlreadyExists))
    else Done(t[path := Record(path, ParentOf(path), true, NO_DATA, now, now)], None)
  }

  /** The recursive `mkdir`: `makeDir` for the first `n` prefixes, stopping at the first error. */
  function MakePrefixes(t: Table, segs: seq<string>, n: nat, now: int): Done
    requires n <= |segs|
  {
    if n == 0 then Done(t, None)
    else
      var before := MakePrefixes(t, segs, n - 1, now);
      if before.error.Some? then before else MakeDir(before.table, Slashed(segs[..n]), now)
  }

  function FlatMkdir(t: Table, path: string, recursive: bool, now: int): Done
    requires path != ""
  {
    if path == "/" then Done(t, None)
    else if recursive then MakePrefixes(t, SegmentsOf(path), |SegmentsOf(path)|, now)
    else if !HasDir(t, ParentOf(path)) then Done(t, Some(NotFound))
    else MakeDir(t, path, now)
  }

  /** The record a descendant of `src` becomes; `parentPath` normalizes its argument. */
  function MovedRecord(r: Record, to: string, now: int): Record {
    var parent := match ParentPath(to) case Ok(p) => p case Err(_) => "";
    r.(path := to, parent := parent, mtime := now)
  }

  /** `dst + path.slice(src.length)`. */
  function MovedPath(path: string, src: string, dst: string): string {
    dst + if |src| <= |path| then path[|src|..] else ""
  }

  /** The table once the records at the paths `done`, all under `src`, have been moved. */
  function MoveSome(t: Table, done: set<string>, src: string, dst: string, now: int): Table
    requires src != "/" && forall p :: p in done ==> p in t && Under(p, src)
  {
    (t - done) + MovedRecords(t, done, src, dst, now)
  }

  function MovedRecords(t: Table, done: set<string>, src: string, dst: string, now: int): Table
    requires src != "/" && forall p :: p in done ==> p in t && Under(p, src)
  {
    MovedPathsDiffer(src, dst);
    map p | p in done :: MovedPath(p, src, dst) := MovedRecord(t[p], MovedPath(p, src, dst), now)
  }

  lemma UnderBeginsWith(src: string)
    requires src != "/"
    ensures forall p :: Under(p, src) ==> src <= p && p == src + p[|src|..]
  {
  }

  lemma MovedPathsDiffer(src: string, dst: string)
    requires src != "/"
    ensures forall p, q :: Under(p, src) && Under(q, src) && MovedPath(p, src, dst) == MovedPath(q, src, dst) ==> p == q
  {
    UnderBeginsWith(src);
    forall p, q | Under(p, src) && Under(q, src) && MovedPath(p, src, dst) == MovedPath(q, src, dst) ensures p == q {
      var m := MovedPath(p, src, dst);
      assert m[|dst|..] == p[|src|..] && m[|dst|..] == q[|src|..];
    }
  }

  function Affected(t: Table, src: string): set<string> {
    set p | p in t && Under(p, src)
  }

  /** The checks of `rename`, in order. */
  function RenameProblem(t: Table, src: string, dst: string): Option<Error> {
    if src == "/" then Some(InvalidPath)
    else if src == dst then None
    else if Under(dst, src) then Some(InvalidPath)
    else if src !in t then Some(NotFound)
    else if dst in t then Some(AlreadyExists)
    else if !HasDir(t, ParentOf(dst)) then Some(NotFound)
    else None
  }

  function FlatRename(t: Table, src: string, dst: string, now: int): Done {
    var problem := RenameProblem(t, src, dst);
    if problem.Some? || src == dst then Done(t, problem)
    else Done(MoveSome(t, Affected(t, src), src, dst, now), None)
  }

  function FlatRemove(t: Table, path: string, recursive: bool): Done {
    if path == "/" then Done(t, Some(InvalidPath))
    else if path !in t then Done(t, Some(NotFound))
    else if t[path].isDir then
      if Affected(t, path) != {path} && !recursive then Done(t, Some(NotEmpty))
      else Done(t - Affected(t, path), None)
    else Done(t - {path}, None)
  }

  /** A directory entry: name and whether it is a directory. */
  function FlatReadDir(t: Table, path: string): Result<set<(string, bool)>, Error> {
    if path != "/" && path !in t then Err(NotFound)
    else if path != "/" && !t[path].isDir then Err(NotDirectory)
    else Ok(set p | p in t && t[p].parent == path :: (BaseOf(t[p].path), t[p].isDir))
  }

  // ---------------------------------------------------------------- the tree a table stands for

  ghost predicate IsPathOf(p: string, segs: seq<string>) {
    segs != [] && AreNames(segs) && p == PathOf(segs)
  }

  /** The key `p` is the path of a non-empty list of names. */
  ghost predicate ProperKey(p: string) {
    exists segs :: IsPathOf(p, segs)
  }

  /** What the table has under the path of `segs` is what the tree shows there. */
  ghost predicate Matches(t: Table, tree: Node, segs: seq<string>)
    requires segs != []
  {
    var p := PathOf(segs);
    match Look(tree, segs)
    case Absent => p !in t
    case AFile(data) => p in t && !t[p].isDir && t[p].data == data && t[p].path == p
        && t[p].parent == PathOf(Parent(segs))
    case ADir => p in t && t[p].isDir && t[p].path == p && t[p].parent == PathOf(Parent(segs))
  }

  ghost predicate Represents(t: Table, tree: Node) {
    && tree.DirNode?
    && (forall p {:trigger ProperKey(p)} :: p in t ==> ProperKey(p))
    && (forall segs {:trigger Matches(t, tree, segs)} :: AreNames(segs) && segs != [] ==> Matches(t, tree, segs))
  }

  lemma ProperPath(segs: seq<string>)
    requires AreNames(segs) && segs != []
    ensures ProperKey(PathOf(segs)) && PathOf(segs) != "/" && SegmentsOf(PathOf(segs)) == segs
    ensures ParentOf(PathOf(segs)) == PathOf(Parent(segs)) && AreNames(Parent(segs))
  {
    SegmentsOfPath(segs);
    ParentAndBase(segs);
    assert IsPathOf(PathOf(segs), segs);
  }

  /** A parent directory exists in the table exactly if it does in the tree. */
  lemma HasDirIff(t: Table, tree: Node, segs: seq<string>)
    requires Represents(t, tree) && AreNames(segs)
    ensures HasDir(t, PathOf(segs)) <==> Look(tree, segs) == ADir
  {
    if segs != [] {
      ProperPath(segs);
      assert Matches(t, tree, segs);
    }
  }

  // ---------------------------------------------------------------- write

  lemma WriteRefines(t: Table, tree: Node, segs: seq<string>, data: Payload, now: int)
    requires Represents(t, tree) && AreNames(segs) && segs != []
    ensures var flat, nested := FlatWrite(t, PathOf(segs), data, now), TreeWrite(tree, segs, data);
            flat.error == nested.error && Represents(flat.table, nested.tree)
  {
    ProperPath(segs);
    HasDirIff(t, tree, Parent(segs));
    assert Matches(t, tree, segs);
    if TreeWrite(tree, segs, data).error.None? {
      PutRefines(t, tree, segs, FileNode(data), FlatWrite(t, PathOf(segs), data, now).table[PathOf(segs)]);
    }
  }

  /** Putting a record where no directory is corresponds to putting a leaf into the tree. */
  lemma PutRefines(t: Table, tree: Node, segs: seq<string>, leaf: Node, r: Record)
    requires Represents(t, tree) && AreNames(segs) && segs != []
    requires Look(tree, Parent(segs)) == ADir && Look(tree, segs) != ADir
    requires leaf.DirNode? ==> leaf.children == map[]
    requires r.path == PathOf(segs) && r.parent == PathOf(Parent(segs)) && r.isDir == leaf.DirNode?
    requires leaf.FileNode? ==> r.data == leaf.data
    ensures Represents(t[PathOf(segs) := r], PutAt(tree, segs, leaf))
  {
    var next := t[PathOf(segs) := r];
    ProperPath(segs);
    forall q {:trigger Matches(next, PutAt(tree, segs, leaf), q)} | AreNames(q) && q != []
      ensures Matches(next, PutAt(tree, segs, leaf), q)
    {
      PutMatches(t, tree, segs, leaf, r, q);
    }
  }

  lemma PutMatches(t: Table, tree: Node, segs: seq<string>, leaf: Node, r: Record, q: seq<string>)
    requires Represents(t, tree) && AreNames(segs) && segs != [] && AreNames(q) && q != []
    requires Look(tree, Parent(segs)) == ADir && Look(tree, segs) != ADir
    requires leaf.DirNode? ==> leaf.children == map[]
    requires r.path == PathOf(segs) && r.parent == PathOf(Parent(segs)) && r.isDir == leaf.DirNode?
    requires leaf.FileNode? ==> r.data == leaf.data
    ensures Matches(t[PathOf(segs) := r], PutAt(tree, segs, leaf), q)
  {
    LookPut(tree, segs, leaf, q);
    assert Matches(t, tree, q);
    if q == segs {
      assert q[|segs|..] == [];
    } else {
      if PathOf(q) == PathOf(segs) {
        PathOfInjective(q, segs);
      }
      if segs < q {
        NothingBelow(tree, segs, q);
      }
    }
  }

  // ---------------------------------------------------------------- mkdir

  lemma MakeDirRefines(t: Table, tree: Node, segs: seq<string>, now: int)
    requires Represents(t, tree) && AreNames(segs)
    ensures var flat, nested := FlatMkdir(t, PathOf(segs), false, now), TreeMakeDir(tree, segs);
            flat.error == nested.error && Represents(flat.table, nested.tree)
  {
    if segs != [] {
      ProperPath(segs);
      HasDirIff(t, tree, Parent(segs));
      assert Matches(t, tree, segs);
      if Look(tree, Parent(segs)) == ADir && Look(tree, segs) == Absent {
        PutRefines(t, tree, segs, DirNode(map[]), Record(PathOf(segs), PathOf(Parent(segs)), true, NO_DATA, now, now));
      }
    }
  }

  /** The entry at `q`: an existing one is unchanged, and prefixes of `segs` are directories. */
  ghost predicate PrefixMade(t: Table, next: Table, segs: seq<string>, q: seq<string>)
    requires q != []
  {
    var p := PathOf(q);
    && (p in t ==> p in next && next[p] == t[p])
    && (q <= segs ==> p in next && next[p].isDir && next[p].path == p && next[p].parent == PathOf(Parent(q)))
    && (!(q <= segs) && p in next ==> p in t)
  }

  ghost predicate PrefixesMade(t: Table, next: Table, segs: seq<string>) {
    && (forall q {:trigger PrefixMade(t, next, segs, q)} :: AreNames(q) && q != [] ==> PrefixMade(t, next, segs, q))
    && (forall p {:trigger ProperKey(p)} :: p in next ==> ProperKey(p))
  }

  ghost predicate FileInTheWay(tree: Node, segs: seq<string>, n: nat)
    requires n <= |segs|
  {
    exists k :: 0 <= k <= n && Look(tree, segs[..k]).AFile?
  }

  /** After `n` prefixes: all of them are directories, or a file among them stopped the loop at once. */
  lemma {:induction false} MakePrefixesEffect(t: Table, tree: Node, segs: seq<string>, n: nat, now: int)
    requires Represents(t, tree) && AreNames(segs) && n <= |segs|
    ensures var flat := MakePrefixes(t, segs, n, now);
            if FileInTheWay(tree, segs, n) then flat == Done(t, Some(AlreadyExists))
            else flat.error.None? && PrefixesMade(t, flat.table, segs[..n])
  {
    if n == 0 {
      assert segs[..0] == [];
    } else {
      MakePrefixesEffect(t, tree, segs, n - 1, now);
      if FileInTheWay(tree, segs, n - 1) {
        FileInTheWayStep(tree, segs, n);
      } else {
        NextPrefix(t, tree, MakePrefixes(t, segs, n - 1, now).table, segs, n, now);
      }
    }
  }

  lemma NextPrefix(t: Table, tree: Node, before: Table, segs: seq<string>, n: nat, now: int)
    requires Represents(t, tree) && AreNames(segs) && 0 < n <= |segs|
    requires PrefixesMade(t, before, segs[..n - 1]) && !FileInTheWay(tree, segs, n - 1)
    ensures var flat := MakeDir(before, Slashed(segs[..n]), now);
            if FileInTheWay(tree, segs, n) then flat == Done(t, Some(AlreadyExists))
            else flat.error.None? && PrefixesMade(t, flat.table, segs[..n])
  {
    var d := segs[..n];
    ProperPath(d);
    assert Parent(d) == segs[..n - 1];
    assert Matches(t, tree, d) && PrefixMade(t, before, segs[..n - 1], d);
    FileInTheWayStep(tree, segs, n);
    if Look(tree, d).AFile? {
      NothingMadeYet(t, tree, before, segs, n);
    } else {
      OnePrefixMade(t, before, segs, n, now);
    }
  }

  lemma FileInTheWayStep(tree: Node, segs: seq<string>, n: nat)
    requires 0 < n <= |segs|
    ensures FileInTheWay(tree, segs, n) <==> FileInTheWay(tree, segs, n - 1) || Look(tree, segs[..n]).AFile?
  {
  }

  /** If the next prefix is a file, the shorter ones existed already. */
  lemma NothingMadeYet(t: Table, tree: Node, before: Table, segs: seq<string>, n: nat)
    requires Represents(t, tree) && 0 < n <= |segs|
    requires PrefixesMade(t, before, segs[..n - 1]) && Look(tree, segs[..n]).AFile?
    ensures before == t
  {
    forall p ensures p in before ==> p in t {
      if p in before {
        assert ProperKey(p);
        var q :| IsPathOf(p, q);
        assert PrefixMade(t, before, segs[..n - 1], q) && Matches(t, tree, q);
        if q <= segs[..n - 1] && Look(tree, q) != ADir {
          NothingBelow(tree, q, segs[..n]);
        }
      }
    }
    forall p | p in t ensures p in before && before[p] == t[p] {
      assert ProperKey(p);
      var q :| IsPathOf(p, q);
      assert PrefixMade(t, before, segs[..n - 1], q);
    }
  }

  lemma OnePrefixMade(t: Table, before: Table, segs: seq<string>, n: nat, now: int)
    requires AreNames(segs) && 0 < n <= |segs| && PrefixesMade(t, before, segs[..n - 1])
    requires var p := PathOf(segs[..n]); p in before ==>
               before[p].isDir && before[p].path == p && before[p].parent == PathOf(segs[..n - 1])
    ensures var flat := MakeDir(before, PathOf(segs[..n]), now);
            flat.error.None? && PrefixesMade(t, flat.table, segs[..n])
  {
    var d := segs[..n];
    var next := MakeDir(before, PathOf(d), now).table;
    ProperPath(d);
    assert Parent(d) == segs[..n - 1];
    forall q | AreNames(q) && q != [] ensures PrefixMade(t, next, d, q) {
      assert PrefixMade(t, before, segs[..n - 1], q);
      if q != d {
        if PathOf(q) == PathOf(d) {
          PathOfInjective(q, d);
        }
        assert q <= d <==> q <= segs[..n - 1];
      }
    }
  }

  lemma MkdirRecursiveRefines(t: Table, tree: Node, segs: seq<string>, now: int)
    requires Represents(t, tree) && AreNames(segs)
    ensures var flat, nested := FlatMkdir(t, PathOf(segs), true, now), TreeMakeDirs(tree, segs);
            flat.error == nested.error && Represents(flat.table, nested.tree)
  {
    LookMakeDirs(tree, segs);
    if segs != [] {
      ProperPath(segs);
      MakePrefixesEffect(t, tree, segs, |segs|, now);
      assert segs[..|segs|] == segs;
      if !FileInTheWay(tree, segs, |segs|) {
        var next, made := MakePrefixes(t, segs, |segs|, now).table, MakeDirs(tree, segs).value;
        forall q | AreNames(q) && q != [] ensures Matches(next, made, q) {
          LookMadeDirs(tree, segs, q);
          assert Matches(t, tree, q) && PrefixMade(t, next, segs, q);
        }
      }
    }
  }

  // ---------------------------------------------------------------- rename

  lemma MovedPathOf(ss: seq<string>, ds: seq<string>, r: seq<string>)
    requires ss != [] && ds != []
    ensures MovedPath(PathOf(ss + r), PathOf(ss), PathOf(ds)) == PathOf(ds + r)
  {
    SlashedConcat(ss, r);
    SlashedConcat(ds, r);
  }

  /** A key is affected exactly if it is the path of `ss` or of something below it. */
  lemma AffectedIff(t: Table, tree: Node, ss: seq<string>, q: seq<string>)
    requires Represents(t, tree) && AreNames(ss) && AreNames(q) && q != []
    ensures PathOf(q) in Affected(t, PathOf(ss)) <==> ss <= q && Look(tree, q) != Absent
  {
    UnderIffPrefix(q, ss);
    assert Matches(t, tree, q);
  }

  /** A moved record lands under `ds` with the rest of its names unchanged. */
  lemma MovedFrom(t: Table, tree: Node, ss: seq<string>, ds: seq<string>, p: string) returns (r: seq<string>)
    requires Represents(t, tree) && AreNames(ss) && ss != [] && ds != []
    requires p in Affected(t, PathOf(ss))
    ensures AreNames(ss + r) && p == PathOf(ss + r) && MovedPath(p, PathOf(ss), PathOf(ds)) == PathOf(ds + r)
  {
    assert ProperKey(p);
    var q :| IsPathOf(p, q);
    AffectedIff(t, tree, ss, q);
    r := q[|ss|..];
    assert q == ss + r;
    MovedPathOf(ss, ds, r);
  }

  /** The two ways a key gets into the table after the move. */
  lemma MoveSomeKeys(t: Table, done: set<string>, src: string, dst: string, now: int)
    requires src != "/" && forall p :: p in done ==> p in t && Under(p, src)
    ensures var next := MoveSome(t, done, src, dst, now);
            && (forall a :: a in done ==>
                  MovedPath(a, src, dst) in next &&
                  next[MovedPath(a, src, dst)] == MovedRecord(t[a], MovedPath(a, src, dst), now))
            && (forall p :: p in next && (p in done || p !in t) ==>
                exists a :: a in done && MovedPath(a, src, dst) == p)
            && (forall p :: p in t && p !in done ==> p in next)
            && (forall p :: p in t && p !in done && next[p] != t[p] ==>
                exists a :: a in done && MovedPath(a, src, dst) == p)
  {
    MovedPathsDiffer(src, dst);
  }

  lemma MovedMatches(t: Table, tree: Node, ss: seq<string>, ds: seq<string>, now: int, r: seq<string>)
    requires Represents(t, tree) && AreNames(ss) && AreNames(ds) && AreNames(r)
    requires PathOf(ss) != "/" && Look(tree, ds) == Absent
    ensures var next, p := MoveSome(t, Affected(t, PathOf(ss)), PathOf(ss), PathOf(ds), now), PathOf(ds + r);
            if Look(tree, ss + r) != Absent
            then PathOf(ss + r) in t && p in next && next[p] == MovedRecord(t[PathOf(ss + r)], p, now)
            else p !in next
  {
    var src, dst, p := PathOf(ss), PathOf(ds), PathOf(ds + r);
    MoveSomeKeys(t, Affected(t, src), src, dst, now);
    AffectedIff(t, tree, ss, ss + r);
    MovedPathOf(ss, ds, r);
    NothingAt(t, tree, ds, r);
    if Look(tree, ss + r) == Absent {
      NothingMovedTo(t, tree, ss, ds, r);
    }
  }

  lemma NothingMovedTo(t: Table, tree: Node, ss: seq<string>, ds: seq<string>, r: seq<string>)
    requires Represents(t, tree) && AreNames(ss) && AreNames(ds) && ss != [] && ds != [] && AreNames(r)
    requires Look(tree, ss + r) == Absent
    ensures forall a :: a in Affected(t, PathOf(ss)) ==> MovedPath(a, PathOf(ss), PathOf(ds)) != PathOf(ds + r)
  {
    forall a | a in Affected(t, PathOf(ss)) ensures MovedPath(a, PathOf(ss), PathOf(ds)) != PathOf(ds + r) {
      var r' := MovedFrom(t, tree, ss, ds, a);
      if PathOf(ds + r') == PathOf(ds + r) {
        MovedTailUnique(ss, ds, r, r');
        AffectedIff(t, tree, ss, ss + r);
      }
    }
  }

  lemma NothingAt(t: Table, tree: Node, ds: seq<string>, r: seq<string>)
    requires Represents(t, tree) && AreNames(ds) && AreNames(r) && Look(tree, ds) == Absent
    ensures PathOf(ds + r) !in t
  {
    assert Matches(t, tree, ds + r);
    if r != [] {
      NothingBelow(tree, ds, ds + r);
    } else {
      assert ds + r == ds;
    }
  }

  lemma MovedTailUnique(ss: seq<string>, ds: seq<string>, r: seq<string>, r': seq<string>)
    requires AreNames(ds + r) && AreNames(ss + r') && AreNames(ds) && PathOf(ds + r) == PathOf(ds + r')
    ensures r == r'
  {
    assert AreNames(ds + r') by {
      forall i | 0 <= i < |ds + r'| ensures IsName((ds + r')[i]) {
        if i < |ds| { assert (ds + r')[i] == ds[i]; } else { assert (ds + r')[i] == (ss + r')[i - |ds| + |ss|]; }
      }
    }
    PathOfInjective(ds + r, ds + r');
    assert (ds + r)[|ds|..] == r && (ds + r')[|ds|..] == r';
  }

  lemma UnmovedMatches(t: Table, tree: Node, ss: seq<string>, ds: seq<string>, now: int, q: seq<string>)
    requires Represents(t, tree) && AreNames(ss) && AreNames(ds) && ss != []
    requires AreNames(q) && q != [] && !(ds <= q)
    ensures var next, p := MoveSome(t, Affected(t, PathOf(ss)), PathOf(ss), PathOf(ds), now), PathOf(q);
            if ss <= q then p !in next else (p in next <==> p in t) && (p in t ==> next[p] == t[p])
  {
    var src, dst, p := PathOf(ss), PathOf(ds), PathOf(q);
    ProperPath(ss);
    MoveSomeKeys(t, Affected(t, src), src, dst, now);
    AffectedIff(t, tree, ss, q);
    assert Matches(t, tree, q);
    forall a | a in Affected(t, src) ensures MovedPath(a, src, dst) != p {
      var r := MovedFrom(t, tree, ss, ds, a);
      if PathOf(ds + r) == p {
        TailNames(ss, ds, r);
        PathOfInjective(ds + r, q);
      }
    }
  }

  lemma TailNames(ss: seq<string>, ds: seq<string>, r: seq<string>)
    requires AreNames(ss + r) && AreNames(ds)
    ensures AreNames(r) && AreNames(ds + r)
  {
    forall i | 0 <= i < |r| ensures IsName(r[i]) {
      assert (ss + r)[|ss| + i] == r[i];
    }
  }

  ghost predicate Movable(tree: Node, ss: seq<string>, ds: seq<string>) {
    && AreNames(ss) && AreNames(ds) && ss != [] && ds != []
    && Look(tree, ss) != Absent && Look(tree, ds) == Absent && !(ss <= ds)
    && Look(tree, Parent(ds)) == ADir
  }

  lemma LookMoved(tree: Node, ss: seq<string>, ds: seq<string>, q: seq<string>)
    requires Movable(tree, ss, ds)
    ensures TreeRename(tree, ss, ds).error.None?
    ensures Look(TreeRename(tree, ss, ds).tree, q) ==
            if ds <= q then Look(tree, ss + q[|ds|..]) else if ss <= q then Absent else Look(tree, q)
  {
    var sub := Find(tree, ss).value;
    LookCut(tree, ss, Parent(ds));
    LookPut(CutAt(tree, ss), ds, sub, q);
    LookCut(tree, ss, q);
    if ds <= q {
      FindConcat(tree, ss, q[|ds|..]);
    }
  }

  lemma MoveMatchesAt(t: Table, tree: Node, ss: seq<string>, ds: seq<string>, now: int, q: seq<string>)
    requires Represents(t, tree) && Movable(tree, ss, ds) && AreNames(q) && q != []
    ensures TreeRename(tree, ss, ds).error.None?
    ensures Matches(MoveSome(t, Affected(t, PathOf(ss)), PathOf(ss), PathOf(ds), now), TreeRename(tree, ss, ds).tree, q)
  {
    LookMoved(tree, ss, ds, q);
    if ds <= q {
      var r := q[|ds|..];
      assert q == ds + r;
      MovedMatches(t, tree, ss, ds, now, r);
      if Look(tree, ss + r) != Absent {
        MovedRecordFits(t, tree, ss + r, q, now);
      }
    } else {
      UnmovedMatches(t, tree, ss, ds, now, q);
      assert Matches(t, tree, q);
    }
  }

  lemma MovedRecordFits(t: Table, tree: Node, from: seq<string>, q: seq<string>, now: int)
    requires Represents(t, tree) && AreNames(from) && from != [] && AreNames(q) && q != [] && PathOf(from) in t
    ensures var m := MovedRecord(t[PathOf(from)], PathOf(q), now);
            && m.path == PathOf(q) && m.parent == PathOf(Parent(q))
            && (if m.isDir then Look(tree, from) == ADir else Look(tree, from) == AFile(m.data))
  {
    assert Matches(t, tree, from);
    ParentAndBase(q);
  }

  lemma MovedKeysProper(t: Table, tree: Node, ss: seq<string>, ds: seq<string>, now: int, p: string)
    requires Represents(t, tree) && Movable(tree, ss, ds)
    requires p in MoveSome(t, Affected(t, PathOf(ss)), PathOf(ss), PathOf(ds), now)
    ensures ProperKey(p)
  {
    MoveSomeKeys(t, Affected(t, PathOf(ss)), PathOf(ss), PathOf(ds), now);
    if p !in t || p in Affected(t, PathOf(ss)) {
      var a :| a in Affected(t, PathOf(ss)) && MovedPath(a, PathOf(ss), PathOf(ds)) == p;
      var r := MovedFrom(t, tree, ss, ds, a);
      TailNames(ss, ds, r);
      ProperPath(ds + r);
    }
  }

  /** The moved records are the moved subtree: nothing else changes and no record is left behind. */
  lemma MoveRefines(t: Table, tree: Node, ss: seq<string>, ds: seq<string>, now: int)
    requires Represents(t, tree) && Movable(tree, ss, ds)
    ensures TreeRename(tree, ss, ds).error.None?
    ensures Represents(MoveSome(t, Affected(t, PathOf(ss)), PathOf(ss), PathOf(ds), now), TreeRename(tree, ss, ds).tree)
  {
    LookMoved(tree, ss, ds, []);
    var next := MoveSome(t, Affected(t, PathOf(ss)), PathOf(ss), PathOf(ds), now);
    forall q | AreNames(q) && q != [] ensures Matches(next, TreeRename(tree, ss, ds).tree, q) {
      MoveMatchesAt(t, tree, ss, ds, now, q);
    }
    forall p | p in next ensures ProperKey(p) {
      MovedKeysProper(t, tree, ss, ds, now, p);
    }
  }

  lemma RenameRefines(t: Table, tree: Node, ss: seq<string>, ds: seq<string>, now: int)
    requires Represents(t, tree) && AreNames(ss) && AreNames(ds) && ds != []
    ensures var flat, nested := FlatRename(t, PathOf(ss), PathOf(ds), now), TreeRename(tree, ss, ds);
            flat.error == nested.error && Represents(flat.table, nested.tree)
  {
    if ss != [] {
      RenameProblemIff(t, tree, ss, ds);
      if RenameProblem(t, PathOf(ss), PathOf(ds)).None? && ss != ds {
        MoveRefines(t, tree, ss, ds, now);
      }
    }
  }

  lemma RenameProblemIff(t: Table, tree: Node, ss: seq<string>, ds: seq<string>)
    requires Represents(t, tree) && AreNames(ss) && AreNames(ds) && ds != [] && ss != []
    ensures PathOf(ss) != "/" && (PathOf(ss) == PathOf(ds) <==> ss == ds)
    ensures RenameProblem(t, PathOf(ss), PathOf(ds)) == TreeRenameProblem(tree, ss, ds)
    ensures RenameProblem(t, PathOf(ss), PathOf(ds)).None? ==> ss == ds || Movable(tree, ss, ds)
  {
    SourcePath(ss, ds);
    DestinationPath(ss, ds);
    PresentIff(t, tree, ss);
    PresentIff(t, tree, ds);
    HasDirIff(t, tree, Parent(ds));
  }

  lemma PresentIff(t: Table, tree: Node, segs: seq<string>)
    requires Represents(t, tree) && AreNames(segs) && segs != []
    ensures PathOf(segs) in t <==> Look(tree, segs) != Absent
  {
    assert Matches(t, tree, segs);
  }

  lemma DestinationPath(ss: seq<string>, ds: seq<string>)
    requires AreNames(ss) && AreNames(ds) && ds != []
    ensures ParentOf(PathOf(ds)) == PathOf(Parent(ds)) && AreNames(Parent(ds))
    ensures Under(PathOf(ds), PathOf(ss)) <==> ss <= ds
  {
    ProperPath(ds);
    UnderIffPrefix(ds, ss);
  }

  lemma SourcePath(ss: seq<string>, ds: seq<string>)
    requires AreNames(ss) && AreNames(ds) && ss != []
    ensures PathOf(ss) != "/" && (PathOf(ss) == PathOf(ds) <==> ss == ds)
  {
    ProperPath(ss);
    if PathOf(ss) == PathOf(ds) {
      PathOfInjective(ss, ds);
    }
  }

  // ---------------------------------------------------------------- remove and list

  /** A directory has children exactly if the table has other records under it. */
  lemma EmptyDirIff(t: Table, tree: Node, segs: seq<string>)
    requires Represents(t, tree) && AreNames(segs) && segs != [] && Look(tree, segs) == ADir
    requires AllNames(tree)
    ensures Find(tree, segs).value.children == map[] <==> Affected(t, PathOf(segs)) == {PathOf(segs)}
  {
    var dir := Find(tree, segs).value;
    AffectedIff(t, tree, segs, segs);
    if name :| name in dir.children {
      var q := segs + [name];
      FindConcat(tree, segs, [name]);
      AllNamesAt(tree, segs);
      AffectedIff(t, tree, segs, q);
      if PathOf(q) == PathOf(segs) {
        PathOfInjective(q, segs);
      }
    } else {
      forall p | p in Affected(t, PathOf(segs)) ensures p == PathOf(segs) {
        assert ProperKey(p);
        var q :| IsPathOf(p, q);
        AffectedIff(t, tree, segs, q);
        if segs != q {
          var rest := q[|segs|..];
          assert q == segs + rest;
          FindConcat(tree, segs, rest);
        }
      }
    }
  }

  lemma RemoveRefines(t: Table, tree: Node, segs: seq<string>, recursive: bool)
    requires Represents(t, tree) && AllNames(tree) && AreNames(segs)
    ensures var flat, nested := FlatRemove(t, PathOf(segs), recursive), TreeRemove(tree, segs, recursive);
            flat.error == nested.error && Represents(flat.table, nested.tree)
  {
    if segs != [] {
      ProperPath(segs);
      assert Matches(t, tree, segs);
      if Look(tree, segs) == ADir {
        EmptyDirIff(t, tree, segs);
      }
      if TreeRemove(tree, segs, recursive).error.None? {
        RemoveMatches(t, tree, segs, FlatRemove(t, PathOf(segs), recursive).table);
      }
    }
  }

  lemma RemoveMatches(t: Table, tree: Node, segs: seq<string>, next: Table)
    requires Represents(t, tree) && AreNames(segs) && segs != [] && Find(tree, segs).Some?
    requires next == t - if Look(tree, segs) == ADir then Affected(t, PathOf(segs)) else {PathOf(segs)}
    ensures Represents(next, CutAt(tree, segs))
  {
    forall q | AreNames(q) && q != [] ensures Matches(next, CutAt(tree, segs), q) {
      LookCut(tree, segs, q);
      RemovedIff(t, tree, segs, next, q);
      assert Matches(t, tree, q);
    }
    forall p | p in next ensures ProperKey(p) {
      assert p in t;
    }
  }

  lemma RemovedIff(t: Table, tree: Node, segs: seq<string>, next: Table, q: seq<string>)
    requires Represents(t, tree) && AreNames(segs)
    requires next == t - if Look(tree, segs) == ADir then Affected(t, PathOf(segs)) else {PathOf(segs)}
    requires AreNames(q) && q != []
    ensures PathOf(q) in next <==> PathOf(q) in t && !(segs <= q)
  {
    AffectedIff(t, tree, segs, q);
    assert Matches(t, tree, q);
    if q != segs {
      if PathOf(q) == PathOf(segs) {
        PathOfInjective(q, segs);
      }
      if segs <= q && Look(tree, segs) != ADir {
        NothingBelow(tree, segs, q);
      }
    }
  }
}
