/** Sequences of operations: the record table behaves like the directory tree it stands for. */
module FsRefinement {
  import opened Options
  import opened Paths
  import opened DirTree
  import opened FlatTable

  datatype FsOp =
    | WriteFile(path: string, data: Payload)
    | Mkdir(path: string, recursive: bool)
    | Rename(from: string, to: string)
    | Remove(path: string, recursive: bool)

  /** One call on the table; `now` is the clock reading. */
  function FlatStep(t: Table, op: FsOp, now: int): Done {
    match op
    case WriteFile(path, data) =>
      (match NormalizePath(path) case Ok(p) => FlatWrite(t, p, data, now) case Err(e) => Done(t, Some(e)))
    case Mkdir(path, recursive) =>
      (match NormalizePath(path) case Ok(p) => FlatMkdir(t, p, recursive, now) case Err(e) => Done(t, Some(e)))
    case Rename(from, to) =>
      (match (NormalizePath(from), NormalizePath(to))
       case (Ok(src), Ok(dst)) => FlatRename(t, src, dst, now)
       case (Err(e), _) => Done(t, Some(e))
       case (_, Err(e)) => Done(t, Some(e)))
    case Remove(path, recursive) =>
      (match NormalizePath(path) case Ok(p) => FlatRemove(t, p, recursive) case Err(e) => Done(t, Some(e)))
  }

  /** The target of a write or a rename is not the root directory. */
  predicate NonRootTarget(op: FsOp) {
    match op
    case WriteFile(path, _) => NormalizePath(path) != Ok("/")
    case Rename(_, to) => NormalizePath(to) != Ok("/")
    case _ => true
  }

  /** The same call on the tree. */
  function TreeStep(tree: Node, op: FsOp): TreeDone
    requires NonRootTarget(op)
  {
    match op
    case WriteFile(path, data) =>
      (match PathSegments(path)
       case Ok(segs) => if segs == [] then TreeDone(tree, None) else TreeWrite(tree, segs, data)
       case Err(e) => TreeDone(tree, Some(e)))
    case Mkdir(path, recursive) =>
      (match PathSegments(path)
       case Ok(segs) => if recursive then TreeMakeDirs(tree, segs) else TreeMakeDir(tree, segs)
       case Err(e) => TreeDone(tree, Some(e)))
    case Rename(from, to) =>
      (match (PathSegments(from), PathSegments(to))
       case (Ok(src), Ok(dst)) => if dst == [] then TreeDone(tree, None) else TreeRename(tree, src, dst)
       case (Err(e), _) => TreeDone(tree, Some(e))
       case (_, Err(e)) => TreeDone(tree, Some(e)))
    case Remove(path, recursive) =>
      (match PathSegments(path)
       case Ok(segs) => TreeRemove(tree, segs, recursive)
       case Err(e) => TreeDone(tree, Some(e)))
  }

  lemma Normalized(path: string) returns (segs: seq<string>)
    requires NormalizePath(path).Ok?
    ensures AreNames(segs) && NormalizePath(path) == Ok(PathOf(segs)) && PathSegments(path) == Ok(segs)
    ensures PathOf(segs) == "/" <==> segs == []
  {
    segs := NormalizeIdempotent(path);
    SegmentsOfPath(segs);
  }

  /** The two results report the same, and table and tree correspond again. */
  ghost predicate Agree(flat: Done, nested: TreeDone) {
    flat.error == nested.error && Represents(flat.table, nested.tree) && AllNames(nested.tree)
  }

  lemma WriteAgrees(t: Table, tree: Node, path: string, data: Payload, now: int)
    requires Represents(t, tree) && AllNames(tree) && NonRootTarget(WriteFile(path, data))
    ensures Agree(FlatStep(t, WriteFile(path, data), now), TreeStep(tree, WriteFile(path, data)))
  {
    if NormalizePath(path).Ok? {
      var segs := Normalized(path);
      WriteRefines(t, tree, segs, data, now);
      if TreeWrite(tree, segs, data).error.None? { AllNamesPut(tree, segs, FileNode(data)); }
    }
  }

  lemma MkdirAgrees(t: Table, tree: Node, path: string, recursive: bool, now: int)
    requires Represents(t, tree) && AllNames(tree)
    ensures Agree(FlatStep(t, Mkdir(path, recursive), now), TreeStep(tree, Mkdir(path, recursive)))
  {
    if NormalizePath(path).Ok? {
      var segs := Normalized(path);
      if recursive {
        MakeDirsAgrees(t, tree, segs, now);
      } else {
        MakeDirAgrees(t, tree, segs, now);
      }
    }
  }

  lemma MakeDirsAgrees(t: Table, tree: Node, segs: seq<string>, now: int)
    requires Represents(t, tree) && AllNames(tree) && AreNames(segs)
    ensures Agree(FlatMkdir(t, PathOf(segs), true, now), TreeMakeDirs(tree, segs))
  {
    MkdirRecursiveRefines(t, tree, segs, now);
    if MakeDirs(tree, segs).Some? {
      AllNamesMakeDirs(tree, segs);
    }
  }

  lemma MakeDirAgrees(t: Table, tree: Node, segs: seq<string>, now: int)
    requires Represents(t, tree) && AllNames(tree) && AreNames(segs)
    ensures Agree(FlatMkdir(t, PathOf(segs), false, now), TreeMakeDir(tree, segs))
  {
    MakeDirRefines(t, tree, segs, now);
    if segs != [] && Look(tree, Parent(segs)) == ADir {
      AllNamesPut(tree, segs, DirNode(map[]));
    }
  }

  lemma RenameAgrees(t: Table, tree: Node, from: string, to: string, now: int)
    requires Represents(t, tree) && AllNames(tree) && NonRootTarget(Rename(from, to))
    ensures Agree(FlatStep(t, Rename(from, to), now), TreeStep(tree, Rename(from, to)))
  {
    if NormalizePath(from).Ok? && NormalizePath(to).Ok? {
      var src := Normalized(from);
      var dst := Normalized(to);
      RenameRefines(t, tree, src, dst, now);
      RenameAllNames(tree, src, dst);
    }
  }

  lemma RemoveAgrees(t: Table, tree: Node, path: string, recursive: bool, now: int)
    requires Represents(t, tree) && AllNames(tree)
    ensures Agree(FlatStep(t, Remove(path, recursive), now), TreeStep(tree, Remove(path, recursive)))
  {
    if NormalizePath(path).Ok? {
      var segs := Normalized(path);
      RemoveRefines(t, tree, segs, recursive);
      if TreeRemove(tree, segs, recursive).error.None? { AllNamesCut(tree, segs); }
    }
  }

  /** Every call, failing ones included, reports the same and leaves table and tree in correspondence. */
  lemma StepRefines(t: Table, tree: Node, op: FsOp, now: int)
    requires Represents(t, tree) && AllNames(tree) && NonRootTarget(op)
    ensures Agree(FlatStep(t, op, now), TreeStep(tree, op))
  {
    match op
    case WriteFile(path, data) => WriteAgrees(t, tree, path, data, now);
    case Mkdir(path, recursive) => MkdirAgrees(t, tree, path, recursive, now);
    case Rename(from, to) => RenameAgrees(t, tree, from, to, now);
    case Remove(path, recursive) => RemoveAgrees(t, tree, path, recursive, now);
  }

  /** The table stands for some directory tree. */
  ghost predicate HoldsTree(t: Table) {
    exists tree :: Represents(t, tree) && AllNames(tree)
  }

  lemma StepKeepsTree(t: Table, op: FsOp, now: int)
    requires HoldsTree(t) && NonRootTarget(op)
    ensures HoldsTree(FlatStep(t, op, now).table)
  {
    var tree :| Represents(t, tree) && AllNames(tree);
    StepRefines(t, tree, op, now);
  }

  lemma RenameAllNames(tree: Node, src: seq<string>, dst: seq<string>)
    requires AllNames(tree) && AreNames(dst) && dst != []
    ensures AllNames(TreeRename(tree, src, dst).tree)
  {
    if TreeRenameProblem(tree, src, dst).None? && src != dst {
      LookCut(tree, src, Parent(dst));
      AllNamesCut(tree, src);
      AllNamesAt(tree, src);
      AllNamesPut(CutAt(tree, src), dst, Find(tree, src).value);
    }
  }

  // ---------------------------------------------------------------- runs

  /** The table after a sequence of calls with their clock readings, and the error of each call. */
  function RunFlat(t: Table, ops: seq<(FsOp, int)>): (Table, seq<Option<Error>>)
    decreases |ops|
  {
    if ops == [] then (t, [])
    else
      var done := FlatStep(t, ops[0].0, ops[0].1);
      var (end, errors) := RunFlat(done.table, ops[1..]);
      (end, [done.error] + errors)
  }

  function RunTree(tree: Node, ops: seq<(FsOp, int)>): (Node, seq<Option<Error>>)
    requires forall i :: 0 <= i < |ops| ==> NonRootTarget(ops[i].0)
    decreases |ops|
  {
    if ops == [] then (tree, [])
    else
      var done := TreeStep(tree, ops[0].0);
      var (end, errors) := RunTree(done.tree, ops[1..]);
      (end, [done.error] + errors)
  }

  lemma {:induction false} RunRefines(t: Table, tree: Node, ops: seq<(FsOp, int)>)
    requires Represents(t, tree) && AllNames(tree)
    requires forall i :: 0 <= i < |ops| ==> NonRootTarget(ops[i].0)
    ensures RunFlat(t, ops).1 == RunTree(tree, ops).1
    ensures Represents(RunFlat(t, ops).0, RunTree(tree, ops).0) && AllNames(RunTree(tree, ops).0)
    decreases |ops|
  {
    if ops != [] {
      StepRefines(t, tree, ops[0].0, ops[0].1);
      RunRefines(FlatStep(t, ops[0].0, ops[0].1).table, TreeStep(tree, ops[0].0).tree, ops[1..]);
    }
  }

  /** From the empty table on, every sequence of calls is a sequence of calls on a directory tree. */
  lemma TableBehavesLikeTree(ops: seq<(FsOp, int)>)
    requires forall i :: 0 <= i < |ops| ==> NonRootTarget(ops[i].0)
    ensures RunFlat(map[], ops).1 == RunTree(DirNode(map[]), ops).1
    ensures Represents(RunFlat(map[], ops).0, RunTree(DirNode(map[]), ops).0)
  {
    RunRefines(map[], DirNode(map[]), ops);
  }

  // ---------------------------------------------------------------- listing

  function TreeReadDir(tree: Node, segs: seq<string>): Result<set<(string, bool)>, Error> {
    match Find(tree, segs)
    case None => Err(NotFound)
    case Some(FileNode(_)) => Err(NotDirectory)
    case Some(DirNode(children)) => Ok(set name | name in children :: (name, children[name].DirNode?))
  }

  /** Listing by the parent index gives exactly the children of the directory in the tree. */
  lemma ReadDirRefines(t: Table, tree: Node, segs: seq<string>)
    requires Represents(t, tree) && AllNames(tree) && AreNames(segs)
    ensures FlatReadDir(t, PathOf(segs)) == TreeReadDir(tree, segs)
  {
    HasDirIff(t, tree, segs);
    if segs != [] {
      ProperPath(segs);
      assert Matches(t, tree, segs);
    }
    if Look(tree, segs) == ADir {
      var path, children := PathOf(segs), Find(tree, segs).value.children;
      var flat, nested := FlatReadDir(t, path).value, TreeReadDir(tree, segs).value;
      forall e | e in flat ensures e in nested {
        var p :| p in t && t[p].parent == path && e == (BaseOf(t[p].path), t[p].isDir);
        ListedIsChild(t, tree, segs, p);
      }
      forall name | name in children ensures (name, children[name].DirNode?) in flat {
        ChildIsListed(t, tree, segs, name);
      }
      assert flat == nested;
    }
  }

  lemma ListedIsChild(t: Table, tree: Node, segs: seq<string>, p: string)
    requires Represents(t, tree) && AreNames(segs) && Look(tree, segs) == ADir
    requires p in t && t[p].parent == PathOf(segs)
    ensures var children, name := Find(tree, segs).value.children, BaseOf(t[p].path);
            name in children && children[name].DirNode? == t[p].isDir
  {
    assert ProperKey(p);
    var q :| IsPathOf(p, q);
    RecordAt(t, tree, q);
    PathOfInjective(Parent(q), segs);
    FindLast(tree, q);
  }

  lemma RecordAt(t: Table, tree: Node, q: seq<string>)
    requires Represents(t, tree) && AreNames(q) && q != [] && PathOf(q) in t
    ensures var r := t[PathOf(q)];
            && r.parent == PathOf(Parent(q)) && BaseOf(r.path) == q[|q| - 1] && AreNames(Parent(q))
            && Look(tree, q) != Absent && (r.isDir <==> Look(tree, q) == ADir)
  {
    assert Matches(t, tree, q);
    ParentAndBase(q);
  }

  lemma FindLast(tree: Node, q: seq<string>)
    requires q != [] && Look(tree, Parent(q)) == ADir
    ensures var children, name := Find(tree, Parent(q)).value.children, q[|q| - 1];
            Find(tree, q) == if name in children then Some(children[name]) else None
  {
    assert q == Parent(q) + [q[|q| - 1]];
    FindConcat(tree, Parent(q), [q[|q| - 1]]);
  }

  lemma ChildIsListed(t: Table, tree: Node, segs: seq<string>, name: string)
    requires Represents(t, tree) && AllNames(tree) && AreNames(segs) && Look(tree, segs) == ADir
    requires name in Find(tree, segs).value.children
    ensures var p, child := PathOf(segs + [name]), Find(tree, segs).value.children[name];
            p in t && t[p].parent == PathOf(segs) && BaseOf(t[p].path) == name && t[p].isDir == child.DirNode?
  {
    var q := segs + [name];
    AllNamesAt(tree, segs);
    FindConcat(tree, segs, [name]);
    assert Matches(t, tree, q) && Parent(q) == segs;
    ParentAndBase(q);
  }

  // ---------------------------------------------------------------- the root directory as a target

  lemma RootIsNoKey(t: Table, tree: Node)
    requires Represents(t, tree)
    ensures "/" !in t
  {
    if "/" in t {
      assert ProperKey("/");
      var q :| IsPathOf("/", q);
      ProperPath(q);
    }
  }

  /** A write leaves a table that stands for a tree if and only if its target is not the root. */
  lemma WriteKeepsTreeIff(t: Table, tree: Node, segs: seq<string>, data: Payload, now: int)
    requires Represents(t, tree) && AreNames(segs)
    ensures (exists tree' :: Represents(FlatWrite(t, PathOf(segs), data, now).table, tree')) <==> segs != []
  {
    if segs != [] {
      WriteRefines(t, tree, segs, data, now);
    } else {
      RootIsNoKey(t, tree);
      ParentOfRoot();
      var next := FlatWrite(t, "/", data, now).table;
      assert "/" in next;
      forall tree' | Represents(next, tree') ensures false {
        RootIsNoKey(next, tree');
      }
    }
  }

  /** The same for a rename that moves something. */
  lemma RenameKeepsTreeIff(t: Table, tree: Node, ss: seq<string>, ds: seq<string>, now: int)
    requires Represents(t, tree) && AreNames(ss) && AreNames(ds)
    requires FlatRename(t, PathOf(ss), PathOf(ds), now).error.None?
    ensures (exists tree' :: Represents(FlatRename(t, PathOf(ss), PathOf(ds), now).table, tree')) <==> ds != []
  {
    if ds != [] {
      RenameRefines(t, tree, ss, ds, now);
    } else {
      ProperPath(ss);
      var src, next := PathOf(ss), FlatRename(t, PathOf(ss), "/", now).table;
      MoveSomeKeys(t, Affected(t, src), src, "/", now);
      assert src in Affected(t, src) && MovedPath(src, src, "/") == "/";
      forall tree' | Represents(next, tree') ensures false {
        RootIsNoKey(next, tree');
      }
    }
  }

  /** Writing to the root always succeeds, and then the table stands for no tree. */
  lemma RootWriteSucceeds(t: Table, tree: Node, data: Payload, now: int)
    requires Represents(t, tree)
    ensures FlatWrite(t, "/", data, now).error.None?
    ensures forall tree' :: !Represents(FlatWrite(t, "/", data, now).table, tree')
  {
    RootIsNoKey(t, tree);
    ParentOfRoot();
    PathOfNormalizes([]);
    WriteKeepsTreeIff(t, tree, [], data, now);
  }

  /** Renaming to the root succeeds exactly for what exists, and then the table stands for no tree. */
  lemma RootRenameSucceedsIff(t: Table, tree: Node, ss: seq<string>, now: int)
    requires Represents(t, tree) && AreNames(ss) && ss != []
    ensures FlatRename(t, PathOf(ss), "/", now).error.None? <==> Look(tree, ss) != Absent
    ensures Look(tree, ss) != Absent ==> forall tree' :: !Represents(FlatRename(t, PathOf(ss), "/", now).table, tree')
  {
    RootRenameProblem(t, tree, ss);
    if Look(tree, ss) != Absent {
      RenameKeepsTreeIff(t, tree, ss, [], now);
    }
  }

  lemma RootRenameProblem(t: Table, tree: Node, ss: seq<string>)
    requires Represents(t, tree) && AreNames(ss) && ss != []
    ensures PathOf(ss) != "/" && (RenameProblem(t, PathOf(ss), "/").None? <==> Look(tree, ss) != Absent)
  {
    RootIsNoKey(t, tree);
    ParentOfRoot();
    PathOfNormalizes([]);
    SourcePath(ss, []);
    UnderIffPrefix([], ss);
    PresentIff(t, tree, ss);
  }

  /** The failure at an input: a write to the root of an empty store. */
  lemma RootWriteBreaksTheTree(data: Payload)
    ensures HoldsTree(map[]) && FlatStep(map[], WriteFile("/", data), 0).error.None?
    ensures !HoldsTree(FlatStep(map[], WriteFile("/", data), 0).table)
  {
    var root := DirNode(map[]);
    assert Represents(map[], root) && AllNames(root);
    PathOfNormalizes([]);
    RootWriteSucceeds(map[], root, data, 0);
  }

  /** The failure at an input: the only file, written to an empty store, renamed to the root. */
  lemma RootRenameBreaksTheTree(data: Payload) returns (t: Table)
    ensures t == FlatStep(map[], WriteFile("/a", data), 0).table && HoldsTree(t)
    ensures FlatStep(t, Rename("/a", "/"), 1).error.None? && !HoldsTree(FlatStep(t, Rename("/a", "/"), 1).table)
  {
    var tree;
    t, tree := OneFile(data);
    OneNamePath();
    PathOfNormalizes([]);
    RenamedToRoot(t, tree, ["a"], "/a", "/");
  }

  lemma RenamedToRoot(t: Table, tree: Node, ss: seq<string>, from: string, to: string)
    requires Represents(t, tree) && AreNames(ss) && ss != [] && Look(tree, ss) != Absent
    requires NormalizePath(from) == Ok(PathOf(ss)) && NormalizePath(to) == Ok("/")
    ensures FlatStep(t, Rename(from, to), 1).error.None? && !HoldsTree(FlatStep(t, Rename(from, to), 1).table)
  {
    RootRenameSucceedsIff(t, tree, ss, 1);
  }

  lemma OneFile(data: Payload) returns (t: Table, tree: Node)
    ensures t == FlatStep(map[], WriteFile("/a", data), 0).table && Represents(t, tree) && AllNames(tree)
    ensures Look(tree, ["a"]) != Absent
  {
    var root := DirNode(map[]);
    OneNamePath();
    WriteRefines(map[], root, ["a"], data, 0);
    t, tree := FlatWrite(map[], "/a", data, 0).table, PutAt(root, ["a"], FileNode(data));
    AllNamesPut(root, ["a"], FileNode(data));
    assert TreeWrite(root, ["a"], data) == TreeDone(tree, None);
    LookPut(root, ["a"], FileNode(data), ["a"]);
  }

  lemma OneNamePath()
    ensures AreNames(["a"]) && PathOf(["a"]) == "/a" && NormalizePath("/a") == Ok("/a")
  {
    assert Slashed(["a"]) == Slashed([]) + "/" + "a";
    PathOfNormalizes(["a"]);
  }
}
