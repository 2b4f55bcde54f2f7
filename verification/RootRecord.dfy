/**
 What writing to the root and renaming to it leave behind: a record at the root, and records below it at paths that no
 call can name. Apart from these the table keeps standing for a tree, in every sequence of calls.
 */
module RootRecord {
  import opened Options
  import opened Paths
  import opened DirTree
  import opened FlatTable
  import opened FsRefinement

  /** The root, or a path below it with a doubled slash: where renaming to the root puts descendants. */
  predicate Stray(path: string) {
    path == "/" || "//" <= path
  }

  /** A normalized path other than the root. */
  predicate Proper(path: string) {
    |path| >= 2 && path[1] != '/'
  }

  /** The table without the stray records. */
  function Aside(t: Table): Table {
    map p | p in t && !Stray(p) :: t[p]
  }

  function Strays(t: Table): Table {
    map p | p in t && Stray(p) :: t[p]
  }

  /** The same error, the same table but for the stray records, and those as before. */
  ghost predicate SameAside(t: Table, with: Done, without: Done) {
    with.error == without.error && Aside(with.table) == without.table && Strays(with.table) == Strays(t)
  }

  lemma WriteAside(t: Table, path: string, data: Payload, now: int)
    requires Proper(path)
    ensures SameAside(t, FlatWrite(t, path, data, now), FlatWrite(Aside(t), path, data, now))
  {
  }

  lemma MakeDirAside(t: Table, path: string, now: int)
    requires Proper(path)
    ensures SameAside(t, MakeDir(t, path, now), MakeDir(Aside(t), path, now))
  {
  }

  lemma {:induction false} PrefixesAside(t: Table, segs: seq<string>, n: nat, now: int)
    requires AreNames(segs) && n <= |segs|
    ensures SameAside(t, MakePrefixes(t, segs, n, now), MakePrefixes(Aside(t), segs, n, now))
  {
    if n > 0 {
      PrefixesAside(t, segs, n - 1, now);
      SecondChar(segs[..n]);
      MakeDirAside(MakePrefixes(t, segs, n - 1, now).table, Slashed(segs[..n]), now);
    }
  }

  lemma MkdirAside(t: Table, segs: seq<string>, recursive: bool, now: int)
    requires AreNames(segs) && segs != []
    ensures SameAside(t, FlatMkdir(t, PathOf(segs), recursive, now), FlatMkdir(Aside(t), PathOf(segs), recursive, now))
  {
    SegmentsOfPath(segs);
    ProperParent(segs);
    PrefixesAside(t, segs, |segs|, now);
    MakeDirAside(t, PathOf(segs), now);
  }

  lemma ProperParent(segs: seq<string>)
    requires AreNames(segs) && segs != []
    ensures var path := PathOf(segs);
            Proper(path) && (ParentOf(path) == "/" || Proper(ParentOf(path)))
  {
    SecondChar(segs);
    ProperPath(segs);
    if Parent(segs) != [] {
      SecondChar(Parent(segs));
    }
  }

  lemma AffectedAside(t: Table, src: string)
    requires Proper(src)
    ensures Affected(Aside(t), src) == Affected(t, src) && forall p :: p in Affected(t, src) ==> !Stray(p)
  {
    assert forall p :: Under(p, src) ==> Proper(p);
  }

  lemma RemoveAside(t: Table, path: string, recursive: bool)
    requires Proper(path)
    ensures SameAside(t, FlatRemove(t, path, recursive), FlatRemove(Aside(t), path, recursive))
  {
    AffectedAside(t, path);
  }

  lemma MoveAside(t: Table, done: set<string>, src: string, dst: string, now: int)
    requires src != "/" && Proper(dst)
    requires forall p :: p in done ==> p in t && Under(p, src) && !Stray(p)
    ensures Aside(MoveSome(t, done, src, dst, now)) == MoveSome(Aside(t), done, src, dst, now)
    ensures Strays(MoveSome(t, done, src, dst, now)) == Strays(t)
  {
    var moved := MovedRecords(t, done, src, dst, now);
    assert moved == MovedRecords(Aside(t), done, src, dst, now);
    assert forall q :: q in moved ==> Proper(q);
    PartsAside(t, done, moved);
  }

  lemma PartsAside(t: Table, done: set<string>, moved: Table)
    requires forall p :: p in done || p in moved ==> !Stray(p)
    ensures Aside((t - done) + moved) == (Aside(t) - done) + moved
    ensures Strays((t - done) + moved) == Strays(t)
  {
  }

  lemma ProblemAside(t: Table, src: string, dst: string)
    requires Proper(src) && (ParentOf(dst) == "/" || Proper(ParentOf(dst)))
    ensures RenameProblem(t, src, dst).None? ==> RenameProblem(Aside(t), src, dst).None?
    ensures Proper(dst) ==> RenameProblem(Aside(t), src, dst) == RenameProblem(t, src, dst)
  {
  }

  lemma RenameAside(t: Table, src: string, dst: string, now: int)
    requires Proper(src) && Proper(dst)
    ensures SameAside(t, FlatRename(t, src, dst, now), FlatRename(Aside(t), src, dst, now))
  {
    ProblemAside(t, src, dst);
    if RenameProblem(t, src, dst).None? && src != dst {
      AffectedAside(t, src);
      MoveAside(t, Affected(t, src), src, dst, now);
    }
  }

  lemma RootIsItsParent()
    ensures ParentOf("/") == "/"
  {
    ParentOfRoot();
    PathOfNormalizes([]);
  }

  lemma ParentsProper(from: string, to: string)
    requires NormalizePath(from).Ok? && NormalizePath(to).Ok?
    ensures NormalizePath(from).value != "/" ==> Proper(NormalizePath(from).value)
    ensures var dst := NormalizePath(to).value;
            (dst != "/" ==> Proper(dst)) && (ParentOf(dst) == "/" || Proper(ParentOf(dst)))
  {
    var ss := Normalized(from);
    var ds := Normalized(to);
    RootIsItsParent();
    if ss != [] {
      ProperParent(ss);
    }
    if ds != [] {
      ProperParent(ds);
    }
  }

  lemma RenameStepAside(t: Table, from: string, to: string, now: int)
    requires NonRootTarget(Rename(from, to)) && NormalizePath(from).Ok? && NormalizePath(to).Ok?
    ensures var src, dst := NormalizePath(from).value, NormalizePath(to).value;
            SameAside(t, FlatRename(t, src, dst, now), FlatRename(Aside(t), src, dst, now))
  {
    var src, dst := NormalizePath(from).value, NormalizePath(to).value;
    ParentsProper(from, to);
    if src == "/" {
      RootNotRenamed(t, dst, now);
    } else {
      RenameAside(t, src, dst, now);
    }
  }

  lemma RootNotRenamed(t: Table, dst: string, now: int)
    ensures SameAside(t, FlatRename(t, "/", dst, now), FlatRename(Aside(t), "/", dst, now))
  {
  }

  lemma RemoveStepAside(t: Table, path: string, recursive: bool)
    requires NormalizePath(path).Ok?
    ensures var p := NormalizePath(path).value;
            SameAside(t, FlatRemove(t, p, recursive), FlatRemove(Aside(t), p, recursive))
  {
    var segs := Normalized(path);
    if segs != [] {
      ProperParent(segs);
      RemoveAside(t, PathOf(segs), recursive);
    }
  }

  /** Calls not aimed at the root do the same with and without the stray records, and leave those alone. */
  lemma StepAside(t: Table, op: FsOp, now: int)
    requires NonRootTarget(op)
    ensures SameAside(t, FlatStep(t, op, now), FlatStep(Aside(t), op, now))
  {
    match op
    case WriteFile(path, data) =>
      if NormalizePath(path).Ok? {
        var segs := Normalized(path);
        ProperParent(segs);
        WriteAside(t, PathOf(segs), data, now);
      }
    case Mkdir(path, recursive) =>
      if NormalizePath(path).Ok? {
        var segs := Normalized(path);
        if segs != [] {
          MkdirAside(t, segs, recursive, now);
        }
      }
    case Rename(from, to) =>
      if NormalizePath(from).Ok? && NormalizePath(to).Ok? {
        RenameStepAside(t, from, to, now);
      }
    case Remove(path, recursive) =>
      if NormalizePath(path).Ok? {
        RemoveStepAside(t, path, recursive);
      }
  }

  // ---------------------------------------------------------------- the calls aimed at the root

  /** Whether there is a record at the root, and whether it is a directory. */
  function RootSlot(t: Table): Option<bool> {
    if "/" in t then Some(t["/"].isDir) else None
  }

  /** A write to the root changes nothing but the record there. */
  lemma RootWriteAside(t: Table, data: Payload, now: int)
    ensures var done := FlatWrite(t, "/", data, now);
            && Aside(done.table) == Aside(t)
            && done.error == (if RootSlot(t) == Some(true) then Some(IsDirectory) else None)
            && RootSlot(done.table) == if done.error.None? then Some(false) else RootSlot(t)
  {
    RootIsItsParent();
    if RootSlot(t) != Some(true) {
      OneStray(t, FlatWrite(t, "/", data, now).table["/"]);
    }
  }


  lemma OneStray(t: Table, r: Record)
    ensures Aside(t["/" := r]) == Aside(t)
  {
  }

  /** A rename to the root takes its source with all its descendants out of the tree. */
  lemma RootRenameAside(t: Table, src: string, now: int)
    requires Proper(src) && RenameProblem(t, src, "/").None?
    ensures var next := FlatRename(t, src, "/", now).table;
            Aside(next) == Aside(t) - Affected(Aside(t), src) && RootSlot(next) == Some(t[src].isDir)
  {
    var moved := MovedRecords(t, Affected(t, src), src, "/", now);
    AffectedAside(t, src);
    assert forall p :: Under(p, src) ==> Stray(MovedPath(p, src, "/"));
    assert src in Affected(t, src) && MovedPath(src, src, "/") == "/" && moved["/"].isDir == t[src].isDir;
    StraysAside(t, Affected(t, src), moved);
  }

  lemma StraysAside(t: Table, done: set<string>, moved: Table)
    requires forall p :: p in moved ==> Stray(p)
    ensures Aside((t - done) + moved) == Aside(t) - done
  {
  }

  /** All that calls can tell of a table: the tree, and what is at the root. */
  datatype Whole = Whole(tree: Node, slot: Option<bool>)

  function RootWrite(w: Whole): (Whole, Option<Error>) {
    if w.slot == Some(true) then (w, Some(IsDirectory)) else (w.(slot := Some(false)), None)
  }

  /** Renaming to the root: the first time it removes the source, later it fails. */
  function RootRename(w: Whole, src: seq<string>): (Whole, Option<Error>) {
    if src == [] then (w, Some(InvalidPath))
    else if Look(w.tree, src) == Absent then (w, Some(NotFound))
    else if w.slot.Some? then (w, Some(AlreadyExists))
    else (Whole(CutAt(w.tree, src), Some(Look(w.tree, src) == ADir)), None)
  }

  function WholeStep(w: Whole, op: FsOp): (Whole, Option<Error>) {
    if NonRootTarget(op) then
      var done := TreeStep(w.tree, op);
      (w.(tree := done.tree), done.error)
    else if op.WriteFile? then RootWrite(w)
    else
      match PathSegments(op.from)
      case Ok(src) => RootRename(w, src)
      case Err(e) => (w, Some(e))
  }

  ghost predicate Stands(t: Table, w: Whole) {
    Represents(Aside(t), w.tree) && AllNames(w.tree) && RootSlot(t) == w.slot
  }

  lemma StraysSlot(t: Table, next: Table)
    requires Strays(next) == Strays(t)
    ensures RootSlot(next) == RootSlot(t)
  {
    assert "/" in Strays(next) <==> "/" in next;
    assert "/" in Strays(t) <==> "/" in t;
    assert "/" in t ==> Strays(next)["/"] == Strays(t)["/"];
  }

  lemma RootRenameRefines(t: Table, w: Whole, ss: seq<string>, now: int)
    requires Stands(t, w) && AreNames(ss)
    ensures var done, (next, error) := FlatRename(t, PathOf(ss), "/", now), RootRename(w, ss);
            done.error == error && Stands(done.table, next)
  {
    if ss != [] {
      ProperParent(ss);
      RootIsItsParent();
      PresentIff(Aside(t), w.tree, ss);
      if RootRename(w, ss).1.None? {
        RootRenameAside(t, PathOf(ss), now);
        CutOut(Aside(t), w.tree, ss);
        assert Matches(Aside(t), w.tree, ss);
      }
    }
  }

  /** Without a record and its descendants the table stands for the tree without its subtree. */
  lemma CutOut(t: Table, tree: Node, ss: seq<string>)
    requires Represents(t, tree) && AllNames(tree) && AreNames(ss) && ss != [] && Look(tree, ss) != Absent
    ensures Represents(t - Affected(t, PathOf(ss)), CutAt(tree, ss)) && AllNames(CutAt(tree, ss))
  {
    var p := PathOf(ss);
    AllNamesCut(tree, ss);
    if Look(tree, ss) != ADir {
      forall x | x in Affected(t, p) ensures x == p {
        assert ProperKey(x);
        var q :| IsPathOf(x, q);
        AffectedIff(t, tree, ss, q);
        assert ss <= q;
        if ss != q {
          NothingBelow(tree, ss, q);
        }
      }
      PresentIff(t, tree, ss);
      assert Affected(t, p) == {p};
    }
    RemoveMatches(t, tree, ss, t - Affected(t, p));
  }

  /** Every call whatsoever reports and does on the table what it reports and does on tree and root record. */
  lemma EveryStepRefines(t: Table, w: Whole, op: FsOp, now: int)
    requires Stands(t, w)
    ensures FlatStep(t, op, now).error == WholeStep(w, op).1 && Stands(FlatStep(t, op, now).table, WholeStep(w, op).0)
  {
    if NonRootTarget(op) {
      StepAside(t, op, now);
      StepRefines(Aside(t), w.tree, op, now);
      StraysSlot(t, FlatStep(t, op, now).table);
    } else if op.WriteFile? {
      RootWriteAside(t, op.data, now);
    } else if NormalizePath(op.from).Ok? {
      var ss := Normalized(op.from);
      RootRenameRefines(t, w, ss, now);
    }
  }

  function RunWhole(w: Whole, ops: seq<(FsOp, int)>): (Whole, seq<Option<Error>>)
    decreases |ops|
  {
    if ops == [] then (w, [])
    else
      var (next, error) := WholeStep(w, ops[0].0);
      var (end, errors) := RunWhole(next, ops[1..]);
      (end, [error] + errors)
  }

  lemma {:induction false} RunStands(t: Table, w: Whole, ops: seq<(FsOp, int)>)
    requires Stands(t, w)
    ensures RunFlat(t, ops).1 == RunWhole(w, ops).1 && Stands(RunFlat(t, ops).0, RunWhole(w, ops).0)
    decreases |ops|
  {
    if ops != [] {
      EveryStepRefines(t, w, ops[0].0, ops[0].1);
      RunStands(FlatStep(t, ops[0].0, ops[0].1).table, WholeStep(w, ops[0].0).0, ops[1..]);
    }
  }

  /** From the empty table on, any calls at all: the errors are those of a tree with a slot for a record at its root. */
  lemma EveryCallBehaves(ops: seq<(FsOp, int)>)
    ensures var w := Whole(DirNode(map[]), None);
            RunFlat(map[], ops).1 == RunWhole(w, ops).1 && Stands(RunFlat(map[], ops).0, RunWhole(w, ops).0)
  {
    assert Aside(map[]) == map[];
    RunStands(map[], Whole(DirNode(map[]), None), ops);
  }

  /** The table holds a tree, the stray records aside; every call keeps this. */
  lemma StepKeepsAside(t: Table, op: FsOp, now: int)
    requires HoldsTree(Aside(t))
    ensures HoldsTree(Aside(FlatStep(t, op, now).table))
  {
    var tree :| Represents(Aside(t), tree) && AllNames(tree);
    EveryStepRefines(t, Whole(tree, RootSlot(t)), op, now);
  }

  lemma HoldsAside(t: Table)
    requires HoldsTree(t)
    ensures Aside(t) == t
  {
    var tree :| Represents(t, tree) && AllNames(tree);
    forall p | p in t ensures !Stray(p) {
      assert ProperKey(p);
      var q :| IsPathOf(p, q);
      SecondChar(q);
    }
  }
}
