/** The IndexedDB backend itself: methods that change the record store in place. */
module IdbFs {
  import opened Options
  import opened Paths
  import opened DirTree
  import opened FlatTable
  import opened FsRefinement
  import opened RootRecord

  class IdbFsBackend {
    /** The object store, keyed by path. */
    var records: Table

    constructor ()
      ensures records == map[] && Valid() && ValidAside()
    {
      records := map[];
      assert Represents(map[], DirNode(map[]));
      HoldsAside(map[]);
    }

    /** The store holds a directory tree; every call except writing to or renaming to the root keeps this. */
    ghost predicate Valid()
      reads this
    {
      HoldsTree(records)
    }

    /** The same, the records left by calls aimed at the root aside; every call keeps this. */
    ghost predicate ValidAside()
      reads this
    {
      HoldsTree(Aside(records))
    }

    method WriteRecord(path: string, data: Payload, now: int) returns (error: Option<Error>)
      modifies this
      ensures Done(records, error) == FlatStep(old(records), WriteFile(path, data), now)
      ensures old(Valid()) && NonRootTarget(WriteFile(path, data)) ==> Valid()
      ensures old(ValidAside()) ==> ValidAside()
    {
      ghost var before := records;
      if HoldsTree(before) && NonRootTarget(WriteFile(path, data)) {
        StepKeepsTree(before, WriteFile(path, data), now);
      }
      if HoldsTree(Aside(before)) {
        StepKeepsAside(before, WriteFile(path, data), now);
      }
      var normalized := ComputeNormalizePath(path);
      if normalized.Err? {
        return Some(normalized.error);
      }
      var p := normalized.value;
      var parent := ParentOf(p);
      if parent != "/" && (parent !in records || !records[parent].isDir) {
        return Some(NotFound);
      }
      if p in records && records[p].isDir {
        return Some(IsDirectory);
      }
      var ctime := if p in records then records[p].ctime else now;
      records := records[p := Record(p, parent, false, data, now, ctime)];
      error := None;
    }

    method MakeDirectory(path: string, now: int) returns (error: Option<Error>)
      modifies this
      ensures Done(records, error) == MakeDir(old(records), path, now)
    {
      if path in records {
        return if records[path].isDir then None else Some(AlreadyExists);
      }
      records := records[path := Record(path, ParentOf(path), true, NO_DATA, now, now)];
      error := None;
    }

    method MakeDirectories(path: string, recursive: bool, now: int) returns (error: Option<Error>)
      modifies this
      ensures Done(records, error) == FlatStep(old(records), Mkdir(path, recursive), now)
      ensures old(Valid()) && NonRootTarget(Mkdir(path, recursive)) ==> Valid()
      ensures old(ValidAside()) ==> ValidAside()
    {
      ghost var before := records;
      if HoldsTree(before) && NonRootTarget(Mkdir(path, recursive)) {
        StepKeepsTree(before, Mkdir(path, recursive), now);
      }
      if HoldsTree(Aside(before)) {
        StepKeepsAside(before, Mkdir(path, recursive), now);
      }
      var normalized := ComputeNormalizePath(path);
      if normalized.Err? {
        return Some(normalized.error);
      }
      var p := normalized.value;
      if p == "/" {
        return None;
      }
      if recursive {
        var segments := SegmentsOf(p);
        var current := "";
        error := None;
        var i := 0;
        while i < |segments| && error.None?
          invariant i <= |segments| && current == Slashed(segments[..i])
          invariant Done(records, error) == MakePrefixes(old(records), segments, i, now)
        {
          current := current + "/" + segments[i];
          assert segments[..i + 1][..i] == segments[..i];
          error := MakeDirectory(current, now);
          i := i + 1;
        }
        MakePrefixesStop(old(records), segments, i, now);
      } else {
        var parent := ParentOf(p);
        if parent != "/" && (parent !in records || !records[parent].isDir) {
          return Some(NotFound);
        }
        error := MakeDirectory(p, now);
      }
    }

    /** Moves the record and every descendant; the records are visited in any order. */
    method RenameEntry(from: string, to: string, now: int) returns (error: Option<Error>)
      requires ValidAside()
      modifies this
      ensures Done(records, error) == FlatStep(old(records), Rename(from, to), now)
      ensures old(Valid()) && NonRootTarget(Rename(from, to)) ==> Valid()
      ensures ValidAside()
    {
      ghost var before := records;
      if HoldsTree(before) && NonRootTarget(Rename(from, to)) {
        StepKeepsTree(before, Rename(from, to), now);
      }
      StepKeepsAside(before, Rename(from, to), now);
      var source := ComputeNormalizePath(from);
      if source.Err? {
        return Some(source.error);
      }
      var target := ComputeNormalizePath(to);
      if target.Err? {
        return Some(target.error);
      }
      var src, dst := source.value, target.value;
      if src == "/" {
        return Some(InvalidPath);
      }
      if src == dst {
        return None;
      }
      if Under(dst, src) {
        return Some(InvalidPath);
      }
      if src !in records {
        return Some(NotFound);
      }
      if dst in records {
        return Some(AlreadyExists);
      }
      var dstParent := ParentOf(dst);
      if dstParent != "/" && (dstParent !in records || !records[dstParent].isDir) {
        return Some(NotFound);
      }
      ClearAside(records, from, to);
      MoveAffected(src, dst, now);
      error := None;
    }

    /** The loop that deletes each record under `src` and puts it back under `dst`. */
    method MoveAffected(src: string, dst: string, now: int)
      requires src != "/"
      requires Clear(Affected(records, src), src, dst)
      modifies this
      ensures records == MoveSome(old(records), Affected(old(records), src), src, dst, now)
    {
      ghost var before := records;
      var affected := Affected(records, src);
      var todo := affected;
      ghost var done: set<string> := {};
      while todo != {}
        invariant done + todo == affected && done !! todo
        invariant records == MoveSome(before, done, src, dst, now)
        decreases todo
      {
        var path :| path in todo;
        MoveRecord(path, src, dst, now, before, affected, done);
        done := done + {path};
        todo := todo - {path};
      }
    }

    /** One round of that loop, when the records in `done` have been moved. */
    method MoveRecord(path: string, src: string, dst: string, now: int,
                      ghost before: Table, ghost affected: set<string>, ghost done: set<string>)
      requires src != "/" && affected == Affected(before, src) && done <= affected && path in affected - done
      requires Clear(affected, src, dst)
      requires records == MoveSome(before, done, src, dst, now)
      modifies this
      ensures records == MoveSome(before, done + {path}, src, dst, now)
    {
      MoveOneMore(before, affected, done, path, src, dst, now);
      var record := records[path];
      var moved := MovedPath(path, src, dst);
      records := records - {path};
      records := records[moved := MovedRecord(record, moved, now)];
    }

    method RemoveEntry(path: string, recursive: bool) returns (error: Option<Error>)
      modifies this
      ensures Done(records, error) == FlatStep(old(records), Remove(path, recursive), 0)
      ensures old(Valid()) && NonRootTarget(Remove(path, recursive)) ==> Valid()
      ensures old(ValidAside()) ==> ValidAside()
    {
      ghost var before := records;
      if HoldsTree(before) && NonRootTarget(Remove(path, recursive)) {
        StepKeepsTree(before, Remove(path, recursive), 0);
      }
      if HoldsTree(Aside(before)) {
        StepKeepsAside(before, Remove(path, recursive), 0);
      }
      var normalized := ComputeNormalizePath(path);
      if normalized.Err? {
        return Some(normalized.error);
      }
      var p := normalized.value;
      if p == "/" {
        return Some(InvalidPath);
      }
      if p !in records {
        return Some(NotFound);
      }
      assert Under(p, p);
      if records[p].isDir {
        var descendants := Affected(records, p) - {p};
        if descendants != {} && !recursive {
          return Some(NotEmpty);
        }
        var todo := descendants;
        while todo != {}
          invariant todo <= descendants
          invariant records == old(records) - (descendants - todo)
          decreases todo
        {
          var child :| child in todo;
          records := records - {child};
          todo := todo - {child};
        }
      }
      records := records - {p};
      error := None;
    }

    method ReadDir(path: string) returns (r: Result<set<(string, bool)>, Error>)
      ensures r == match NormalizePath(path) case Ok(p) => FlatReadDir(records, p) case Err(e) => Err(e)
      ensures PathSegments(path).Ok? ==>
                forall tree :: Represents(records, tree) && AllNames(tree) ==>
                  r == TreeReadDir(tree, PathSegments(path).value)
    {
      if PathSegments(path).Ok? {
        ReadsLikeTree(records, path);
      }
      var normalized := ComputeNormalizePath(path);
      if normalized.Err? {
        return Err(normalized.error);
      }
      var p := normalized.value;
      if p != "/" {
        if p !in records {
          return Err(NotFound);
        }
        if !records[p].isDir {
          return Err(NotDirectory);
        }
      }
      r := Ok(set q | q in records && records[q].parent == p :: (BaseOf(records[q].path), records[q].isDir));
    }
  }

  /** What is listed is what any tree the table stands for has there. */
  lemma ReadsLikeTree(t: Table, path: string)
    requires PathSegments(path).Ok?
    ensures forall tree :: Represents(t, tree) && AllNames(tree) ==>
              FlatReadDir(t, NormalizePath(path).value) == TreeReadDir(tree, PathSegments(path).value)
  {
    var segs := Normalized(path);
    forall tree | Represents(t, tree) && AllNames(tree)
      ensures FlatReadDir(t, PathOf(segs)) == TreeReadDir(tree, segs)
    {
      ReadDirRefines(t, tree, segs);
    }
  }

  /** Once an error has occurred, the remaining prefixes are not looked at. */
  lemma {:induction false} MakePrefixesStop(t: Table, segs: seq<string>, n: nat, now: int)
    requires n <= |segs|
    requires n == |segs| || MakePrefixes(t, segs, n, now).error.Some?
    ensures MakePrefixes(t, segs, |segs|, now) == MakePrefixes(t, segs, n, now)
    decreases |segs| - n
  {
    if n < |segs| {
      MakePrefixesStop(t, segs, n + 1, now);
    }
  }

  /** A record is never moved onto another one that still has to be moved. */
  lemma NoOverlap(t: Table, tree: Node, from: string, to: string, affected: set<string>, path: string)
    requires Represents(t, tree) && NormalizePath(from).Ok? && NormalizePath(to).Ok?
    requires var src, dst := NormalizePath(from).value, NormalizePath(to).value;
             && src != "/" && src != dst && RenameProblem(t, src, dst).None?
             && affected == Affected(t, src) && path in affected
    ensures MovedPath(path, NormalizePath(from).value, NormalizePath(to).value) !in affected
  {
    var ss := Normalized(from);
    var ds := Normalized(to);
    var moved := MovedPath(path, PathOf(ss), PathOf(ds));
    if ds == [] {
      NotUnderDoubleSlash(ss, path[|PathOf(ss)|..]);
    } else {
      RenameProblemIff(t, tree, ss, ds);
      var r := MovedFrom(t, tree, ss, ds, path);
      TailNames(ss, ds, r);
      AffectedIff(t, tree, ss, ds + r);
      NothingAt(t, tree, ds, r);
    }
  }

  lemma MovedRecordsAdd(t: Table, done: set<string>, path: string, src: string, dst: string, now: int)
    requires src != "/" && forall p :: p in done + {path} ==> p in t && Under(p, src)
    ensures MovedRecords(t, done + {path}, src, dst, now) ==
            MovedRecords(t, done, src, dst, now)
              [MovedPath(path, src, dst) := MovedRecord(t[path], MovedPath(path, src, dst), now)]
  {
    MovedPathsDiffer(src, dst);
  }

  /** No affected record is moved onto another affected one. */
  ghost predicate Clear(affected: set<string>, src: string, dst: string) {
    forall a {:trigger MovedPath(a, src, dst)} :: a in affected ==> MovedPath(a, src, dst) !in affected
  }

  lemma ClearAside(t: Table, from: string, to: string)
    requires HoldsTree(Aside(t)) && NormalizePath(from).Ok? && NormalizePath(to).Ok?
    requires var src, dst := NormalizePath(from).value, NormalizePath(to).value;
             src != "/" && src != dst && RenameProblem(t, src, dst).None?
    ensures Clear(Affected(t, NormalizePath(from).value), NormalizePath(from).value, NormalizePath(to).value)
  {
    var tree :| Represents(Aside(t), tree) && AllNames(tree);
    var src, dst := NormalizePath(from).value, NormalizePath(to).value;
    ParentsProper(from, to);
    AffectedAside(t, src);
    ProblemAside(t, src, dst);
    ClearIn(Aside(t), tree, from, to);
  }

  lemma ClearIn(t: Table, tree: Node, from: string, to: string)
    requires Represents(t, tree) && NormalizePath(from).Ok? && NormalizePath(to).Ok?
    requires var src, dst := NormalizePath(from).value, NormalizePath(to).value;
             src != "/" && src != dst && RenameProblem(t, src, dst).None?
    ensures Clear(Affected(t, NormalizePath(from).value), NormalizePath(from).value, NormalizePath(to).value)
  {
    var src, dst := NormalizePath(from).value, NormalizePath(to).value;
    forall a {:trigger MovedPath(a, src, dst)} | a in Affected(t, src)
      ensures MovedPath(a, src, dst) !in Affected(t, src)
    {
      NoOverlap(t, tree, from, to, Affected(t, src), a);
    }
  }

  lemma MoveOneMore(t: Table, affected: set<string>, done: set<string>, path: string, src: string, dst: string,
                    now: int)
    requires src != "/" && affected == Affected(t, src) && done <= affected && path in affected - done
    requires Clear(affected, src, dst)
    ensures var sofar, to := MoveSome(t, done, src, dst, now), MovedPath(path, src, dst);
            && path in sofar && sofar[path] == t[path]
            && MoveSome(t, done + {path}, src, dst, now) == (sofar - {path})[to := MovedRecord(t[path], to, now)]
  {
    MovedRecordsAdd(t, done, path, src, dst, now);
    var moved := MovedRecords(t, done, src, dst, now);
    assert path !in moved;
    MapStep(t, moved, done, path, MovedPath(path, src, dst), MovedRecord(t[path], MovedPath(path, src, dst), now));
  }

  lemma MapStep(t: Table, moved: Table, done: set<string>, path: string, to: string, r: Record)
    requires path in t && path !in done && path !in moved
    ensures var sofar := (t - done) + moved;
            && path in sofar && sofar[path] == t[path]
            && (t - (done + {path})) + moved[to := r] == (sofar - {path})[to := r]
  {
  }
}
