/**
 What the calls on the directory tree do, told by what every path shows before and after
 (packages/storage/src/idbfs.ts).
 */
module DirEffects {
  import opened Options
  import opened Paths
  import opened DirTree
  import opened FsRefinement

  /** A write shows its data at its path and changes nothing else; it needs a directory above and none in its place. */
  lemma WriteEffect(tree: Node, segs: seq<string>, data: Payload, q: seq<string>)
    requires segs != []
    ensures var done := TreeWrite(tree, segs, data);
            && Look(done.tree, q) == (if done.error.None? && q == segs then AFile(data) else Look(tree, q))
            && (done.error.None? <==> Look(tree, Parent(segs)) == ADir && Look(tree, segs) != ADir)
            && (done.error == Some(NotFound) <==> Look(tree, Parent(segs)) != ADir)
            && (done.error == Some(IsDirectory) <==> Look(tree, segs) == ADir)
  {
    if TreeWrite(tree, segs, data).error.None? {
      LookPut(tree, segs, FileNode(data), q);
      if segs < q {
        NothingBelow(tree, segs, q);
      }
    }
    if Look(tree, Parent(segs)) != ADir {
      NothingBelow(tree, Parent(segs), segs);
    }
  }

  /** Making a directory shows one at its path, empty if it is new, and changes nothing else. */
  lemma MakeDirEffect(tree: Node, segs: seq<string>, q: seq<string>)
    requires tree.DirNode?
    ensures var done := TreeMakeDir(tree, segs);
            && Look(done.tree, q) == (if done.error.None? && q == segs then ADir else Look(tree, q))
            && (done.error.None? <==> segs == [] || (Look(tree, Parent(segs)) == ADir && !Look(tree, segs).AFile?))
            && (done.error == Some(NotFound) <==> segs != [] && Look(tree, Parent(segs)) != ADir)
            && (done.error == Some(AlreadyExists) <==> Look(tree, segs).AFile?)
  {
    if segs != [] {
      if Look(tree, Parent(segs)) != ADir {
        NothingBelow(tree, Parent(segs), segs);
      } else {
        LookPut(tree, segs, DirNode(map[]), q);
        if segs < q && Look(tree, segs) != ADir {
          NothingBelow(tree, segs, q);
        }
      }
    }
  }

  /** The recursive form makes every directory on the way, and fails exactly on a file there. */
  lemma MakeDirsEffect(tree: Node, segs: seq<string>, q: seq<string>)
    ensures var done := TreeMakeDirs(tree, segs);
            && Look(done.tree, q) == (if done.error.None? && q <= segs then ADir else Look(tree, q))
            && (done.error.None? <==> forall k :: 0 <= k <= |segs| ==> !Look(tree, segs[..k]).AFile?)
            && (done.error.Some? ==> done.error == Some(AlreadyExists))
  {
    LookMakeDirs(tree, segs);
    if MakeDirs(tree, segs).Some? {
      LookMadeDirs(tree, segs, q);
    }
  }

  /** A rename shows at the target what the source showed, nothing at the source, and all other paths as before. */
  lemma RenameEffect(tree: Node, src: seq<string>, dst: seq<string>, q: seq<string>)
    requires dst != []
    ensures var done := TreeRename(tree, src, dst);
            Look(done.tree, q) ==
            if done.error.Some? || src == dst then Look(tree, q)
            else if dst <= q then Look(tree, src + q[|dst|..])
            else if src <= q then Absent
            else Look(tree, q)
  {
    if TreeRenameProblem(tree, src, dst).None? && src != dst {
      LookCut(tree, src, Parent(dst));
      LookPut(CutAt(tree, src), dst, Find(tree, src).value, q);
      LookCut(tree, src, q);
      if dst <= q {
        FindConcat(tree, src, q[|dst|..]);
      }
    }
  }

  /** When it fails, and how: the root and a target below the source are refused before anything is looked at. */
  lemma RenameFails(tree: Node, src: seq<string>, dst: seq<string>)
    requires dst != []
    ensures var error, there, free, room := TreeRename(tree, src, dst).error, Look(tree, src) != Absent,
                                            Look(tree, dst) == Absent, Look(tree, Parent(dst)) == ADir;
            && (error.None? <==> src != [] && (src == dst || (!(src <= dst) && there && free && room)))
            && (error == Some(InvalidPath) <==> src == [] || src < dst)
            && (error == Some(AlreadyExists) <==> src != [] && !(src <= dst) && there && !free)
            && (error == Some(NotFound) <==> src != [] && !(src <= dst) && (!there || (free && !room)))
  {
  }

  /** A removal takes what is at its path and below; a directory with something in it goes only recursively. */
  lemma RemoveEffect(tree: Node, segs: seq<string>, recursive: bool, q: seq<string>)
    ensures var done := TreeRemove(tree, segs, recursive);
            && Look(done.tree, q) == (if done.error.None? && segs <= q then Absent else Look(tree, q))
            && (done.error == Some(InvalidPath) <==> segs == [])
            && (done.error == Some(NotFound) <==> segs != [] && Look(tree, segs) == Absent)
            && (done.error == Some(NotEmpty) <==>
                  segs != [] && !recursive && exists name :: Look(tree, segs + [name]) != Absent)
            && (done.error.None? <==> done.error !in {Some(InvalidPath), Some(NotFound), Some(NotEmpty)})
  {
    if segs != [] && Find(tree, segs).Some? {
      LookCut(tree, segs, q);
      var sub := Find(tree, segs).value;
      forall name ensures Look(tree, segs + [name]) != Absent <==> sub.DirNode? && name in sub.children {
        ChildShown(tree, segs, name);
      }
      if sub.DirNode? && sub.children != map[] {
        var name :| name in sub.children;
        assert Look(tree, segs + [name]) != Absent;
      }
    } else if segs != [] {
      forall name ensures Look(tree, segs + [name]) == Absent {
        NothingBelow(tree, segs, segs + [name]);
      }
    }
  }

  lemma ChildShown(tree: Node, segs: seq<string>, name: string)
    requires Find(tree, segs).Some?
    ensures var sub := Find(tree, segs).value;
            Look(tree, segs + [name]) ==
            if sub.DirNode? && name in sub.children then Shown(Some(sub.children[name])) else Absent
  {
    FindConcat(tree, segs, [name]);
    if Find(tree, segs).value.DirNode? && name in Find(tree, segs).value.children {
      assert [name][1..] == [];
    }
  }

  /** A listing has exactly the names that show something one level below, and tells the directories. */
  lemma ListEffect(tree: Node, segs: seq<string>, name: string, isDir: bool)
    ensures match TreeReadDir(tree, segs)
            case Ok(entries) =>
              && Look(tree, segs) == ADir
              && ((name, isDir) in entries <==>
                    Look(tree, segs + [name]) != Absent && (isDir <==> Look(tree, segs + [name]) == ADir))
            case Err(e) => e == if Look(tree, segs) == Absent then NotFound else NotDirectory
  {
    if Find(tree, segs).Some? {
      ChildShown(tree, segs, name);
    }
  }
}
