/** A nested directory tree: what the flat record table of the IndexedDB backend stands for. */
module DirTree {
  import opened Options
  import opened Paths

  /** File contents as stored: text with its UTF-8 length, or bytes. */
  datatype Payload = Text(chars: string, byteLength: nat) | Binary(bytes: seq<int>)

  datatype Node = FileNode(data: Payload) | DirNode(children: map<string, Node>)

  /** What a path shows: nothing, a file or a directory. */
  datatype Seen = Absent | AFile(data: Payload) | ADir

  function Find(node: Node, segs: seq<string>): Option<Node> {
    if segs == [] then Some(node)
    else if node.DirNode? && segs[0] in node.children then Find(node.children[segs[0]], segs[1..])
    else None
  }

  function Shown(node: Option<Node>): Seen {
    match node
    case None => Absent
    case Some(FileNode(data)) => AFile(data)
    case Some(DirNode(_)) => ADir
  }

  function Look(node: Node, segs: seq<string>): Seen {
    Shown(Find(node, segs))
  }

  function Parent(segs: seq<string>): seq<string>
    requires segs != []
  {
    segs[..|segs| - 1]
  }

  /** The tree with `sub` in place of whatever was at `segs`. */
  function PutAt(node: Node, segs: seq<string>, sub: Node): Node
    requires segs != [] && Look(node, Parent(segs)) == ADir
    decreases |segs|
  {
    if |segs| == 1 then
      assert Parent(segs) == [];
      DirNode(node.children[segs[0] := sub])
    else
      assert Parent(segs)[1..] == Parent(segs[1..]);
      DirNode(node.children[segs[0] := PutAt(node.children[segs[0]], segs[1..], sub)])
  }

  /** The tree without what is at `segs`. */
  function CutAt(node: Node, segs: seq<string>): Node
    requires segs != [] && Find(node, segs).Some?
    decreases |segs|
  {
    if |segs| == 1 then DirNode(node.children - {segs[0]})
    else DirNode(node.children[segs[0] := CutAt(node.children[segs[0]], segs[1..])])
  }

  lemma {:induction false} LookPut(node: Node, segs: seq<string>, sub: Node, q: seq<string>)
    requires segs != [] && Look(node, Parent(segs)) == ADir
    ensures Look(PutAt(node, segs, sub), q) == if segs <= q then Look(sub, q[|segs|..]) else Look(node, q)
    decreases |segs|
  {
    if |segs| == 1 {
      assert Parent(segs) == [];
      if q != [] && q[0] == segs[0] {
        assert segs <= q && q[1..] == q[|segs|..];
      }
    } else {
      assert Parent(segs)[1..] == Parent(segs[1..]);
      if q != [] && q[0] == segs[0] {
        LookPut(node.children[segs[0]], segs[1..], sub, q[1..]);
        assert segs <= q <==> segs[1..] <= q[1..];
        if segs <= q {
          assert q[1..][|segs[1..]|..] == q[|segs|..];
        }
      }
    }
  }

  lemma {:induction false} LookCut(node: Node, segs: seq<string>, q: seq<string>)
    requires segs != [] && Find(node, segs).Some?
    ensures Look(CutAt(node, segs), q) == if segs <= q then Absent else Look(node, q)
    decreases |segs|
  {
    if |segs| == 1 {
      if q != [] && q[0] == segs[0] {
        assert segs <= q;
      }
    } else if q != [] && q[0] == segs[0] {
      LookCut(node.children[segs[0]], segs[1..], q[1..]);
      assert segs <= q <==> segs[1..] <= q[1..];
    }
  }

  lemma {:induction false} FindConcat(node: Node, a: seq<string>, b: seq<string>)
    ensures Find(node, a + b) == match Find(node, a) case Some(n) => Find(n, b) case None => None
    decreases |a|
  {
    if a == [] {
      assert a + b == b;
    } else {
      assert (a + b)[1..] == a[1..] + b;
      if node.DirNode? && a[0] in node.children {
        FindConcat(node.children[a[0]], a[1..], b);
      }
    }
  }

  /** Nothing is below a path that is not a directory. */
  lemma NothingBelow(node: Node, a: seq<string>, q: seq<string>)
    requires a < q && Look(node, a) != ADir
    ensures Look(node, q) == Absent
  {
    var b := q[|a|..];
    assert q == a + b;
    FindConcat(node, a, b);
  }

  // ---------------------------------------------------------------- operations on the tree

  /** The outcome of an operation: the tree afterwards, and the error it reported, if any. */
  datatype TreeDone = TreeDone(tree: Node, error: Option<Error>)

  function TreeWrite(tree: Node, segs: seq<string>, data: Payload): TreeDone
    requires segs != []
  {
    if Look(tree, Parent(segs)) != ADir then TreeDone(tree, Some(NotFound))
    else if Look(tree, segs) == ADir then TreeDone(tree, Some(IsDirectory))
    else TreeDone(PutAt(tree, segs, FileNode(data)), None)
  }

  /** Creates one directory in an existing parent; an existing directory is left as it is. */
  function TreeMakeDir(tree: Node, segs: seq<string>): TreeDone {
    if segs == [] then TreeDone(tree, None)
    else if Look(tree, Parent(segs)) != ADir then TreeDone(tree, Some(NotFound))
    else
      match Look(tree, segs)
      case AFile(_) => TreeDone(tree, Some(AlreadyExists))
      case ADir => TreeDone(tree, None)
      case Absent => TreeDone(PutAt(tree, segs, DirNode(map[])), None)
  }

  /** Descends along `segs`, creating the directories that are missing; fails on a file in the way. */
  function MakeDirs(node: Node, segs: seq<string>): Option<Node>
    decreases |segs|
  {
    if node.FileNode? then None
    else if segs == [] then Some(node)
    else
      var child := if segs[0] in node.children then node.children[segs[0]] else DirNode(map[]);
      match MakeDirs(child, segs[1..])
      case None => None
      case Some(sub) => Some(DirNode(node.children[segs[0] := sub]))
  }

  function TreeMakeDirs(tree: Node, segs: seq<string>): TreeDone {
    match MakeDirs(tree, segs)
    case Some(t) => TreeDone(t, None)
    case None => TreeDone(tree, Some(AlreadyExists))
  }

  function TreeRenameProblem(tree: Node, src: seq<string>, dst: seq<string>): Option<Error>
    requires dst != []
  {
    if src == [] then Some(InvalidPath)
    else if src == dst then None
    else if src <= dst then Some(InvalidPath)
    else if Look(tree, src) == Absent then Some(NotFound)
    else if Look(tree, dst) != Absent then Some(AlreadyExists)
    else if Look(tree, Parent(dst)) != ADir then Some(NotFound)
    else None
  }

  /** Detaches the subtree at `src` and attaches it at `dst`. */
  function TreeRename(tree: Node, src: seq<string>, dst: seq<string>): TreeDone
    requires dst != []
  {
    var problem := TreeRenameProblem(tree, src, dst);
    if problem.Some? || src == dst then TreeDone(tree, problem)
    else
      LookCut(tree, src, Parent(dst));
      TreeDone(PutAt(CutAt(tree, src), dst, Find(tree, src).value), None)
  }

  function TreeRemove(tree: Node, segs: seq<string>, recursive: bool): TreeDone {
    if segs == [] then TreeDone(tree, Some(InvalidPath))
    else
      match Find(tree, segs)
      case None => TreeDone(tree, Some(NotFound))
      case Some(sub) =>
        if sub.DirNode? && sub.children != map[] && !recursive then TreeDone(tree, Some(NotEmpty))
        else TreeDone(CutAt(tree, segs), None)
  }

  // ---------------------------------------------------------------- effects, path by path

  lemma {:induction false} LookMakeDirs(node: Node, segs: seq<string>)
    ensures MakeDirs(node, segs).None? <==> exists k :: 0 <= k <= |segs| && Look(node, segs[..k]).AFile?
    decreases |segs|
  {
    if node.FileNode? {
      assert Look(node, segs[..0]).AFile?;
    } else if segs == [] {
      forall k | 0 <= k <= |segs| ensures !Look(node, segs[..k]).AFile? {
        assert segs[..k] == [];
      }
    } else if segs[0] in node.children {
      var child := node.children[segs[0]];
      LookMakeDirs(child, segs[1..]);
      forall k | 0 <= k <= |segs[1..]| ensures Look(node, segs[..k + 1]) == Look(child, segs[1..][..k]) {
        assert segs[..k + 1][1..] == segs[1..][..k];
      }
      if k :| 0 <= k <= |segs[1..]| && Look(child, segs[1..][..k]).AFile? {
        assert Look(node, segs[..k + 1]).AFile?;
      }
      if k :| 0 <= k <= |segs| && Look(node, segs[..k]).AFile? {
        assert k > 0 && segs[..k][1..] == segs[1..][..k - 1];
      }
    } else {
      EmptyMakesDirs(segs[1..]);
    }
  }

  lemma {:induction false} EmptyMakesDirs(q: seq<string>)
    ensures MakeDirs(DirNode(map[]), q).Some?
    decreases |q|
  {
    if q != [] {
      EmptyMakesDirs(q[1..]);
    }
  }

  lemma {:induction false} LookMadeDirs(node: Node, segs: seq<string>, q: seq<string>)
    requires MakeDirs(node, segs).Some?
    ensures Look(MakeDirs(node, segs).value, q) == if q <= segs then ADir else Look(node, q)
    decreases |segs|
  {
    if segs != [] && q != [] && q[0] == segs[0] {
      var child := if segs[0] in node.children then node.children[segs[0]] else DirNode(map[]);
      LookMadeDirs(child, segs[1..], q[1..]);
      assert q <= segs <==> q[1..] <= segs[1..];
    }
  }

  // ---------------------------------------------------------------- names in a tree

  /** Every name in the tree can occur in a normalized path, so every node can be reached by a path. */
  predicate AllNames(node: Node) {
    node.DirNode? ==> forall name :: name in node.children ==> IsName(name) && AllNames(node.children[name])
  }

  lemma {:induction false} AllNamesAt(node: Node, segs: seq<string>)
    requires AllNames(node) && Find(node, segs).Some?
    ensures AllNames(Find(node, segs).value)
    decreases |segs|
  {
    if segs != [] {
      AllNamesAt(node.children[segs[0]], segs[1..]);
    }
  }

  lemma {:induction false} AllNamesPut(node: Node, segs: seq<string>, sub: Node)
    requires segs != [] && Look(node, Parent(segs)) == ADir
    requires AllNames(node) && AllNames(sub) && AreNames(segs)
    ensures AllNames(PutAt(node, segs, sub))
    decreases |segs|
  {
    if |segs| > 1 {
      assert Parent(segs)[1..] == Parent(segs[1..]);
      AllNamesPut(node.children[segs[0]], segs[1..], sub);
    } else {
      assert Parent(segs) == [];
    }
  }

  lemma {:induction false} AllNamesCut(node: Node, segs: seq<string>)
    requires segs != [] && Find(node, segs).Some? && AllNames(node)
    ensures AllNames(CutAt(node, segs))
    decreases |segs|
  {
    if |segs| > 1 {
      AllNamesCut(node.children[segs[0]], segs[1..]);
    }
  }

  lemma {:induction false} AllNamesMakeDirs(node: Node, segs: seq<string>)
    requires AllNames(node) && AreNames(segs) && MakeDirs(node, segs).Some?
    ensures AllNames(MakeDirs(node, segs).value)
    decreases |segs|
  {
    if segs != [] {
      var child := if segs[0] in node.children then node.children[segs[0]] else DirNode(map[]);
      AllNamesMakeDirs(child, segs[1..]);
    }
  }
}
