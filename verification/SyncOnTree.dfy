/**
 The storage the sync is modelled on is the directory tree of the IndexedDB backend: a download makes the directories
 above its file and then writes it, and the tree refuses that exactly where the sync's storage does.
 */
module SyncOnTree {
  import opened Paths
  import opened DirTree
  import opened SyncModel
  import opened SyncStorage

  /** The path of the sync model for a list of names: no slash in front. */
  function Rel(segs: seq<string>): string
    requires segs != []
  {
    assert |Slashed(segs)| > 0;
    Slashed(segs)[1..]
  }

  ghost predicate HasNames(p: string) {
    exists q :: q != [] && AreNames(q) && p == Rel(q)
  }

  /** How the contents of a file are stored. */
  type Encoder = Content -> Payload

  /** The tree below the collection shows these files, with their contents, and directories, and nothing else. */
  ghost predicate Shows(node: Node, tree: Tree, dirs: set<string>, enc: Encoder) {
    && node.DirNode?
    && (forall p :: p in tree || p in dirs ==> HasNames(p))
    && forall q {:trigger Look(node, q)} :: q != [] && AreNames(q) ==> ShownAs(Look(node, q), Rel(q), tree, dirs, enc)
  }

  ghost predicate ShownAs(seen: Seen, p: string, tree: Tree, dirs: set<string>, enc: Encoder) {
    && (seen.AFile? <==> p in tree) && (p in tree ==> seen == AFile(enc(tree[p].data)))
    && (seen.ADir? <==> p in dirs)
  }

  lemma RelOf(q: seq<string>)
    requires q != [] && AreNames(q)
    ensures PathOf(q) == "/" + Rel(q) && PathOf(q) != "/"
  {
    SlashedIsJoin(q);
    SecondChar(q);
  }

  lemma RelInjective(a: seq<string>, q: seq<string>)
    requires a != [] && q != [] && AreNames(a) && AreNames(q) && Rel(a) == Rel(q)
    ensures a == q
  {
    RelOf(a);
    RelOf(q);
    PathOfInjective(a, q);
  }

  lemma AboveIffPrefix(a: seq<string>, q: seq<string>)
    requires a != [] && q != [] && AreNames(a) && AreNames(q)
    ensures Above(Rel(a), Rel(q)) <==> a < q
  {
    RelOf(a);
    RelOf(q);
    UnderIffPrefix(q, a);
    if a < q {
      assert PathOf(q) != PathOf(a) by {
        if PathOf(q) == PathOf(a) {
          PathOfInjective(q, a);
        }
      }
      assert PathOf(a) + "/" <= PathOf(q);
      assert PathOf(q)[|PathOf(a)|] == '/';
    }
    if Above(Rel(a), Rel(q)) {
      assert PathOf(a) + "/" <= PathOf(q) && a <= q;
      assert Rel(a) != Rel(q) && a != q;
    }
  }

  /** Every directory above a file is the path of a shorter list of its names. */
  lemma AncestorIsPrefix(node: Node, tree: Tree, dirs: set<string>, enc: Encoder, q: seq<string>)
    requires Shows(node, tree, dirs, enc) && q != [] && AreNames(q)
    ensures FileAbove(tree, Rel(q)) <==> exists k :: 0 < k < |q| && Look(node, q[..k]).AFile?
  {
    if a :| a in tree && Above(a, Rel(q)) {
      assert HasNames(a);
      var s :| s != [] && AreNames(s) && a == Rel(s);
      AboveIffPrefix(s, q);
      assert s == q[..|s|] && Look(node, q[..|s|]).AFile?;
    }
    if k :| 0 < k < |q| && Look(node, q[..k]).AFile? {
      AboveIffPrefix(q[..k], q);
      assert Rel(q[..k]) in tree;
    }
  }

  /** A directory above a path of names is a path of names. */
  lemma {:induction false} AncestorHasNames(q: seq<string>, p: string)
    requires q != [] && AreNames(q) && Above(p, Rel(q))
    ensures HasNames(p)
    decreases |q|
  {
    var above, last := Parent(q), q[|q| - 1];
    assert Slashed(q) == Slashed(above) + "/" + last && '/' !in last;
    if above != [] {
      assert Rel(q) == Rel(above) + "/" + last;
      if |p| < |Rel(above)| {
        assert Above(p, Rel(above));
        AncestorHasNames(above, p);
      } else if |p| == |Rel(above)| {
        assert p == Rel(above) && AreNames(above);
      }
    }
  }

  // ---------------------------------------------------------------- single calls

  lemma MakeParentsIff(node: Node, tree: Tree, dirs: set<string>, enc: Encoder, q: seq<string>)
    requires Shows(node, tree, dirs, enc) && q != [] && AreNames(q)
    ensures MakeDirs(node, Parent(q)).Some? <==> !FileAbove(tree, Rel(q))
  {
    var above := Parent(q);
    LookMakeDirs(node, above);
    AncestorIsPrefix(node, tree, dirs, enc, q);
    forall k | 0 <= k <= |above| ensures above[..k] == q[..k] {
    }
    assert Look(node, []) == ADir && q[..0] == [];
  }

  lemma MakeParentsShows(node: Node, tree: Tree, dirs: set<string>, enc: Encoder, q: seq<string>)
    requires Shows(node, tree, dirs, enc) && q != [] && AreNames(q) && !FileAbove(tree, Rel(q))
    ensures MakeDirs(node, Parent(q)).Some?
    ensures Shows(MakeDirs(node, Parent(q)).value, tree, dirs + Ancestors(Rel(q)), enc)
  {
    MakeParentsIff(node, tree, dirs, enc, q);
    var next := MakeDirs(node, Parent(q)).value;
    LookMadeDirs(node, Parent(q), []);
    forall p | p in tree || p in dirs + Ancestors(Rel(q)) ensures HasNames(p) {
      if p in Ancestors(Rel(q)) {
        AncestorHasNames(q, p);
      }
    }
    forall s {:trigger Look(next, s)} | s != [] && AreNames(s)
      ensures ShownAs(Look(next, s), Rel(s), tree, dirs + Ancestors(Rel(q)), enc)
    {
      LookMadeDirs(node, Parent(q), s);
      AboveIffPrefix(s, q);
      assert s <= Parent(q) <==> s < q;
      assert ShownAs(Look(node, s), Rel(s), tree, dirs, enc);
    }
  }

  lemma ParentIsDir(node: Node, tree: Tree, dirs: set<string>, enc: Encoder, q: seq<string>)
    requires Shows(node, tree, dirs, enc) && q != [] && AreNames(q) && Ancestors(Rel(q)) <= dirs
    ensures Look(node, Parent(q)) == ADir
  {
    if Parent(q) != [] {
      AboveIffPrefix(Parent(q), q);
      assert Rel(Parent(q)) in Ancestors(Rel(q));
    }
  }

  /** A file is written under existing directories unless it is one itself. */
  lemma StoreIff(node: Node, tree: Tree, dirs: set<string>, enc: Encoder, q: seq<string>, f: File)
    requires Shows(node, tree, dirs, enc) && q != [] && AreNames(q) && Ancestors(Rel(q)) <= dirs
    ensures TreeWrite(node, q, enc(f.data)).error.None? <==> Rel(q) !in dirs
    ensures Rel(q) !in dirs ==> Shows(TreeWrite(node, q, enc(f.data)).tree, tree[Rel(q) := f], dirs, enc)
  {
    ParentIsDir(node, tree, dirs, enc, q);
    assert ShownAs(Look(node, q), Rel(q), tree, dirs, enc);
    if Rel(q) !in dirs {
      var next := PutAt(node, q, FileNode(enc(f.data)));
      forall s {:trigger Look(next, s)} | s != [] && AreNames(s)
        ensures ShownAs(Look(next, s), Rel(s), tree[Rel(q) := f], dirs, enc)
      {
        LookPut(node, q, FileNode(enc(f.data)), s);
        PathsBelow(node, tree, dirs, enc, q, s);
      }
    }
  }

  /** Below a path that is not a directory nothing is shown, and other lists of names are other paths. */
  lemma PathsBelow(node: Node, tree: Tree, dirs: set<string>, enc: Encoder, q: seq<string>, s: seq<string>)
    requires Shows(node, tree, dirs, enc) && q != [] && AreNames(q) && s != [] && AreNames(s) && Rel(q) !in dirs
    ensures ShownAs(Look(node, s), Rel(s), tree, dirs, enc) && (Rel(s) == Rel(q) <==> s == q)
    ensures q <= s && q != s ==> Look(node, s) == Absent
    ensures q <= s && q != s ==> s[|q|..] != []
    ensures s == q ==> s[|q|..] == []
  {
    if Rel(s) == Rel(q) {
      RelInjective(s, q);
    }
    assert ShownAs(Look(node, q), Rel(q), tree, dirs, enc);
    if q <= s && q != s {
      NothingBelow(node, q, s);
    }
  }

  /** A file that is there is removed. */
  lemma DiscardShows(node: Node, tree: Tree, dirs: set<string>, enc: Encoder, q: seq<string>)
    requires Shows(node, tree, dirs, enc) && q != [] && AreNames(q) && Rel(q) in tree
    ensures TreeRemove(node, q, false).error.None?
    ensures Shows(TreeRemove(node, q, false).tree, tree - {Rel(q)}, dirs, enc)
  {
    assert ShownAs(Look(node, q), Rel(q), tree, dirs, enc);
    var next := CutAt(node, q);
    LookCut(node, q, []);
    forall s {:trigger Look(next, s)} | s != [] && AreNames(s)
      ensures ShownAs(Look(next, s), Rel(s), tree - {Rel(q)}, dirs, enc)
    {
      LookCut(node, q, s);
      PathsBelow(node, tree, dirs, enc, q, s);
    }
  }

  /** Making the directories above a file fails exactly if a file is above it; then writing it, if it is a directory. */
  lemma DownloadOnTreeIff(node: Node, tree: Tree, dirs: set<string>, enc: Encoder, q: seq<string>, f: File)
    requires Shows(node, tree, dirs, enc) && q != [] && AreNames(q)
    ensures var made := MakeDirs(node, Parent(q));
            && (made.Some? <==> !FileAbove(tree, Rel(q)))
            && (made.Some? ==> (TreeWrite(made.value, q, enc(f.data)).error.None? <==> Rel(q) !in dirs))
            && (made.Some? && Rel(q) !in dirs ==>
                  Shows(TreeWrite(made.value, q, enc(f.data)).tree, tree[Rel(q) := f], dirs + Ancestors(Rel(q)), enc))
  {
    MakeParentsIff(node, tree, dirs, enc, q);
    if !FileAbove(tree, Rel(q)) {
      MakeParentsShows(node, tree, dirs, enc, q);
      StoreIff(MakeDirs(node, Parent(q)).value, tree, dirs + Ancestors(Rel(q)), enc, q, f);
    }
  }
}
