/**
 The storage calls of a sync, made on the directory tree of the IndexedDB backend: they are accepted exactly if the
 storage model allows the sync, and then the tree shows the files and directories the sync ends with.
 */
module SyncCalls {
  import opened Options
  import opened ConflictNames
  import opened Text
  import opened Paths
  import opened DirTree
  import opened SyncModel
  import opened SyncStorage
  import opened SyncOnTree

  datatype Call = MakeParents(path: Path) | Store(path: Path, file: File) | Discard(path: Path)

  // ---------------------------------------------------------------- calls on the tree

  ghost function NamesOf(p: Path): (q: seq<string>)
    requires HasNames(p)
    ensures q != [] && AreNames(q) && p == Rel(q)
  {
    var q :| q != [] && AreNames(q) && p == Rel(q);
    q
  }

  /** The tree after a call, if the call is accepted. */
  ghost function Perform(node: Node, c: Call, enc: Encoder): Option<Node>
    requires HasNames(c.path)
  {
    var q := NamesOf(c.path);
    match c
    case MakeParents(_) => MakeDirs(node, Parent(q))
    case Store(_, f) => Accepted(TreeWrite(node, q, enc(f.data)))
    case Discard(_) => Accepted(TreeRemove(node, q, false))
  }

  function Accepted(done: TreeDone): Option<Node> {
    if done.error.None? then Some(done.tree) else None
  }

  ghost predicate AllNamed(calls: seq<Call>) {
    forall c :: c in calls ==> HasNames(c.path)
  }

  ghost function PerformAll(node: Node, calls: seq<Call>, enc: Encoder): Option<Node>
    requires AllNamed(calls)
    decreases |calls|
  {
    if calls == [] then Some(node)
    else
      var next := Perform(node, calls[0], enc);
      if next.None? then None else PerformAll(next.value, calls[1..], enc)
  }

  // ---------------------------------------------------------------- calls on files and directories

  predicate CallAllowed(tree: Tree, dirs: set<Path>, c: Call) {
    match c
    case MakeParents(p) => !FileAbove(tree, p)
    case Store(p, _) => p !in dirs
    case Discard(_) => true
  }

  /** A file is written where its directories are, and removed where it is. */
  predicate Placed(tree: Tree, dirs: set<Path>, c: Call) {
    match c
    case MakeParents(_) => true
    case Store(p, _) => Ancestors(p) <= dirs
    case Discard(p) => p in tree
  }

  function FilesAfter(tree: Tree, c: Call): Tree {
    match c
    case MakeParents(_) => tree
    case Store(p, f) => tree[p := f]
    case Discard(p) => tree - {p}
  }

  function DirsMade(c: Call): set<Path> {
    if c.MakeParents? then Ancestors(c.path) else {}
  }

  predicate AllAllowed(tree: Tree, dirs: set<Path>, calls: seq<Call>)
    decreases |calls|
  {
    calls == [] ||
    (&& CallAllowed(tree, dirs, calls[0])
     && AllAllowed(FilesAfter(tree, calls[0]), dirs + DirsMade(calls[0]), calls[1..]))
  }

  predicate AllPlaced(tree: Tree, dirs: set<Path>, calls: seq<Call>)
    decreases |calls|
  {
    calls == [] ||
    (&& Placed(tree, dirs, calls[0])
     && AllPlaced(FilesAfter(tree, calls[0]), dirs + DirsMade(calls[0]), calls[1..]))
  }

  function AllFiles(tree: Tree, calls: seq<Call>): Tree
    decreases |calls|
  {
    if calls == [] then tree else AllFiles(FilesAfter(tree, calls[0]), calls[1..])
  }

  function AllMade(calls: seq<Call>): set<Path>
    decreases |calls|
  {
    if calls == [] then {} else DirsMade(calls[0]) + AllMade(calls[1..])
  }

  lemma PerformIff(node: Node, tree: Tree, dirs: set<Path>, enc: Encoder, c: Call)
    requires Shows(node, tree, dirs, enc) && HasNames(c.path) && Placed(tree, dirs, c)
    ensures Perform(node, c, enc).Some? <==> CallAllowed(tree, dirs, c)
    ensures CallAllowed(tree, dirs, c) ==>
              Shows(Perform(node, c, enc).value, FilesAfter(tree, c), dirs + DirsMade(c), enc)
  {
    var q := NamesOf(c.path);
    assert dirs + {} == dirs;
    match c
    case MakeParents(_) =>
      MakeParentsIff(node, tree, dirs, enc, q);
      if !FileAbove(tree, c.path) {
        MakeParentsShows(node, tree, dirs, enc, q);
      }
    case Store(_, f) => StoreIff(node, tree, dirs, enc, q, f);
    case Discard(_) => DiscardShows(node, tree, dirs, enc, q);
  }

  lemma {:induction false} PerformAllIff(node: Node, tree: Tree, dirs: set<Path>, enc: Encoder, calls: seq<Call>)
    requires Shows(node, tree, dirs, enc) && AllNamed(calls) && AllPlaced(tree, dirs, calls)
    ensures PerformAll(node, calls, enc).Some? <==> AllAllowed(tree, dirs, calls)
    ensures AllAllowed(tree, dirs, calls) ==>
              Shows(PerformAll(node, calls, enc).value, AllFiles(tree, calls), dirs + AllMade(calls), enc)
    decreases |calls|
  {
    if calls == [] {
      assert dirs + {} == dirs;
    } else {
      var c := calls[0];
      PerformIff(node, tree, dirs, enc, c);
      if CallAllowed(tree, dirs, c) {
        PerformAllIff(Perform(node, c, enc).value, FilesAfter(tree, c), dirs + DirsMade(c), enc, calls[1..]);
        assert dirs + DirsMade(c) + AllMade(calls[1..]) == dirs + AllMade(calls);
      }
    }
  }

  // ---------------------------------------------------------------- one step of a sync

  function When(b: bool, c: Call): seq<Call> {
    if b then [c] else []
  }

  function FileCall(rel: Path, o: Outcome, env: Env): seq<Call> {
    match o.file
    case Keep => []
    case Write(data) => [Store(rel, File(data, WriteTime(env, rel)))]
    case Delete => [Discard(rel)]
  }

  function CopyCall(rel: Path, o: Outcome, env: Env): seq<Call> {
    var copy := ConflictPath(rel, env.stamp);
    if o.copy.Some? then [Store(copy, File(o.copy.value, WriteTime(env, copy)))] else []
  }

  /** The storage calls of a step that take effect, in their order; a conflict makes the directories twice. */
  function CallsOf(plan: Plan, rel: Path, got: Option<Blob>, o: Outcome, env: Env): (calls: seq<Call>)
    ensures forall c :: c in calls ==> c.path == rel || c.path == ConflictPath(rel, env.stamp)
  {
    var f := FaultFor(env, rel);
    match plan
    case Pull => When(MakesDirectory(Pull, got, f), MakeParents(rel)) + FileCall(rel, o, env)
    case KeepBoth =>
      When(TakesEffect(f, 0), MakeParents(ConflictPath(rel, env.stamp))) + CopyCall(rel, o, env)
      + When(Succeeds(f, 2) && got.Some? && TakesEffect(f, 3), MakeParents(rel)) + FileCall(rel, o, env)
    case DropLocal => FileCall(rel, o, env)
    case _ => []
  }

  /** A conflict copy is beside its file: only the last name is another. */
  lemma CopyHasNames(rel: Path, stamp: string)
    requires HasNames(rel) && PlainStamp(stamp)
    ensures HasNames(ConflictPath(rel, stamp))
  {
    var q := NamesOf(rel);
    LastName(q);
    var name := CopyName(rel, stamp);
    SameParent(q, ConflictPath(rel, stamp), name);
  }

  lemma LastName(q: seq<string>)
    requires q != [] && AreNames(q)
    ensures LastIndexOf(Rel(q), '/') + 1 == |Rel(q)| - |q[|q| - 1]|
  {
    var above, last := Parent(q), q[|q| - 1];
    assert Slashed(q) == Slashed(above) + "/" + last && '/' !in last;
    if above == [] {
      assert Rel(q) == last;
    } else {
      assert Rel(q) == Rel(above) + "/" + last;
      LastIndexUnique(Rel(q), '/', |Rel(above)|);
    }
  }

  lemma CopyName(rel: Path, stamp: string) returns (name: string)
    requires PlainStamp(stamp)
    ensures ConflictPath(rel, stamp) == rel[..LastIndexOf(rel, '/') + 1] + name && IsName(name)
  {
    var copy, slash := ConflictPath(rel, stamp), LastIndexOf(rel, '/');
    name := copy[slash + 1..];
    ConflictPathKeepsDirectory(rel, stamp);
    AfterSlash(copy, slash, name);
    CopyLength(rel, stamp);
  }

  lemma AfterSlash(s: string, slash: int, name: string)
    requires slash == LastIndexOf(s, '/') && name == s[slash + 1..]
    ensures '/' !in name && s == s[..slash + 1] + name
  {
    assert forall k :: slash < k < |s| ==> s[k] != '/';
  }

  lemma CopyLength(rel: Path, stamp: string)
    ensures |ConflictPath(rel, stamp)| > |rel| + 2
  {
    assert |Mark(stamp)| == |" (conflict "| + |stamp| + |")"|;
    assert |ConflictPath(rel, stamp)| == |rel| + |Mark(stamp)|;
  }

  lemma SameParent(q: seq<string>, copy: Path, name: string)
    requires q != [] && AreNames(q) && IsName(name)
    requires copy == Rel(q)[..|Rel(q)| - |q[|q| - 1]|] + name
    ensures HasNames(copy)
  {
    var s := Parent(q) + [name];
    assert Slashed(q) == Slashed(Parent(q)) + "/" + q[|q| - 1];
    assert Parent(s) == Parent(q) && Slashed(s) == Slashed(Parent(q)) + "/" + name;
    assert Rel(s) == copy;
  }

  lemma {:induction false} CallsConcat(tree: Tree, dirs: set<Path>, a: seq<Call>, b: seq<Call>)
    ensures var mid, made := AllFiles(tree, a), dirs + AllMade(a);
            && (AllAllowed(tree, dirs, a + b) <==> AllAllowed(tree, dirs, a) && AllAllowed(mid, made, b))
            && (AllPlaced(tree, dirs, a + b) <==> AllPlaced(tree, dirs, a) && AllPlaced(mid, made, b))
            && AllFiles(tree, a + b) == AllFiles(mid, b) && AllMade(a + b) == AllMade(a) + AllMade(b)
    decreases |a|
  {
    if a == [] {
      assert a + b == b && dirs + {} == dirs;
    } else {
      assert (a + b)[1..] == a[1..] + b;
      CallsConcat(FilesAfter(tree, a[0]), dirs + DirsMade(a[0]), a[1..], b);
      assert dirs + DirsMade(a[0]) + AllMade(a[1..]) == dirs + AllMade(a);
    }
  }

  lemma MakeThenFile(tree: Tree, dirs: set<Path>, made: bool, rel: Path, o: Outcome, env: Env)
    requires (o.file.Write? ==> made) && (o.file.Delete? ==> rel in tree) && o.copy.None?
    ensures var calls := When(made, MakeParents(rel)) + FileCall(rel, o, env);
            && AllPlaced(tree, dirs, calls) && AllFiles(tree, calls) == ApplyFile(tree, rel, o, env)
            && AllMade(calls) == (if made then Ancestors(rel) else {})
            && (AllAllowed(tree, dirs, calls) <==> (made ==> !FileAbove(tree, rel)) && (o.file.Write? ==> rel !in dirs))
  {
    CallsConcat(tree, dirs, When(made, MakeParents(rel)), FileCall(rel, o, env));
  }

  lemma MakeThenCopy(tree: Tree, dirs: set<Path>, made: bool, rel: Path, o: Outcome, env: Env)
    requires (o.copy.Some? ==> made) && PlainStamp(env.stamp)
    ensures var copy := ConflictPath(rel, env.stamp);
            var calls := When(made, MakeParents(copy)) + CopyCall(rel, o, env);
            && AllPlaced(tree, dirs, calls) && AllFiles(tree, calls) == ApplyFile(tree, rel, o.(file := Keep), env)
            && AllMade(calls) == (if made then Ancestors(rel) else {})
            && (AllAllowed(tree, dirs, calls) <==> (made ==> !FileAbove(tree, rel)) && (o.copy.Some? ==> copy !in dirs))
  {
    var copy := ConflictPath(rel, env.stamp);
    SameAncestors(rel, env.stamp, tree, File(Raw([]), 0));
    CallsConcat(tree, dirs, When(made, MakeParents(copy)), CopyCall(rel, o, env));
  }

  /** A copy beside the file is not in the way of it. */
  lemma CopyNotInTheWay(tree: Tree, rel: Path, o: Outcome, env: Env)
    requires PlainStamp(env.stamp)
    ensures FileAbove(ApplyFile(tree, rel, o.(file := Keep), env), rel) <==> FileAbove(tree, rel)
  {
    if o.copy.Some? {
      var cp := ConflictPath(rel, env.stamp);
      SameAncestors(rel, env.stamp, tree, File(o.copy.value, WriteTime(env, cp)));
    }
  }

  lemma ConflictCallsIff(tree: Tree, dirs: set<Path>, made: bool, again: bool, rel: Path, o: Outcome, env: Env)
    requires PlainStamp(env.stamp) && (o.copy.Some? || again ==> made) && (o.file.Write? ==> again) && !o.file.Delete?
    ensures var copy := ConflictPath(rel, env.stamp);
            var calls := When(made, MakeParents(copy)) + CopyCall(rel, o, env) + When(again, MakeParents(rel))
                         + FileCall(rel, o, env);
            && AllPlaced(tree, dirs, calls) && AllFiles(tree, calls) == ApplyFile(tree, rel, o, env)
            && AllMade(calls) == (if made then Ancestors(rel) else {})
            && (AllAllowed(tree, dirs, calls) <==>
                && (made ==> !FileAbove(tree, rel)) && (o.copy.Some? ==> copy !in dirs)
                && (o.file.Write? ==> rel !in dirs))
  {
    var first := When(made, MakeParents(ConflictPath(rel, env.stamp))) + CopyCall(rel, o, env);
    var second := When(again, MakeParents(rel)) + FileCall(rel, o, env);
    var mid := ApplyFile(tree, rel, o.(file := Keep), env);
    MakeThenCopy(tree, dirs, made, rel, o, env);
    CopyNotInTheWay(tree, rel, o, env);
    MakeThenFile(mid, dirs + AllMade(first), again, rel, o.(copy := None), env);
    CallsConcat(tree, dirs, first, second);
    assert first + second == first + When(again, MakeParents(rel)) + FileCall(rel, o, env);
  }

  /** What the calls of a step rely on. */
  predicate Fits(plan: Plan, got: Option<Blob>, o: Outcome, f: Fault, local: bool) {
    match plan
    case Pull => o.copy.None? && !o.file.Delete? && (o.file.Write? ==> MakesDirectory(Pull, got, f))
    case KeepBoth =>
      && (o.copy.Some? ==> TakesEffect(f, 0)) && !o.file.Delete?
      && (o.file.Write? ==> Succeeds(f, 2) && got.Some? && TakesEffect(f, 3))
    case DropLocal => o.copy.None? && !o.file.Write? && local
    case _ => o.copy.None? && o.file.Keep?
  }

  lemma OutcomeFits(key: string, rel: Path, l: Option<File>, r: Option<Entry>, s: Option<Base>,
                    got: Option<Blob>, env: Env)
    ensures Fits(Classify(l, r, s, env.now), got, Decide(key, rel, l, r, s, got, env), FaultFor(env, rel), l.Some?)
  {
    var plan := Classify(l, r, s, env.now);
    assert Applies(plan, l, r);
  }

  /** The calls of one step are accepted exactly if the storage model allows it, and do what it says. */
  lemma StepCallsIff(tree: Tree, dirs: set<Path>, plan: Plan, rel: Path, got: Option<Blob>, o: Outcome, env: Env)
    requires PlainStamp(env.stamp) && Fits(plan, got, o, FaultFor(env, rel), rel in tree)
    ensures var calls := CallsOf(plan, rel, got, o, env);
            && AllPlaced(tree, dirs, calls) && AllFiles(tree, calls) == ApplyFile(tree, rel, o, env)
            && AllMade(calls) == Made(plan, rel, got, FaultFor(env, rel))
            && (AllAllowed(tree, dirs, calls) <==> Allowed(tree, dirs, rel, plan, got, o, env))
  {
    var f := FaultFor(env, rel);
    match plan
    case Pull => MakeThenFile(tree, dirs, MakesDirectory(Pull, got, f), rel, o, env);
    case KeepBoth =>
      var again := Succeeds(f, 2) && got.Some? && TakesEffect(f, 3);
      ConflictCallsIff(tree, dirs, TakesEffect(f, 0), again, rel, o, env);
    case DropLocal =>
      MakeThenFile(tree, dirs, false, rel, o, env);
      assert When(false, MakeParents(rel)) + FileCall(rel, o, env) == FileCall(rel, o, env);
    case _ =>
  }

  // ---------------------------------------------------------------- the steps of a sync

  /** The tree after the calls of one step after the other, if all are accepted. */
  ghost function PerformSteps(node: Node, steps: seq<seq<Call>>, enc: Encoder): Option<Node>
    requires forall calls :: calls in steps ==> AllNamed(calls)
    decreases |steps|
  {
    if steps == [] then Some(node)
    else
      var before := PerformSteps(node, steps[..|steps| - 1], enc);
      if before.None? then None else PerformAll(before.value, steps[|steps| - 1], enc)
  }

  predicate Leads(tree: Tree, dirs: set<Path>, calls: seq<Call>, tree': Tree, dirs': set<Path>) {
    AllPlaced(tree, dirs, calls) && tree' == AllFiles(tree, calls) && dirs' == dirs + AllMade(calls)
  }

  /** These are the files and directories before each step and at the end. */
  ghost predicate Linked(trees: seq<Tree>, dirs: seq<set<Path>>, steps: seq<seq<Call>>) {
    && |trees| == |dirs| == |steps| + 1
    && forall k {:trigger steps[k]} :: 0 <= k < |steps| ==>
         Leads(trees[k], dirs[k], steps[k], trees[k + 1], dirs[k + 1])
  }

  ghost predicate StepsAllowed(trees: seq<Tree>, dirs: seq<set<Path>>, steps: seq<seq<Call>>)
    requires |trees| == |dirs| == |steps| + 1
  {
    forall k {:trigger steps[k]} :: 0 <= k < |steps| ==> AllAllowed(trees[k], dirs[k], steps[k])
  }

  lemma LinkedFront(trees: seq<Tree>, dirs: seq<set<Path>>, steps: seq<seq<Call>>)
    requires Linked(trees, dirs, steps) && steps != []
    ensures var n := |steps| - 1;
            && Linked(trees[..n + 1], dirs[..n + 1], steps[..n])
            && (StepsAllowed(trees, dirs, steps) <==>
                StepsAllowed(trees[..n + 1], dirs[..n + 1], steps[..n]) && AllAllowed(trees[n], dirs[n], steps[n]))
  {
    var n := |steps| - 1;
    assert forall k :: 0 <= k < n ==> steps[..n][k] == steps[k];
    if StepsAllowed(trees[..n + 1], dirs[..n + 1], steps[..n]) && AllAllowed(trees[n], dirs[n], steps[n]) {
      forall k {:trigger steps[k]} | 0 <= k < |steps| ensures AllAllowed(trees[k], dirs[k], steps[k]) {
        assert k < n ==> AllAllowed(trees[..n + 1][k], dirs[..n + 1][k], steps[..n][k]);
      }
    }
  }

  lemma {:induction false} PerformStepsIff(node: Node, trees: seq<Tree>, dirs: seq<set<Path>>, enc: Encoder,
                                           steps: seq<seq<Call>>)
    requires forall calls :: calls in steps ==> AllNamed(calls)
    requires Linked(trees, dirs, steps) && Shows(node, trees[0], dirs[0], enc)
    ensures var after := PerformSteps(node, steps, enc);
            && (after.Some? <==> StepsAllowed(trees, dirs, steps))
            && (after.Some? ==> Shows(after.value, trees[|steps|], dirs[|steps|], enc))
    decreases |steps|
  {
    if steps != [] {
      var n := |steps| - 1;
      LinkedFront(trees, dirs, steps);
      PerformStepsIff(node, trees[..n + 1], dirs[..n + 1], enc, steps[..n]);
      var before := PerformSteps(node, steps[..n], enc);
      if before.Some? {
        PerformAllIff(before.value, trees[n], dirs[n], enc, steps[n]);
      }
    }
  }

  // ---------------------------------------------------------------- a whole sync

  ghost function StepCalls(dev: Device, blobs: Blobs, env: Env, k: nat): (calls: seq<Call>)
    requires k < |env.order|
    ensures forall c :: c in calls ==> c.path == env.order[k] || c.path == ConflictPath(env.order[k], env.stamp)
  {
    var p := env.order[k];
    var plan, o := PlanFor(ViewOf(dev, blobs, env), env, p), LoopOutcomes(dev, blobs, env)[k];
    CallsOf(plan, p, GotBefore(dev, blobs, env, k), o, env)
  }

  ghost function CallsOfSync(dev: Device, blobs: Blobs, env: Env): (steps: seq<seq<Call>>)
    ensures |steps| == |env.order|
  {
    seq(|env.order|, k requires 0 <= k < |env.order| => StepCalls(dev, blobs, env, k))
  }

  /** The files it meets have names a path can be made of. */
  ghost predicate OrderNamed(env: Env) {
    PlainStamp(env.stamp) && forall p :: p in env.order ==> HasNames(p)
  }

  lemma StepsNamed(dev: Device, blobs: Blobs, env: Env)
    requires OrderNamed(env)
    ensures forall calls :: calls in CallsOfSync(dev, blobs, env) ==> AllNamed(calls)
  {
    forall k | 0 <= k < |env.order| ensures AllNamed(StepCalls(dev, blobs, env, k)) {
      CopyHasNames(env.order[k], env.stamp);
    }
  }

  ghost function TreesOf(dev: Device, blobs: Blobs, env: Env): (trees: seq<Tree>)
    ensures |trees| == |env.order| + 1
  {
    seq(|env.order| + 1, k requires 0 <= k <= |env.order| => AccBefore(dev, blobs, env, k).tree)
  }

  ghost function DirsOf(dev: Device, dirs: set<Path>, blobs: Blobs, env: Env): (made: seq<set<Path>>)
    ensures |made| == |env.order| + 1
  {
    seq(|env.order| + 1, k requires 0 <= k <= |env.order| => DirsBefore(dev, dirs, blobs, env, k))
  }

  /** Until its own step a file is there. */
  lemma {:induction false} ThereBefore(dev: Device, blobs: Blobs, env: Env, k: nat, p: Path)
    requires k <= |env.order| && p in dev.tree && p !in env.order[..k]
    ensures p in AccBefore(dev, blobs, env, k).tree
  {
    if k > 0 {
      assert env.order[..k] == env.order[..k - 1] + [env.order[k - 1]];
      ThereBefore(dev, blobs, env, k - 1, p);
      ApplyStep(dev, blobs, env, k - 1);
    }
  }

  lemma StepLinks(dev: Device, dirs: set<Path>, blobs: Blobs, env: Env, k: nat, tree: Tree, before: set<Path>,
                  calls: seq<Call>, tree': Tree, after: set<Path>)
    requires Enumerates(env, ViewOf(dev, blobs, env)) && PlainStamp(env.stamp) && k < |env.order|
    requires tree == AccBefore(dev, blobs, env, k).tree && before == DirsBefore(dev, dirs, blobs, env, k)
    requires tree' == AccBefore(dev, blobs, env, k + 1).tree && after == DirsBefore(dev, dirs, blobs, env, k + 1)
    requires calls == StepCalls(dev, blobs, env, k)
    ensures Leads(tree, before, calls, tree', after)
    ensures AllAllowed(tree, before, calls) <==> StepAllowed(dev, dirs, blobs, env, k)
  {
    var v, p := ViewOf(dev, blobs, env), env.order[k];
    StepIs(dev, blobs, env, k);
    ApplyStep(dev, blobs, env, k);
    OwnFileThere(dev, blobs, env, k);
    OutcomeFits(dev.key, p, Lookup(v.locals, p), Lookup(v.remote, p), Lookup(v.saved, p),
                GotBefore(dev, blobs, env, k), env);
    StepCallsIff(tree, before, PlanFor(v, env, p), p, GotBefore(dev, blobs, env, k),
                 LoopOutcomes(dev, blobs, env)[k], env);
  }

  lemma OwnFileThere(dev: Device, blobs: Blobs, env: Env, k: nat)
    requires Enumerates(env, ViewOf(dev, blobs, env)) && k < |env.order|
    ensures Lookup(ViewOf(dev, blobs, env).locals, env.order[k]).Some? ==>
              env.order[k] in AccBefore(dev, blobs, env, k).tree
  {
    if env.order[k] in dev.tree {
      ThereBefore(dev, blobs, env, k, env.order[k]);
    }
  }

  lemma SyncLinked(dev: Device, dirs: set<Path>, blobs: Blobs, env: Env, trees: seq<Tree>, made: seq<set<Path>>,
                   steps: seq<seq<Call>>)
    requires Enumerates(env, ViewOf(dev, blobs, env)) && PlainStamp(env.stamp)
    requires trees == TreesOf(dev, blobs, env) && made == DirsOf(dev, dirs, blobs, env)
    requires steps == CallsOfSync(dev, blobs, env)
    ensures Linked(trees, made, steps) && (Possible(dev, dirs, blobs, env) <==> StepsAllowed(trees, made, steps))
  {
    forall k {:trigger steps[k]} | 0 <= k < |steps|
      ensures Leads(trees[k], made[k], steps[k], trees[k + 1], made[k + 1])
      ensures AllAllowed(trees[k], made[k], steps[k]) <==> StepAllowed(dev, dirs, blobs, env, k)
    {
      StepLinks(dev, dirs, blobs, env, k, trees[k], made[k], steps[k], trees[k + 1], made[k + 1]);
    }
    if StepsAllowed(trees, made, steps) {
      forall k | 0 <= k < |steps| ensures StepAllowed(dev, dirs, blobs, env, k) {
        assert AllAllowed(trees[k], made[k], steps[k]);
      }
    }
  }

  lemma SyncEnds(dev: Device, dirs: set<Path>, blobs: Blobs, env: Env)
    ensures var n := |env.order|;
            && TreesOf(dev, blobs, env)[0] == dev.tree && DirsOf(dev, dirs, blobs, env)[0] == dirs
            && TreesOf(dev, blobs, env)[n] == Sync(dev, blobs, env).device.tree
            && DirsOf(dev, dirs, blobs, env)[n] == DirsAfter(dev, dirs, blobs, env)
  {
    var os := LoopOutcomes(dev, blobs, env);
    assert os[..|env.order|] == os && os[..0] == [];
  }

  /**
   The storage calls of a sync, failed ones that take no effect left out, are all accepted by the tree exactly if the
   storage model allows the sync; then the tree shows the files, with their contents, and the directories afterwards.
   */
  lemma SyncOnTreeIff(node: Node, dev: Device, dirs: set<Path>, blobs: Blobs, env: Env, enc: Encoder)
    requires Enumerates(env, ViewOf(dev, blobs, env)) && OrderNamed(env) && Shows(node, dev.tree, dirs, enc)
    ensures forall calls :: calls in CallsOfSync(dev, blobs, env) ==> AllNamed(calls)
    ensures var after := PerformSteps(node, CallsOfSync(dev, blobs, env), enc);
            && (after.Some? <==> Possible(dev, dirs, blobs, env))
            && (after.Some? ==> Shows(after.value, Sync(dev, blobs, env).device.tree,
                                      DirsAfter(dev, dirs, blobs, env), enc))
  {
    StepsNamed(dev, blobs, env);
    var trees, made, steps := TreesOf(dev, blobs, env), DirsOf(dev, dirs, blobs, env), CallsOfSync(dev, blobs, env);
    SyncLinked(dev, dirs, blobs, env, trees, made, steps);
    SyncEnds(dev, dirs, blobs, env);
    PerformStepsIff(node, trees, made, enc, steps);
  }
}
