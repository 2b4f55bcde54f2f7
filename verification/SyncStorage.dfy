/**
 The storage under a sync: a file cannot be written below another file or where a directory is, and directories stay
 when their files go. Which runs of the model the storage allows, and when an error-free one is among them.
 */
module SyncStorage {
  import opened Options
  import opened Text
  import opened ConflictNames
  import opened SyncModel
  import opened SyncSteps
  import opened SyncConvergence
  import opened SyncSurvival

  // ---------------------------------------------------------------- files and directories

  /** `a` is a directory on the way to `p`. */
  predicate Above(a: Path, p: Path) {
    |a| < |p| && a == p[..|a|] && p[|a|] == '/'
  }

  function Ancestors(p: Path): (dirs: set<Path>)
    ensures forall a :: a in dirs <==> Above(a, p)
  {
    set i | 0 <= i < |p| && p[i] == '/' :: p[..i]
  }

  predicate FileAbove(tree: Tree, p: Path) {
    exists a :: a in tree && Above(a, p)
  }

  /** No file is a directory, and everything on the way to a file is one. */
  ghost predicate ValidDisk(tree: Tree, dirs: set<Path>) {
    && (forall p :: p in tree ==> p !in dirs)
    && (forall a, p :: p in tree && Above(a, p) ==> a in dirs)
  }

  /** A conflict copy has the same directories above it as its file. */
  lemma CopyHasSameAncestors(rel: Path, stamp: string, a: Path)
    requires PlainStamp(stamp)
    ensures Above(a, ConflictPath(rel, stamp)) <==> Above(a, rel)
  {
    var c, slash := ConflictPath(rel, stamp), LastIndexOf(rel, '/');
    ConflictPathKeepsDirectory(rel, stamp);
    if Above(a, c) {
      assert |a| <= slash;
      assert a == c[..slash + 1][..|a|];
    }
    if Above(a, rel) {
      assert |a| <= slash;
      assert a == rel[..slash + 1][..|a|];
    }
  }

  lemma SameAncestors(rel: Path, stamp: string, tree: Tree, copy: File)
    requires PlainStamp(stamp)
    ensures Ancestors(ConflictPath(rel, stamp)) == Ancestors(rel)
    ensures FileAbove(tree, ConflictPath(rel, stamp)) <==> FileAbove(tree, rel)
    ensures FileAbove(tree[ConflictPath(rel, stamp) := copy], rel) <==> FileAbove(tree, rel)
  {
    forall a ensures Above(a, ConflictPath(rel, stamp)) <==> Above(a, rel) {
      CopyHasSameAncestors(rel, stamp, a);
    }
    CopyIsElsewhere(rel, stamp);
    assert forall a :: a in tree ==> a in tree[ConflictPath(rel, stamp) := copy];
  }

  // ---------------------------------------------------------------- one step

  /** The step makes the directories above its file: the call for it takes effect. */
  predicate MakesDirectory(plan: Plan, got: Option<Blob>, f: Fault) {
    match plan
    case Pull => Succeeds(f, 0) && got.Some? && TakesEffect(f, 1)
    case KeepBoth => TakesEffect(f, 0)
    case _ => false
  }

  function Made(plan: Plan, rel: Path, got: Option<Blob>, f: Fault): set<Path> {
    if MakesDirectory(plan, got, f) then Ancestors(rel) else {}
  }

  /** What takes effect had nothing in its way: no file above a new directory, no directory where a file is written. */
  predicate Allowed(tree: Tree, dirs: set<Path>, rel: Path, plan: Plan, got: Option<Blob>, o: Outcome, env: Env) {
    && (MakesDirectory(plan, got, FaultFor(env, rel)) ==> !FileAbove(tree, rel))
    && (o.copy.Some? ==> ConflictPath(rel, env.stamp) !in dirs)
    && (o.file.Write? ==> rel !in dirs)
  }

  /** A step writes a copy or a file only after it has made the directories above it. */
  lemma WritesAfterMkdir(key: string, rel: Path, l: Option<File>, r: Option<Entry>, s: Option<Base>,
                         got: Option<Blob>, env: Env)
    ensures var plan, o := Classify(l, r, s, env.now), Decide(key, rel, l, r, s, got, env);
            && (o.copy.Some? || o.file.Write? ==> MakesDirectory(plan, got, FaultFor(env, rel)))
            && (o.copy.Some? ==> plan == KeepBoth)
            && (o.file.Write? ==> plan == Pull || plan == KeepBoth)
            && (o.file.Delete? ==> plan == DropLocal)
  {
    var plan := Classify(l, r, s, env.now);
    assert Applies(plan, l, r);
  }

  lemma StepKeepsValid(tree: Tree, dirs: set<Path>, rel: Path, plan: Plan, got: Option<Blob>, o: Outcome, env: Env)
    requires ValidDisk(tree, dirs) && Allowed(tree, dirs, rel, plan, got, o, env) && PlainStamp(env.stamp)
    requires o.copy.Some? || o.file.Write? ==> MakesDirectory(plan, got, FaultFor(env, rel))
    ensures ValidDisk(ApplyFile(tree, rel, o, env), dirs + Made(plan, rel, got, FaultFor(env, rel)))
  {
    var next, copy := ApplyFile(tree, rel, o, env), ConflictPath(rel, env.stamp);
    CopyIsElsewhere(rel, env.stamp);
    forall p | p in next ensures p in tree || (p == rel && o.file.Write?) || (p == copy && o.copy.Some?) {
    }
    forall a ensures Above(a, copy) <==> Above(a, rel) {
      CopyHasSameAncestors(rel, env.stamp, a);
    }
  }

  // ---------------------------------------------------------------- the loop

  ghost function PlanFor(v: View, env: Env, p: Path): Plan {
    Classify(Lookup(v.locals, p), Lookup(v.remote, p), Lookup(v.saved, p), env.now)
  }

  /** The loop state before the path at `k` is processed. */
  ghost function AccBefore(dev: Device, blobs: Blobs, env: Env, k: nat): Acc
    requires k <= |env.order|
  {
    Replay(dev.key, Start(ViewOf(dev, blobs, env), dev.tree, blobs), env, LoopOutcomes(dev, blobs, env)[..k])
  }

  /** What the relay holds for the entry of the path at `k` then. */
  ghost function GotBefore(dev: Device, blobs: Blobs, env: Env, k: nat): Option<Blob>
    requires k < |env.order|
  {
    var r := Lookup(FetchEntries(blobs, dev.key), env.order[k]);
    if r.Some? then Lookup(AccBefore(dev, blobs, env, k).blobs, r.value.b) else None
  }

  lemma StepIs(dev: Device, blobs: Blobs, env: Env, k: nat)
    requires k < |env.order|
    ensures var v, p := ViewOf(dev, blobs, env), env.order[k];
            LoopOutcomes(dev, blobs, env)[k] ==
            Decide(dev.key, p, Lookup(v.locals, p), Lookup(v.remote, p), Lookup(v.saved, p),
                   GotBefore(dev, blobs, env, k), env)
  {
    var v := ViewOf(dev, blobs, env);
    OutcomeIs(dev.key, Decider(v, env), Start(v, dev.tree, blobs), env, |env.order|, k);
  }

  /** The directories then: those of the start and those the loop has made. */
  ghost function DirsBefore(dev: Device, dirs: set<Path>, blobs: Blobs, env: Env, k: nat): set<Path>
    requires k <= |env.order|
  {
    if k == 0 then dirs
    else
      var p := env.order[k - 1];
      DirsBefore(dev, dirs, blobs, env, k - 1)
      + Made(PlanFor(ViewOf(dev, blobs, env), env, p), p, GotBefore(dev, blobs, env, k - 1), FaultFor(env, p))
  }

  ghost function DirsAfter(dev: Device, dirs: set<Path>, blobs: Blobs, env: Env): set<Path> {
    DirsBefore(dev, dirs, blobs, env, |env.order|)
  }

  ghost predicate StepAllowed(dev: Device, dirs: set<Path>, blobs: Blobs, env: Env, k: nat)
    requires k < |env.order|
  {
    var p := env.order[k];
    Allowed(AccBefore(dev, blobs, env, k).tree, DirsBefore(dev, dirs, blobs, env, k), p,
            PlanFor(ViewOf(dev, blobs, env), env, p), GotBefore(dev, blobs, env, k),
            LoopOutcomes(dev, blobs, env)[k], env)
  }

  /**
   The storage lets the sync happen as the environment says: `env` has a fault wherever the storage throws, besides
   those it has for other reasons.
   */
  ghost predicate Possible(dev: Device, dirs: set<Path>, blobs: Blobs, env: Env) {
    forall k :: 0 <= k < |env.order| ==> StepAllowed(dev, dirs, blobs, env, k)
  }

  lemma ApplyStep(dev: Device, blobs: Blobs, env: Env, k: nat)
    requires k < |env.order|
    ensures AccBefore(dev, blobs, env, k + 1) ==
            Apply(dev.key, AccBefore(dev, blobs, env, k), env.order[k], LoopOutcomes(dev, blobs, env)[k], env)
  {
    var os := LoopOutcomes(dev, blobs, env);
    assert os[..k + 1][..k] == os[..k];
  }

  /** Whatever fails: the files stay files and the directories directories. */
  lemma {:induction false} ValidBefore(dev: Device, dirs: set<Path>, blobs: Blobs, env: Env, k: nat)
    requires k <= |env.order| && PlainStamp(env.stamp)
    requires ValidDisk(dev.tree, dirs) && Possible(dev, dirs, blobs, env)
    ensures ValidDisk(AccBefore(dev, blobs, env, k).tree, DirsBefore(dev, dirs, blobs, env, k))
  {
    if k > 0 {
      var v, p, got := ViewOf(dev, blobs, env), env.order[k - 1], GotBefore(dev, blobs, env, k - 1);
      ValidBefore(dev, dirs, blobs, env, k - 1);
      ApplyStep(dev, blobs, env, k - 1);
      StepIs(dev, blobs, env, k - 1);
      WritesAfterMkdir(dev.key, p, Lookup(v.locals, p), Lookup(v.remote, p), Lookup(v.saved, p), got, env);
      assert StepAllowed(dev, dirs, blobs, env, k - 1);
      StepKeepsValid(AccBefore(dev, blobs, env, k - 1).tree, DirsBefore(dev, dirs, blobs, env, k - 1), p,
                     PlanFor(v, env, p), got, LoopOutcomes(dev, blobs, env)[k - 1], env);
    }
  }

  lemma ValidAfter(dev: Device, dirs: set<Path>, blobs: Blobs, env: Env)
    requires PlainStamp(env.stamp) && ValidDisk(dev.tree, dirs) && Possible(dev, dirs, blobs, env)
    ensures ValidDisk(LoopEnd(dev, blobs, env).tree, DirsAfter(dev, dirs, blobs, env))
  {
    var os := LoopOutcomes(dev, blobs, env);
    ValidBefore(dev, dirs, blobs, env, |env.order|);
    assert os[..|env.order|] == os;
  }

  // ---------------------------------------------------------------- error-free syncs

  /** The sync writes a file that is not there yet. */
  ghost predicate Pulled(v: View, env: Env, p: Path) {
    PlanFor(v, env, p) == Pull && p !in v.locals
  }

  ghost predicate Dropped(v: View, env: Env, p: Path) {
    PlanFor(v, env, p) == DropLocal
  }

  ghost predicate Writes(v: View, env: Env, p: Path) {
    PlanFor(v, env, p) == Pull || PlanFor(v, env, p) == KeepBoth
  }

  /** The engine's order: the walked files come before what only the manifest names. */
  ghost predicate LocalsFirst(env: Env, tree: Tree) {
    forall i, j :: 0 <= i < j < |env.order| && env.order[j] in tree ==> env.order[i] in tree
  }

  /** The sync writes a conflict copy of this name. */
  ghost predicate IsCopy(v: View, env: Env, x: Path) {
    exists q :: q in env.order && Overtaken(v, env, q) && ConflictPath(q, env.stamp) == x
  }

  /**
   Known before the sync: no file to be pulled is a directory, or lies below a file that stays, a conflict copy or
   another file to be pulled; no conflict copy is a directory.
   */
  ghost predicate Clear(v: View, dirs: set<Path>, env: Env) {
    && (forall p :: Pulled(v, env, p) ==> p !in dirs)
    && (forall a, p :: Pulled(v, env, p) && Above(a, p) ==>
          !Pulled(v, env, a) && !IsCopy(v, env, a) && (a in v.locals ==> Dropped(v, env, a)))
    && (forall c :: IsCopy(v, env, c) ==> c !in dirs)
  }

  lemma CalmStepDoes(dev: Device, blobs: Blobs, env: Env, k: nat)
    requires Calm(dev, blobs, env) && Sound(dev, blobs) && k < |env.order|
    ensures var v, p, o := ViewOf(dev, blobs, env), env.order[k], LoopOutcomes(dev, blobs, env)[k];
            && (o.file.Write? <==> Writes(v, env, p))
            && (o.file.Delete? <==> Dropped(v, env, p))
            && (o.copy.Some? <==> Overtaken(v, env, p))
            && (MakesDirectory(PlanFor(v, env, p), GotBefore(dev, blobs, env, k), FaultFor(env, p)) <==>
                Writes(v, env, p))
  {
    var v, p := ViewOf(dev, blobs, env), env.order[k];
    StepIs(dev, blobs, env, k);
    BlobsAfter(dev.key, Start(v, dev.tree, blobs), env, LoopOutcomes(dev, blobs, env)[..k]);
    CalmDecision(dev.key, p, Lookup(v.locals, p), Lookup(v.remote, p), Lookup(v.saved, p),
                 GotBefore(dev, blobs, env, k), env);
  }

  lemma CalmDecision(key: string, p: Path, l: Option<File>, r: Option<Entry>, s: Option<Base>,
                     got: Option<Blob>, env: Env)
    requires env.faults == map[]
    requires r.Some? ==> got.Some? && got.value.Sealed?
    ensures var plan, o := Classify(l, r, s, env.now), Decide(key, p, l, r, s, got, env);
            && (o.file.Write? <==> plan == Pull || plan == KeepBoth)
            && (o.file.Delete? <==> plan == DropLocal)
            && (o.copy.Some? <==> plan == KeepBoth)
            && (MakesDirectory(plan, got, FaultFor(env, p)) <==> plan == Pull || plan == KeepBoth)
  {
    var plan := Classify(l, r, s, env.now);
    assert Applies(plan, l, r) && FaultFor(env, p) == NoFault;
  }

  /** What one step does to the set of files. */
  lemma FilesStep(dev: Device, blobs: Blobs, env: Env, k: nat, x: Path)
    requires Calm(dev, blobs, env) && Sound(dev, blobs) && k < |env.order|
    ensures var v, p := ViewOf(dev, blobs, env), env.order[k];
            x in AccBefore(dev, blobs, env, k + 1).tree <==>
            || (x == p && Writes(v, env, p))
            || (x == ConflictPath(p, env.stamp) && Overtaken(v, env, p))
            || (x in AccBefore(dev, blobs, env, k).tree && (x == p ==> !Dropped(v, env, p)))
  {
    ApplyStep(dev, blobs, env, k);
    CalmStepDoes(dev, blobs, env, k);
    FilesApplied(AccBefore(dev, blobs, env, k).tree, env.order[k], LoopOutcomes(dev, blobs, env)[k], env, x);
  }

  lemma FilesApplied(tree: Tree, p: Path, o: Outcome, env: Env, x: Path)
    ensures x in ApplyFile(tree, p, o, env) <==>
            || (x == p && o.file.Write?)
            || (x == ConflictPath(p, env.stamp) && o.copy.Some?)
            || (x in tree && (x == p ==> !o.file.Delete?))
  {
    CopyIsElsewhere(p, env.stamp);
  }

  // The history of one sync: the files, or the directories, before each step and at the end.

  ghost function FileHistory(dev: Device, blobs: Blobs, env: Env): (h: seq<set<Path>>)
    ensures |h| == |env.order| + 1
  {
    seq(|env.order| + 1, k requires 0 <= k <= |env.order| => AccBefore(dev, blobs, env, k).tree.Keys)
  }

  /** What the step at `k` does to `x`. */
  ghost predicate Follows(h: seq<set<Path>>, v: View, env: Env, k: nat, x: Path)
    requires k < |env.order| && |h| == |env.order| + 1
  {
    var p := env.order[k];
    x in h[k + 1] <==>
    || (x == p && Writes(v, env, p))
    || (x == ConflictPath(p, env.stamp) && Overtaken(v, env, p))
    || (x in h[k] && (x == p ==> !Dropped(v, env, p)))
  }

  ghost predicate FilesFollow(h: seq<set<Path>>, v: View, env: Env) {
    && |h| == |env.order| + 1 && h[0] == v.locals.Keys
    && forall k, x {:trigger x in h[k + 1]} :: 0 <= k < |env.order| ==> Follows(h, v, env, k, x)
  }

  lemma HistoryStep(dev: Device, blobs: Blobs, env: Env, k: nat, x: Path)
    requires Calm(dev, blobs, env) && Sound(dev, blobs) && k < |env.order|
    ensures Follows(FileHistory(dev, blobs, env), ViewOf(dev, blobs, env), env, k, x)
  {
    FilesStep(dev, blobs, env, k, x);
  }

  lemma HistoryFollows(dev: Device, blobs: Blobs, env: Env)
    requires Calm(dev, blobs, env) && Sound(dev, blobs)
    ensures FilesFollow(FileHistory(dev, blobs, env), ViewOf(dev, blobs, env), env)
  {
    var h, v := FileHistory(dev, blobs, env), ViewOf(dev, blobs, env);
    forall k, x | 0 <= k < |env.order| ensures Follows(h, v, env, k, x) {
      HistoryStep(dev, blobs, env, k, x);
    }
    HistoryStart(dev, blobs, env);
    AllFollow(h, v, env);
  }

  lemma HistoryStart(dev: Device, blobs: Blobs, env: Env)
    ensures FileHistory(dev, blobs, env)[0] == dev.tree.Keys
  {
    assert LoopOutcomes(dev, blobs, env)[..0] == [];
  }

  lemma AllFollow(h: seq<set<Path>>, v: View, env: Env)
    requires |h| == |env.order| + 1 && h[0] == v.locals.Keys
    requires forall k, x :: 0 <= k < |env.order| ==> Follows(h, v, env, k, x)
    ensures FilesFollow(h, v, env)
  {
    forall k, x {:trigger x in h[k + 1]} | 0 <= k < |env.order| ensures Follows(h, v, env, k, x) {
    }
  }

  /** A file stays until its own step drops it. */
  lemma {:induction false} FileStays(h: seq<set<Path>>, v: View, env: Env, i: nat, k: nat, x: Path)
    requires FilesFollow(h, v, env) && i <= k <= |env.order| && x in h[i]
    requires !Dropped(v, env, x) || forall j :: i <= j < k ==> env.order[j] != x
    ensures x in h[k]
    decreases k
  {
    if i < k {
      var n := k - 1;
      FileStays(h, v, env, i, n, x);
      assert x in h[n + 1];
    }
  }

  /** Where a file comes from. */
  lemma {:induction false} FileOrigin(h: seq<set<Path>>, v: View, env: Env, k: nat, x: Path)
    requires FilesFollow(h, v, env) && k <= |env.order| && x in h[k]
    ensures x in v.locals || Pulled(v, env, x) || IsCopy(v, env, x)
  {
    if k > 0 {
      var n := k - 1;
      assert x in h[n + 1];
      if x in h[n] {
        FileOrigin(h, v, env, n, x);
      } else if x == env.order[n] {
        assert Writes(v, env, x);
      }
    }
  }

  /** A dropped file is there only until its step. */
  lemma {:induction false} DroppedIsGone(h: seq<set<Path>>, v: View, env: Env, j: nat, k: nat, x: Path)
    requires FilesFollow(h, v, env) && Orderly(env) && j < k <= |env.order| && env.order[j] == x
    requires Dropped(v, env, x)
    ensures x !in h[k]
    decreases k
  {
    var n := k - 1;
    if j < n {
      DroppedIsGone(h, v, env, j, n, x);
    }
    NoCopyInOrder(env, env.order[n]);
    assert x !in h[n + 1];
  }

  /** The directories before the path at `k`. */
  ghost function DirHistory(dev: Device, dirs: set<Path>, blobs: Blobs, env: Env): (d: seq<set<Path>>)
    ensures |d| == |env.order| + 1
  {
    seq(|env.order| + 1, k requires 0 <= k <= |env.order| => DirsBefore(dev, dirs, blobs, env, k))
  }

  ghost predicate DirsFollow(d: seq<set<Path>>, dirs: set<Path>, v: View, env: Env) {
    && |d| == |env.order| + 1 && d[0] == dirs
    && forall k {:trigger d[k + 1]} :: 0 <= k < |env.order| ==>
         d[k + 1] == d[k] + if Writes(v, env, env.order[k]) then Ancestors(env.order[k]) else {}
  }

  lemma DirsStep(dev: Device, dirs: set<Path>, blobs: Blobs, env: Env, k: nat)
    requires Calm(dev, blobs, env) && Sound(dev, blobs) && k < |env.order|
    ensures DirsBefore(dev, dirs, blobs, env, k + 1) ==
            DirsBefore(dev, dirs, blobs, env, k)
            + if Writes(ViewOf(dev, blobs, env), env, env.order[k]) then Ancestors(env.order[k]) else {}
  {
    CalmStepDoes(dev, blobs, env, k);
  }

  lemma DirHistoryStep(dev: Device, dirs: set<Path>, blobs: Blobs, env: Env, k: nat)
    requires Calm(dev, blobs, env) && Sound(dev, blobs) && k < |env.order|
    ensures var d := DirHistory(dev, dirs, blobs, env);
            d[k + 1] ==
            d[k] + if Writes(ViewOf(dev, blobs, env), env, env.order[k]) then Ancestors(env.order[k]) else {}
  {
    DirsStep(dev, dirs, blobs, env, k);
    DirsAt(dev, dirs, blobs, env, k);
    DirsAt(dev, dirs, blobs, env, k + 1);
  }

  lemma DirsAt(dev: Device, dirs: set<Path>, blobs: Blobs, env: Env, k: nat)
    requires k <= |env.order|
    ensures DirHistory(dev, dirs, blobs, env)[k] == DirsBefore(dev, dirs, blobs, env, k)
  {
  }

  lemma DirHistoryFollows(dev: Device, dirs: set<Path>, blobs: Blobs, env: Env)
    requires Calm(dev, blobs, env) && Sound(dev, blobs)
    ensures DirsFollow(DirHistory(dev, dirs, blobs, env), dirs, ViewOf(dev, blobs, env), env)
  {
    forall k | 0 <= k < |env.order| {
      DirHistoryStep(dev, dirs, blobs, env, k);
    }
  }

  lemma {:induction false} DirOrigin(d: seq<set<Path>>, dirs: set<Path>, v: View, env: Env, k: nat, a: Path)
    requires DirsFollow(d, dirs, v, env) && k <= |env.order|
    ensures a in d[k] <==>
            a in dirs || exists i :: 0 <= i < k && Writes(v, env, env.order[i]) && Above(a, env.order[i])
  {
    if k > 0 {
      var n := k - 1;
      DirOrigin(d, dirs, v, env, n, a);
      assert d[n + 1] == d[n] + if Writes(v, env, env.order[n]) then Ancestors(env.order[n]) else {};
    }
  }

  /** Nothing is in the way of the step at `k`. */
  ghost predicate Free(h: seq<set<Path>>, d: seq<set<Path>>, v: View, env: Env, k: nat)
    requires k < |env.order| && |h| == |d| == |env.order| + 1
  {
    var p := env.order[k];
    && (Writes(v, env, p) ==> p !in d[k] && forall a :: a in h[k] ==> !Above(a, p))
    && (Overtaken(v, env, p) ==> ConflictPath(p, env.stamp) !in d[k])
  }

  lemma AllowedIffFree(dev: Device, dirs: set<Path>, blobs: Blobs, env: Env, k: nat)
    requires Calm(dev, blobs, env) && Sound(dev, blobs) && k < |env.order|
    ensures StepAllowed(dev, dirs, blobs, env, k) <==>
            Free(FileHistory(dev, blobs, env), DirHistory(dev, dirs, blobs, env), ViewOf(dev, blobs, env), env, k)
  {
    CalmStepDoes(dev, blobs, env, k);
  }

  /** All that the two directions of the proof need to know about the sync. */
  ghost predicate Tracked(h: seq<set<Path>>, d: seq<set<Path>>, v: View, dirs: set<Path>, env: Env) {
    && FilesFollow(h, v, env) && DirsFollow(d, dirs, v, env) && Enumerates(env, v) && Orderly(env)
    && LocalsFirst(env, v.locals) && ValidDisk(v.locals, dirs)
  }

  /** A directory made for a file is above it; with a clear way it is neither a file written nor a copy. */
  lemma NoDirInTheWay(d: seq<set<Path>>, v: View, dirs: set<Path>, env: Env, k: nat, x: Path)
    requires DirsFollow(d, dirs, v, env) && ValidDisk(v.locals, dirs) && Clear(v, dirs, env) && k < |env.order|
    requires Writes(v, env, x) || IsCopy(v, env, x)
    ensures x !in d[k]
  {
    DirOrigin(d, dirs, v, env, k, x);
    if i :| 0 <= i < k && Writes(v, env, env.order[i]) && Above(x, env.order[i]) {
      assert env.order[i] !in v.locals ==> Pulled(v, env, env.order[i]);
    }
  }

  lemma LocalIsEarlier(env: Env, v: View, k: nat, a: Path) returns (j: nat)
    requires Enumerates(env, v) && LocalsFirst(env, v.locals) && k < |env.order|
    requires env.order[k] !in v.locals && a in v.locals
    ensures j < k && env.order[j] == a
  {
    j :| 0 <= j < |env.order| && env.order[j] == a;
  }

  lemma NoFileInTheWay(h: seq<set<Path>>, d: seq<set<Path>>, v: View, dirs: set<Path>, env: Env, k: nat, a: Path)
    requires Tracked(h, d, v, dirs, env) && Clear(v, dirs, env) && k < |env.order|
    requires Writes(v, env, env.order[k]) && a in h[k]
    ensures !Above(a, env.order[k])
  {
    FileOrigin(h, v, env, k, a);
    if Above(a, env.order[k]) {
      ClearAbove(v, dirs, env, a, env.order[k]);
      var j := LocalIsEarlier(env, v, k, a);
      DroppedIsGone(h, v, env, j, k, a);
    }
  }

  lemma ClearAbove(v: View, dirs: set<Path>, env: Env, a: Path, p: Path)
    requires ValidDisk(v.locals, dirs) && Clear(v, dirs, env) && Writes(v, env, p) && Above(a, p)
    requires a in v.locals || Pulled(v, env, a) || IsCopy(v, env, a)
    ensures Pulled(v, env, p) && a in v.locals && Dropped(v, env, a)
  {
  }

  lemma FreeIfClear(h: seq<set<Path>>, d: seq<set<Path>>, v: View, dirs: set<Path>, env: Env, k: nat)
    requires Tracked(h, d, v, dirs, env) && Clear(v, dirs, env) && k < |env.order|
    ensures Free(h, d, v, env, k)
  {
    var p := env.order[k];
    if Writes(v, env, p) {
      NoDirInTheWay(d, v, dirs, env, k, p);
      forall a | a in h[k] ensures !Above(a, p) {
        NoFileInTheWay(h, d, v, dirs, env, k, a);
      }
    }
    if Overtaken(v, env, p) {
      NoDirInTheWay(d, v, dirs, env, k, ConflictPath(p, env.stamp));
    }
  }

  lemma ClearIfFree(h: seq<set<Path>>, d: seq<set<Path>>, v: View, dirs: set<Path>, env: Env)
    requires Tracked(h, d, v, dirs, env) && forall k :: 0 <= k < |env.order| ==> Free(h, d, v, env, k)
    ensures Clear(v, dirs, env)
  {
    forall x | Pulled(v, env, x) || IsCopy(v, env, x) ensures x !in dirs {
      NoDirThere(h, d, v, dirs, env, x);
    }
    forall a, p | Pulled(v, env, p) && Above(a, p)
      ensures !Pulled(v, env, a) && !IsCopy(v, env, a) && (a in v.locals ==> Dropped(v, env, a))
    {
      var k :| 0 <= k < |env.order| && env.order[k] == p;
      assert Free(h, d, v, env, k);
      NoKeptFileAbove(h, d, v, dirs, env, k, a);
      NoCopyAbove(h, d, v, dirs, env, k, a);
      NoPulledAbove(h, d, v, dirs, env, k, a);
    }
  }

  lemma NoDirThere(h: seq<set<Path>>, d: seq<set<Path>>, v: View, dirs: set<Path>, env: Env, x: Path)
    requires Tracked(h, d, v, dirs, env) && forall k :: 0 <= k < |env.order| ==> Free(h, d, v, env, k)
    requires Pulled(v, env, x) || IsCopy(v, env, x)
    ensures x !in dirs
  {
    var q :| q in env.order &&
        if Pulled(v, env, x) then q == x else Overtaken(v, env, q) && ConflictPath(q, env.stamp) == x;
    var k :| 0 <= k < |env.order| && env.order[k] == q;
    DirOrigin(d, dirs, v, env, k, x);
    assert Free(h, d, v, env, k);
  }

  lemma NoKeptFileAbove(h: seq<set<Path>>, d: seq<set<Path>>, v: View, dirs: set<Path>, env: Env, k: nat, a: Path)
    requires Tracked(h, d, v, dirs, env) && k < |env.order| && Free(h, d, v, env, k)
    requires Pulled(v, env, env.order[k]) && Above(a, env.order[k])
    ensures a in v.locals ==> Dropped(v, env, a)
  {
    if a in v.locals && !Dropped(v, env, a) {
      FileStays(h, v, env, 0, k, a);
    }
  }

  lemma CopyStays(h: seq<set<Path>>, v: View, env: Env, i: nat, k: nat)
    requires FilesFollow(h, v, env) && Orderly(env) && i < k <= |env.order| && Overtaken(v, env, env.order[i])
    ensures ConflictPath(env.order[i], env.stamp) in h[k]
  {
    assert ConflictPath(env.order[i], env.stamp) in h[i + 1];
    FileStays(h, v, env, i + 1, k, ConflictPath(env.order[i], env.stamp));
  }

  lemma WrittenStays(h: seq<set<Path>>, v: View, env: Env, i: nat, k: nat)
    requires FilesFollow(h, v, env) && i < k <= |env.order| && Writes(v, env, env.order[i])
    ensures env.order[i] in h[k]
  {
    assert env.order[i] in h[i + 1];
    FileStays(h, v, env, i + 1, k, env.order[i]);
  }

  lemma NoCopyAbove(h: seq<set<Path>>, d: seq<set<Path>>, v: View, dirs: set<Path>, env: Env, k: nat, a: Path)
    requires Tracked(h, d, v, dirs, env) && k < |env.order| && Free(h, d, v, env, k)
    requires Pulled(v, env, env.order[k]) && Above(a, env.order[k])
    ensures !IsCopy(v, env, a)
  {
    if q :| q in env.order && Overtaken(v, env, q) && ConflictPath(q, env.stamp) == a {
      var i := LocalIsEarlier(env, v, k, q);
      CopyStays(h, v, env, i, k);
    }
  }

  lemma WriteMakesDir(d: seq<set<Path>>, dirs: set<Path>, v: View, env: Env, k: nat, i: nat)
    requires DirsFollow(d, dirs, v, env) && k <= i < |env.order|
    requires Writes(v, env, env.order[k]) && Above(env.order[i], env.order[k])
    ensures env.order[i] in d[i]
  {
    DirOrigin(d, dirs, v, env, i, env.order[i]);
  }

  lemma NoPulledAbove(h: seq<set<Path>>, d: seq<set<Path>>, v: View, dirs: set<Path>, env: Env, k: nat, a: Path)
    requires Tracked(h, d, v, dirs, env) && k < |env.order|
    requires forall i :: 0 <= i < |env.order| ==> Free(h, d, v, env, i)
    requires Pulled(v, env, env.order[k]) && Above(a, env.order[k])
    ensures !Pulled(v, env, a)
  {
    if Pulled(v, env, a) {
      var i :| 0 <= i < |env.order| && env.order[i] == a;
      assert Free(h, d, v, env, i) && Free(h, d, v, env, k);
      if i < k {
        WrittenStays(h, v, env, i, k);
      } else {
        WriteMakesDir(d, dirs, v, env, k, i);
      }
    }
  }

  /** The storage allows an error-free sync exactly when the way is clear before it. */
  lemma PossibleIffClear(dev: Device, dirs: set<Path>, blobs: Blobs, env: Env)
    requires Calm(dev, blobs, env) && Sound(dev, blobs) && LocalsFirst(env, dev.tree) && ValidDisk(dev.tree, dirs)
    ensures Possible(dev, dirs, blobs, env) <==> Clear(ViewOf(dev, blobs, env), dirs, env)
  {
    var h, d, v := FileHistory(dev, blobs, env), DirHistory(dev, dirs, blobs, env), ViewOf(dev, blobs, env);
    assert v.locals == dev.tree;
    HistoryFollows(dev, blobs, env);
    DirHistoryFollows(dev, dirs, blobs, env);
    forall k | 0 <= k < |env.order| ensures StepAllowed(dev, dirs, blobs, env, k) <==> Free(h, d, v, env, k) {
      AllowedIffFree(dev, dirs, blobs, env, k);
    }
    if Clear(v, dirs, env) {
      forall k | 0 <= k < |env.order| ensures Free(h, d, v, env, k) {
        FreeIfClear(h, d, v, dirs, env, k);
      }
    } else if Possible(dev, dirs, blobs, env) {
      ClearIfFree(h, d, v, dirs, env);
    }
  }
}
