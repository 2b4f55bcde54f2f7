/**
 When syncs alone cannot make the devices agree: a file that nobody is deleting is a directory on another device. Unless
 one of the names that clash is itself being deleted, this is the only obstacle.
 */
module SyncStuck {
  import opened Options
  import opened ConflictNames
  import opened SyncClock
  import opened SyncModel
  import opened SyncSteps
  import opened SyncSafety
  import opened SyncMerge
  import opened SyncRounds
  import opened SyncStorage
  import opened SyncProgress

  /** Nobody is deleting the file: it has no tombstone, and every device with a base for it still has it. */
  ghost predicate Lasting(w: World, key: string, p: Path) {
    && (p in Files(w, key) ==> !Files(w, key)[p].d)
    && forall i :: 0 <= i < |w.devices| && p in w.devices[i].bases ==> p in w.devices[i].tree
  }

  /** The walk reads every file; anything else may fail. */
  ghost predicate AllRead(acts: seq<Action>) {
    forall k :: 0 <= k < |acts| ==> acts[k].SyncNow? && acts[k].env.skipped == {} && PlainStamp(acts[k].env.stamp)
  }

  // ---------------------------------------------------------------- one sync, whatever fails

  /** Without a step that deletes it, a file is never gone. */
  lemma {:induction false} NeverGone(key: string, acc0: Acc, env: Env, os: seq<Outcome>, p: Path)
    requires |os| <= |env.order|
    requires forall k :: 0 <= k < |os| && env.order[k] == p ==> !os[k].file.Delete?
    requires p in acc0.tree || exists k :: 0 <= k < |os| && env.order[k] == p && os[k].file.Write?
    ensures p in Replay(key, acc0, env, os).tree
  {
    if os != [] {
      var n := |os| - 1;
      if env.order[n] != p || !os[n].file.Write? {
        NeverGone(key, acc0, env, os[..n], p);
      }
    }
  }

  lemma LastingOutcome(key: string, p: Path, l: Option<File>, r: Option<Entry>, s: Option<Base>,
                       got: Option<Blob>, env: Env)
    requires (r.Some? ==> !r.value.d) && (s.Some? ==> l.Some?)
    ensures var o := Decide(key, p, l, r, s, got, env);
            && !o.file.Delete?
            && (var e := ChangedEntry(r, o.entry); e.Some? ==> !e.value.d)
            && (o.base.Some? && l.None? ==> o.file.Write?)
  {
    var plan := Classify(l, r, s, env.now);
    assert Applies(plan, l, r);
  }

  lemma LastingLoop(dev: Device, blobs: Blobs, env: Env, p: Path)
    requires Enumerates(env, ViewOf(dev, blobs, env)) && env.skipped == {}
    requires var files := FetchEntries(blobs, dev.key); p in files ==> !files[p].d
    requires p in dev.bases ==> p in dev.tree
    ensures var end := LoopEnd(dev, blobs, env);
            && (p in dev.tree ==> p in end.tree)
            && (p in end.bases ==> p in end.tree)
            && (p in end.files ==> !end.files[p].d)
  {
    var v, os := ViewOf(dev, blobs, env), LoopOutcomes(dev, blobs, env);
    assert v.locals == dev.tree;
    if p in env.order {
      var o, got := PathResult(dev, blobs, env, p);
      LastingOutcome(dev.key, p, Lookup(dev.tree, p), Lookup(v.remote, p), Lookup(dev.bases, p), got, env);
      var k :| 0 <= k < |env.order| && env.order[k] == p;
      if p in dev.tree || o.file.Write? {
        NeverGone(dev.key, Start(v, dev.tree, blobs), env, os, p);
      }
    } else {
      PathUntouched(dev, blobs, env, p);
    }
  }

  lemma LastingStep(w: World, a: Action, key: string, p: Path)
    requires OneCollection(w, key) && a.SyncNow? && Enabled(w, a) && a.env.skipped == {} && Lasting(w, key, p)
    ensures OneCollection(Next(w, a), key) && Lasting(Next(w, a), key, p) && |Next(w, a).devices| == |w.devices|
    ensures forall i :: 0 <= i < |w.devices| && p in w.devices[i].tree ==> p in Next(w, a).devices[i].tree
  {
    var dev := w.devices[a.i];
    assert EntriesStored(w.blobs, key);
    InvStep(w, a);
    ManifestAfter(dev, w.blobs, a.env);
    LastingLoop(dev, w.blobs, a.env, p);
  }

  lemma DirsStay(dev: Device, dirs: set<Path>, blobs: Blobs, env: Env, k: nat)
    requires k <= |env.order|
    ensures dirs <= DirsBefore(dev, dirs, blobs, env, k)
  {
    if k > 0 {
      DirsStay(dev, dirs, blobs, env, k - 1);
    }
  }

  lemma DisksStep(w: World, disks: Disks, a: Action)
    requires a.SyncNow? && a.i < |w.devices| && ValidDisks(w, disks) && PlainStamp(a.env.stamp)
    requires Possible(w.devices[a.i], disks[a.i], w.blobs, a.env)
    ensures ValidDisks(Next(w, a), NextDisks(w, disks, a))
    ensures forall i :: 0 <= i < |disks| ==> disks[i] <= NextDisks(w, disks, a)[i]
  {
    ValidAfter(w.devices[a.i], disks[a.i], w.blobs, a.env);
    DirsStay(w.devices[a.i], disks[a.i], w.blobs, a.env, |a.env.order|);
  }

  // ---------------------------------------------------------------- all syncs

  /**
   A file that nobody is deleting, and that is a directory on another device: no run of syncs, whatever fails in it,
   makes the devices agree.
   */
  lemma {:induction false} NeverConverges(w: World, disks: Disks, acts: seq<Action>, key: string, i: nat, j: nat,
                                          p: Path)
    requires OneCollection(w, key) && ValidDisks(w, disks) && StoredRun(w, disks, acts) && AllRead(acts)
    requires i < |w.devices| && j < |w.devices| && Lasting(w, key, p)
    requires p in w.devices[i].tree && p in disks[j]
    ensures IsRun(w, acts) && !Converged(Run(w, acts), key)
    decreases |acts|
  {
    if acts == [] {
      if Converged(w, key) {
        SameContents(w, key);
      }
    } else {
      LastingStep(w, acts[0], key, p);
      DisksStep(w, disks, acts[0]);
      NeverConverges(Next(w, acts[0]), NextDisks(w, disks, acts[0]), acts[1..], key, i, j, p);
    }
  }

  lemma NoteAndFolder() returns (w: World, disks: Disks)
    ensures |w.devices| == 2 && w.devices[0].tree.Keys == {"a"} && w.devices[1].tree.Keys == {"a/b"}
    ensures Initial(w) && OneCollection(w, "k") && ValidDisks(w, disks) && disks == [{}, {"a"}]
  {
    var note := File(Raw([1]), 1);
    w := World(map[], [Device("k", map["a" := note], map[]), Device("k", map["a/b" := note], map[])]);
    disks := [{}, {"a"}];
    assert "a/b"[..1] == "a" && "a/b"[0] == 'a' && "a/b"[1] == '/' && "a/b"[2] == 'b';
    assert forall x :: Above(x, "a/b") ==> |x| == 1 && x == "a/b"[..1];
    assert forall x :: !Above(x, "a");
  }

  /** The failure at an input: a new file on one device, a new folder of the same name on the other. */
  lemma FileAgainstFolder() returns (w: World, disks: Disks)
    ensures |w.devices| == 2 && w.devices[0].tree.Keys == {"a"} && w.devices[1].tree.Keys == {"a/b"}
    ensures Initial(w) && ValidDisks(w, disks)
    ensures forall acts :: StoredRun(w, disks, acts) && AllRead(acts) ==>
              IsRun(w, acts) && !Converged(Run(w, acts), "k")
  {
    w, disks := NoteAndFolder();
    forall acts | StoredRun(w, disks, acts) && AllRead(acts)
      ensures IsRun(w, acts) && !Converged(Run(w, acts), "k")
    {
      NeverConverges(w, disks, acts, "k", 0, 1, "a");
    }
  }

  // ---------------------------------------------------------------- when the names that clash stay

  ghost predicate Held(w: World, p: Path) {
    exists i :: 0 <= i < |w.devices| && p in w.devices[i].tree
  }

  /**
   Nobody is deleting a name in use that is a directory of some device, or one that lies above another name in use
   or below it; a name below it that some device holds may be on its way out, as its directory stays. Nothing is
   said about the other names.
   */
  ghost predicate ClashesLast(w: World, disks: Disks, key: string) {
    && (forall x, y :: InUse(w, key, x) && InUse(w, key, y) && Above(x, y) ==>
          Lasting(w, key, x) && (Lasting(w, key, y) || Held(w, y)))
    && forall i, x :: 0 <= i < |disks| && InUse(w, key, x) && x in disks[i] ==> Lasting(w, key, x)
  }

  lemma {:induction false} CalmRunReads(w: World, acts: seq<Action>, key: string)
    requires OneCollection(w, key) && CalmRun(w, acts)
    ensures AllRead(acts)
    decreases |acts|
  {
    if acts != [] {
      StepFacts(w, acts[0], key);
      CalmRunReads(Next(w, acts[0]), acts[1..], key);
      assert forall k :: 1 <= k < |acts| ==> acts[k] == acts[1..][k - 1];
    }
  }

  /** After one error-free sync each lasting name in use is a file of some device. */
  lemma HeldAfterSync(w: World, a: Action, key: string, x: Path) returns (i: nat)
    requires OneCollection(w, key) && CalmStep(w, a) && Lasting(w, key, x) && InUse(w, key, x)
    ensures i < |Next(w, a).devices| == |w.devices| && x in Next(w, a).devices[i].tree
  {
    StepFacts(w, a, key);
    LastingStep(w, a, key, x);
    if j :| 0 <= j < |w.devices| && x in w.devices[j].tree {
      i := j;
    } else {
      i := a.i;
      MergedEntry(w.devices[a.i], w.blobs, a.env, x);
    }
  }

  /** After one error-free sync the clash is one of a file and a directory. */
  lemma ClashAfterSync(w: World, disks: Disks, a: Action, key: string, x: Path, y: Path) returns (i: nat, j: nat)
    requires OneCollection(w, key) && ValidDisks(w, disks) && CalmStep(w, a)
    requires Possible(w.devices[a.i], disks[a.i], w.blobs, a.env)
    requires Lasting(w, key, x) && InUse(w, key, x)
    requires (Lasting(w, key, y) && InUse(w, key, y) && Above(x, y)) || exists k :: 0 <= k < |disks| && x in disks[k]
    ensures OneCollection(Next(w, a), key) && ValidDisks(Next(w, a), NextDisks(w, disks, a))
    ensures i < |Next(w, a).devices| && x in Next(w, a).devices[i].tree && Lasting(Next(w, a), key, x)
    ensures j < |Next(w, a).devices| && x in NextDisks(w, disks, a)[j]
  {
    StepFacts(w, a, key);
    DisksStep(w, disks, a);
    LastingStep(w, a, key, x);
    i := HeldAfterSync(w, a, key, x);
    j := DirectoryAfterSync(w, disks, a, key, x, y);
  }

  lemma DirectoryAfterSync(w: World, disks: Disks, a: Action, key: string, x: Path, y: Path) returns (j: nat)
    requires OneCollection(w, key) && CalmStep(w, a) && |disks| == |w.devices|
    requires ValidDisks(Next(w, a), NextDisks(w, disks, a))
    requires forall i :: 0 <= i < |disks| ==> disks[i] <= NextDisks(w, disks, a)[i]
    requires (Lasting(w, key, y) && InUse(w, key, y) && Above(x, y)) || exists k :: 0 <= k < |disks| && x in disks[k]
    ensures j < |w.devices| && x in NextDisks(w, disks, a)[j]
  {
    if k :| 0 <= k < |disks| && x in disks[k] {
      j := k;
    } else {
      j := HeldAfterSync(w, a, key, y);
    }
  }

  /** The file would have to be a directory: no rounds converge. */
  lemma RoundsNeedRoom(w: World, disks: Disks, key: string, acts: seq<Action>, x: Path, y: Path)
    requires OneCollection(w, key) && ValidDisks(w, disks) && acts != []
    requires CalmRun(w, acts) && StoredRun(w, disks, acts)
    requires Lasting(w, key, x) && InUse(w, key, x)
    requires (Lasting(w, key, y) && InUse(w, key, y) && Above(x, y)) || exists k :: 0 <= k < |disks| && x in disks[k]
    ensures IsRun(w, acts) && !Converged(Run(w, acts), key)
  {
    var i, j := ClashAfterSync(w, disks, acts[0], key, x, y);
    CalmRunReads(Next(w, acts[0]), acts[1..], key);
    NeverConverges(Next(w, acts[0]), NextDisks(w, disks, acts[0]), acts[1..], key, i, j, x);
  }

  /**
   Unless a name that clashes is being deleted: three error-free rounds that make the devices agree are possible on the
   clock if and only if the names in use leave room.
   */
  lemma ConvergenceIffRoom(w: World, key: string, disks: Disks, format: int -> string, times: seq<int>)
    requires OneCollection(w, key) && ValidDisks(w, disks) && ClashesLast(w, disks, key) && w.devices != []
    requires Ticks(format, times) && |times| >= |AllNames(w, disks, key)| + 3 * |w.devices|
    ensures (exists r1, r2, r3 :: Converge(w, disks, key, format, times, r1, r2, r3)) <==> Roomy(w, disks, key)
  {
    if Roomy(w, disks, key) {
      var r1, r2, r3 := RoomConverges(w, disks, key, format, times);
    }
    forall r1, r2, r3 | Converge(w, disks, key, format, times, r1, r2, r3) ensures Roomy(w, disks, key) {
      RoomNeeded(w, key, disks, format, times, r1, r2, r3);
    }
  }

  lemma RoomNeeded(w: World, key: string, disks: Disks, format: int -> string, times: seq<int>,
                   r1: seq<Action>, r2: seq<Action>, r3: seq<Action>)
    requires OneCollection(w, key) && ValidDisks(w, disks) && ClashesLast(w, disks, key) && w.devices != []
    requires Converge(w, disks, key, format, times, r1, r2, r3)
    ensures Roomy(w, disks, key)
  {
    var acts := r1 + (r2 + r3);
    assert 0 in Who(r1);
    forall x, y | InUse(w, key, x) && InUse(w, key, y) ensures !Above(x, y) {
      if Above(x, y) {
        if i :| 0 <= i < |w.devices| && y in w.devices[i].tree {
          assert x in disks[i];
        }
        RoundsNeedRoom(w, disks, key, acts, x, y);
      }
    }
    forall i, x | 0 <= i < |disks| && InUse(w, key, x) ensures x !in disks[i] {
      if x in disks[i] {
        RoundsNeedRoom(w, disks, key, acts, x, x);
      }
    }
  }
}
