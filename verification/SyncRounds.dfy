/** Rounds of error-free syncs by all devices of one collection, in any order, once edits have stopped. */
module SyncRounds {
  import opened ConflictNames
  import opened SyncModel
  import opened SyncSafety
  import opened SyncConvergence

  function Files(w: World, key: string): Entries {
    FetchEntries(w.blobs, key)
  }

  /** All devices sync the same collection. */
  ghost predicate OneCollection(w: World, key: string) {
    Inv(w) && forall i :: 0 <= i < |w.devices| ==> w.devices[i].key == key
  }

  /** An error-free sync whose conflict copies would get names no device uses. */
  ghost predicate CalmStep(w: World, a: Action) {
    && a.SyncNow? && a.i < |w.devices|
    && Calm(w.devices[a.i], w.blobs, a.env)
    && forall j, q :: 0 <= j < |w.devices| && q in a.env.order ==>
         ConflictPath(q, a.env.stamp) !in w.devices[j].tree
  }

  ghost predicate CalmRun(w: World, acts: seq<Action>)
    decreases |acts|
  {
    acts == [] || (CalmStep(w, acts[0]) && CalmRun(Next(w, acts[0]), acts[1..]))
  }

  /** The run reports no conflict. */
  ghost predicate ConflictFree(w: World, acts: seq<Action>)
    requires CalmRun(w, acts)
    decreases |acts|
  {
    acts == [] ||
    (&& LoopEnd(w.devices[acts[0].i], w.blobs, acts[0].env).tally.conflicts == 0
     && ConflictFree(Next(w, acts[0]), acts[1..]))
  }

  ghost predicate PrunesNothing(w: World, a: Action)
    requires CalmStep(w, a)
  {
    var dev := w.devices[a.i];
    forall p :: !PrunedAt(dev.tree, FetchEntries(w.blobs, dev.key), a.env.now, p)
  }

  /** The run meets no tombstone old enough to be pruned. */
  ghost predicate NothingPruned(w: World, acts: seq<Action>)
    requires CalmRun(w, acts)
    decreases |acts|
  {
    acts == [] || (PrunesNothing(w, acts[0]) && NothingPruned(Next(w, acts[0]), acts[1..]))
  }

  ghost function Who(acts: seq<Action>): set<int> {
    set k | 0 <= k < |acts| :: acts[k].i
  }

  /** Every device syncs at least once. */
  ghost predicate IsRound(w: World, acts: seq<Action>) {
    forall i :: 0 <= i < |w.devices| ==> i in Who(acts)
  }

  // ---------------------------------------------------------------- one step

  lemma StepFacts(w: World, a: Action, key: string)
    requires OneCollection(w, key) && CalmStep(w, a)
    ensures var end := LoopEnd(w.devices[a.i], w.blobs, a.env);
            && Enabled(w, a) && OneCollection(Next(w, a), key)
            && Sound(w.devices[a.i], w.blobs)
            && Next(w, a).devices == w.devices[a.i := Device(key, end.tree, end.bases)]
            && Files(Next(w, a), key) == end.files
  {
    assert EntriesStored(w.blobs, key);
    InvStep(w, a);
    ManifestAfter(w.devices[a.i], w.blobs, a.env);
  }

  /** Files that a device has but never synced are on no other device. */
  ghost predicate OwnNewFiles(w: World, i: int)
    requires 0 <= i < |w.devices|
  {
    forall j, p :: 0 <= j < |w.devices| && j != i && p in w.devices[i].tree && p !in w.devices[i].bases ==>
      p !in w.devices[j].tree
  }

  ghost predicate AllSettled(w: World, key: string, done: set<int>) {
    forall i :: i in done && 0 <= i < |w.devices| ==> Settled(w.devices[i], Files(w, key)) && OwnNewFiles(w, i)
  }

  ghost predicate AllUntouched(w: World, key: string, done: set<int>) {
    forall i :: i in done && 0 <= i < |w.devices| ==> Untouched(w.devices[i], Files(w, key))
  }

  /** The device holds nothing but live files of the manifest. */
  ghost predicate Backed(dev: Device, files: Entries) {
    && Untouched(dev, files)
    && forall p :: p in dev.tree ==> LocalHash(dev.tree, p) == LiveHash(files, p)
  }

  ghost predicate AllBacked(w: World, key: string, done: set<int>) {
    forall i :: i in done && 0 <= i < |w.devices| ==> Backed(w.devices[i], Files(w, key))
  }

  ghost predicate AllMirror(w: World, key: string, done: set<int>) {
    forall i :: i in done && 0 <= i < |w.devices| ==> Mirrors(w.devices[i].tree, Files(w, key))
  }

  /** A device that does not sync stays settled when the manifest gains only names it does not have. */
  lemma SettledGrows(dev: Device, files: Entries, files': Entries, names: set<Path>)
    requires Settled(dev, files) && files'.Keys <= files.Keys + names
    requires forall p :: p in dev.tree && p !in dev.bases ==> p !in names
    ensures Settled(dev, files')
  {
  }

  /** What a settled device does to the manifest takes no live entry away. */
  lemma BackedStays(dev: Device, files: Entries, tree: Tree, now: int, files': Entries)
    requires Backed(dev, files) && OnlyAdds(tree, files, now, files')
    ensures Backed(dev, files')
  {
    assert forall p :: p in dev.bases ==> LiveHash(files, p).Some?;
  }

  lemma SettledStep(w: World, a: Action, key: string, done: set<int>)
    requires OneCollection(w, key) && CalmStep(w, a) && AllSettled(w, key, done)
    ensures AllSettled(Next(w, a), key, done + {a.i})
  {
    var dev, end, next := w.devices[a.i], LoopEnd(w.devices[a.i], w.blobs, a.env), Next(w, a);
    StepFacts(w, a, key);
    SyncSettles(dev, w.blobs, a.env);
    forall i | i in done + {a.i} && 0 <= i < |w.devices|
      ensures Settled(next.devices[i], Files(next, key)) && OwnNewFiles(next, i)
    {
      if i != a.i {
        assert OwnNewFiles(w, i);
        SettledGrows(w.devices[i], Files(w, key), end.files, dev.tree.Keys);
      }
      OwnNewFilesStep(w, a, key, i);
    }
  }

  lemma OwnNewFilesStep(w: World, a: Action, key: string, i: int)
    requires OneCollection(w, key) && CalmStep(w, a) && 0 <= i < |w.devices|
    requires i != a.i ==> OwnNewFiles(w, i) && Settled(w.devices[i], Files(w, key))
    ensures OwnNewFiles(Next(w, a), i)
  {
    var dev, end, next := w.devices[a.i], LoopEnd(w.devices[a.i], w.blobs, a.env), Next(w, a);
    StepFacts(w, a, key);
    SyncSettles(dev, w.blobs, a.env);
    forall j, p | 0 <= j < |w.devices| && j != i && p in next.devices[i].tree && p !in next.devices[i].bases
      ensures p !in next.devices[j].tree
    {
      if p in Copies(dev, w.blobs, a.env) {
        var q :| q in a.env.order && p == ConflictPath(q, a.env.stamp);
      }
    }
  }

  lemma BackedStep(w: World, a: Action, key: string, done: set<int>)
    requires OneCollection(w, key) && CalmStep(w, a) && AllBacked(w, key, done)
    requires Settled(w.devices[a.i], Files(w, key))
    ensures AllBacked(Next(w, a), key, done + {a.i})
  {
    var dev, end := w.devices[a.i], LoopEnd(w.devices[a.i], w.blobs, a.env);
    StepFacts(w, a, key);
    SettledSync(dev, w.blobs, a.env);
    SyncSettles(dev, w.blobs, a.env);
    forall i | i in done && 0 <= i < |w.devices| && i != a.i ensures Backed(w.devices[i], end.files) {
      BackedStays(w.devices[i], Files(w, key), dev.tree, a.env.now, end.files);
    }
  }

  lemma UntouchedStep(w: World, a: Action, key: string, done: set<int>)
    requires OneCollection(w, key) && CalmStep(w, a) && AllUntouched(w, key, done)
    requires Copies(w.devices[a.i], w.blobs, a.env) == {} && PrunesNothing(w, a)
    ensures AllUntouched(Next(w, a), key, done + {a.i})
  {
    var dev, end := w.devices[a.i], LoopEnd(w.devices[a.i], w.blobs, a.env);
    StepFacts(w, a, key);
    SyncSettles(dev, w.blobs, a.env);
    forall i | i in done && 0 <= i < |w.devices| && i != a.i ensures Untouched(w.devices[i], end.files) {
      SettledGrows(w.devices[i], Files(w, key), end.files, dev.tree.Keys);
    }
  }

  /** An untouched device becomes a mirror and leaves the live part of the manifest alone. */
  lemma MirrorStep(w: World, a: Action, key: string, done: set<int>)
    requires OneCollection(w, key) && CalmStep(w, a) && AllMirror(w, key, done)
    requires Untouched(w.devices[a.i], Files(w, key))
    ensures AllMirror(Next(w, a), key, done + {a.i})
    ensures Copies(w.devices[a.i], w.blobs, a.env) == {}
  {
    var dev, end := w.devices[a.i], LoopEnd(w.devices[a.i], w.blobs, a.env);
    StepFacts(w, a, key);
    SettledSync(dev, w.blobs, a.env);
    SyncSettles(dev, w.blobs, a.env);
    UntouchedAddsNothing(dev, Files(w, key), a.env.now, end.files);
  }

  // ---------------------------------------------------------------- one round

  lemma WhoCons(acts: seq<Action>)
    requires acts != []
    ensures Who(acts) == {acts[0].i} + Who(acts[1..])
  {
    forall i | i in Who(acts) ensures i in {acts[0].i} + Who(acts[1..]) {
      var k :| 0 <= k < |acts| && acts[k].i == i;
      assert k > 0 ==> acts[1..][k - 1].i == i;
    }
  }

  lemma {:induction false} CalmRunIsRun(w: World, acts: seq<Action>, key: string)
    requires OneCollection(w, key) && CalmRun(w, acts)
    ensures IsRun(w, acts) && OneCollection(Run(w, acts), key) && |Run(w, acts).devices| == |w.devices|
    decreases |acts|
  {
    if acts != [] {
      StepFacts(w, acts[0], key);
      CalmRunIsRun(Next(w, acts[0]), acts[1..], key);
    }
  }

  /** First round: every device that synced is settled. */
  lemma {:induction false} SettledRun(w: World, acts: seq<Action>, key: string, done: set<int>)
    requires OneCollection(w, key) && CalmRun(w, acts) && AllSettled(w, key, done)
    ensures IsRun(w, acts) && AllSettled(Run(w, acts), key, done + Who(acts))
    decreases |acts|
  {
    CalmRunIsRun(w, acts, key);
    if acts == [] {
      assert done + Who(acts) == done;
    } else {
      SettledStep(w, acts[0], key, done);
      StepFacts(w, acts[0], key);
      SettledRun(Next(w, acts[0]), acts[1..], key, done + {acts[0].i});
      WhoCons(acts);
      assert done + Who(acts) == done + {acts[0].i} + Who(acts[1..]);
    }
  }

  /** Second round: settled devices upload what the manifest lacks and end with nothing but live files. */
  lemma {:induction false} BackedRun(w: World, acts: seq<Action>, key: string, all: set<int>, done: set<int>)
    requires OneCollection(w, key) && CalmRun(w, acts) && AllSettled(w, key, all) && AllBacked(w, key, done)
    requires forall i :: 0 <= i < |w.devices| ==> i in all
    ensures IsRun(w, acts) && AllBacked(Run(w, acts), key, done + Who(acts))
    decreases |acts|
  {
    CalmRunIsRun(w, acts, key);
    if acts == [] {
      assert done + Who(acts) == done;
    } else {
      var a := acts[0];
      StepFacts(w, a, key);
      SettledStep(w, a, key, all);
      assert all + {a.i} == all;
      BackedStep(w, a, key, done);
      BackedRun(Next(w, a), acts[1..], key, all, done + {a.i});
      WhoCons(acts);
      assert done + Who(acts) == done + {a.i} + Who(acts[1..]);
    }
  }

  /** Last round: the live part of the manifest does not change any more and every device becomes a mirror of it. */
  lemma {:induction false} MirrorRun(w: World, acts: seq<Action>, key: string, all: set<int>, done: set<int>)
    requires OneCollection(w, key) && CalmRun(w, acts) && AllBacked(w, key, all) && AllMirror(w, key, done)
    requires forall i :: 0 <= i < |w.devices| ==> i in all
    ensures IsRun(w, acts) && AllMirror(Run(w, acts), key, done + Who(acts))
    decreases |acts|
  {
    CalmRunIsRun(w, acts, key);
    if acts == [] {
      assert done + Who(acts) == done;
    } else {
      var a := acts[0];
      StepFacts(w, a, key);
      MirrorStep(w, a, key, done);
      BackedStep(w, a, key, all);
      assert all + {a.i} == all;
      MirrorRun(Next(w, a), acts[1..], key, all, done + {a.i});
      WhoCons(acts);
      assert done + Who(acts) == done + {a.i} + Who(acts[1..]);
    }
  }

  /** A round without conflicts and pruning leaves every device that synced untouched. */
  lemma {:induction false} UntouchedRun(w: World, acts: seq<Action>, key: string, done: set<int>)
    requires OneCollection(w, key) && CalmRun(w, acts) && AllUntouched(w, key, done)
    requires ConflictFree(w, acts) && NothingPruned(w, acts)
    ensures IsRun(w, acts) && AllUntouched(Run(w, acts), key, done + Who(acts))
    decreases |acts|
  {
    CalmRunIsRun(w, acts, key);
    if acts == [] {
      assert done + Who(acts) == done;
    } else {
      var a := acts[0];
      StepFacts(w, a, key);
      NoConflictNoCopy(w.devices[a.i], w.blobs, a.env);
      UntouchedStep(w, a, key, done);
      UntouchedRun(Next(w, a), acts[1..], key, done + {a.i});
      WhoCons(acts);
      assert done + Who(acts) == done + {a.i} + Who(acts[1..]);
    }
  }

  /** A second round without pruning makes mirrors of them. */
  lemma {:induction false} UntouchedMirrors(w: World, acts: seq<Action>, key: string, all: set<int>, done: set<int>)
    requires OneCollection(w, key) && CalmRun(w, acts) && NothingPruned(w, acts)
    requires AllUntouched(w, key, all) && AllMirror(w, key, done)
    requires forall i :: 0 <= i < |w.devices| ==> i in all
    ensures IsRun(w, acts) && AllMirror(Run(w, acts), key, done + Who(acts))
    decreases |acts|
  {
    CalmRunIsRun(w, acts, key);
    if acts == [] {
      assert done + Who(acts) == done;
    } else {
      var a := acts[0];
      StepFacts(w, a, key);
      MirrorStep(w, a, key, done);
      UntouchedStep(w, a, key, all);
      assert all + {a.i} == all;
      UntouchedMirrors(Next(w, a), acts[1..], key, all, done + {a.i});
      WhoCons(acts);
      assert done + Who(acts) == done + {a.i} + Who(acts[1..]);
    }
  }

  // ---------------------------------------------------------------- convergence

  /** Every device holds exactly the live files of the manifest, with their contents. */
  ghost predicate Converged(w: World, key: string) {
    forall i, p :: 0 <= i < |w.devices| ==> LocalHash(w.devices[i].tree, p) == LiveHash(Files(w, key), p)
  }

  lemma {:induction false} RunConcat(w: World, a: seq<Action>, b: seq<Action>, key: string)
    requires OneCollection(w, key) && CalmRun(w, a + b)
    ensures CalmRun(w, a) && IsRun(w, a) && IsRun(w, a + b)
    ensures CalmRun(Run(w, a), b) && IsRun(Run(w, a), b) && Run(w, a + b) == Run(Run(w, a), b)
    decreases |a|
  {
    CalmRunIsRun(w, a + b, key);
    if a == [] {
      assert a + b == b;
    } else {
      assert (a + b)[1..] == a[1..] + b;
      StepFacts(w, a[0], key);
      RunConcat(Next(w, a[0]), a[1..], b, key);
    }
  }

  /** Three rounds of error-free syncs, in any orders, make all devices mirror the manifest. */
  lemma ConvergesInThreeRounds(w: World, r1: seq<Action>, r2: seq<Action>, r3: seq<Action>, key: string)
    requires OneCollection(w, key) && CalmRun(w, r1 + (r2 + r3))
    requires IsRound(w, r1) && IsRound(w, r2) && IsRound(w, r3)
    ensures IsRun(w, r1 + (r2 + r3)) && Converged(Run(w, r1 + (r2 + r3)), key)
  {
    RunConcat(w, r1, r2 + r3, key);
    CalmRunIsRun(w, r1, key);
    SettledRun(w, r1, key, {});
    assert {} + Who(r1) == Who(r1);
    var w1 := Run(w, r1);
    RunConcat(w1, r2, r3, key);
    CalmRunIsRun(w1, r2, key);
    BackedRun(w1, r2, key, Who(r1), {});
    assert {} + Who(r2) == Who(r2);
    var w2 := Run(w1, r2);
    CalmRunIsRun(w2, r3, key);
    MirrorRun(w2, r3, key, Who(r2), {});
    assert {} + Who(r3) == Who(r3);
  }

  /** Two rounds are enough when the first reports no conflict and neither prunes a tombstone. */
  lemma ConvergesInTwoRounds(w: World, r1: seq<Action>, r2: seq<Action>, key: string)
    requires OneCollection(w, key) && CalmRun(w, r1) && ConflictFree(w, r1) && NothingPruned(w, r1)
    requires IsRun(w, r1) && CalmRun(Run(w, r1), r2) && NothingPruned(Run(w, r1), r2)
    requires IsRound(w, r1) && IsRound(w, r2)
    ensures IsRun(Run(w, r1), r2) && Converged(Run(Run(w, r1), r2), key)
  {
    CalmRunIsRun(w, r1, key);
    UntouchedRun(w, r1, key, {});
    assert {} + Who(r1) == Who(r1);
    var w1 := Run(w, r1);
    CalmRunIsRun(w1, r2, key);
    UntouchedMirrors(w1, r2, key, Who(r1), {});
    assert {} + Who(r2) == Who(r2);
  }

  /**
   The whole claim: after any history of edits, lost states and syncs with any failures, three error-free
   rounds leave all devices with the same files, those of the live manifest.
   */
  lemma EventualConsistency(w: World, history: seq<Action>, r1: seq<Action>, r2: seq<Action>, r3: seq<Action>,
                            key: string)
    requires Initial(w) && IsRun(w, history)
    requires var u := Run(w, history);
             && (forall i :: 0 <= i < |u.devices| ==> u.devices[i].key == key)
             && CalmRun(u, r1 + (r2 + r3)) && IsRound(u, r1) && IsRound(u, r2) && IsRound(u, r3)
    ensures var u, acts := Run(w, history), r1 + (r2 + r3);
            IsRun(u, acts) && Converged(Run(u, acts), key) && SameFiles(Run(u, acts))
  {
    InvRun(w, history);
    var u, acts := Run(w, history), r1 + (r2 + r3);
    ConvergesInThreeRounds(u, r1, r2, r3, key);
    SameContents(Run(u, acts), key);
  }

  /** Every file of one device is on every other device with the same content. */
  ghost predicate SameFiles(w: World) {
    forall i, j, p :: 0 <= i < |w.devices| && 0 <= j < |w.devices| && p in w.devices[i].tree ==>
      p in w.devices[j].tree && w.devices[i].tree[p].data == w.devices[j].tree[p].data
  }

  lemma SameContents(w: World, key: string)
    requires Converged(w, key)
    ensures SameFiles(w)
  {
    forall i, j, p | 0 <= i < |w.devices| && 0 <= j < |w.devices| && p in w.devices[i].tree
      ensures p in w.devices[j].tree && w.devices[i].tree[p].data == w.devices[j].tree[p].data
    {
      assert LocalHash(w.devices[i].tree, p) == LiveHash(Files(w, key), p) == LocalHash(w.devices[j].tree, p);
    }
  }
}
