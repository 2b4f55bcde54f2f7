/** Repeating an error-free sync: the second run only uploads conflict copies, the third does nothing. */
module SyncFixpoint {
  import opened Options
  import opened SyncModel
  import opened SyncSteps
  import opened SyncSafety
  import opened SyncConvergence

  /** The device agrees with every entry of the manifest; it may hold files the manifest does not know. */
  ghost predicate InStep(dev: Device, files: Entries) {
    && Settled(dev, files) && dev.bases.Keys <= files.Keys
    && forall p :: p in files ==> LocalHash(dev.tree, p) == LiveHash(files, p) == BaseHash(dev.bases, p)
  }

  /** Files the manifest does not know. */
  function NewNames(dev: Device, files: Entries): set<Path> {
    dev.tree.Keys - files.Keys
  }

  lemma InStepPath(dev: Device, blobs: Blobs, env: Env, p: Path) returns (o: Outcome)
    requires Calm(dev, blobs, env) && Sound(dev, blobs) && p in env.order
    requires InStep(dev, FetchEntries(blobs, dev.key))
    ensures o.tally == if p in NewNames(dev, FetchEntries(blobs, dev.key)) then Tally(1, 0, 0, 0, 0) else ZERO
    ensures !o.failed
    ensures Lookup(LoopEnd(dev, blobs, env).tree, p) == Lookup(dev.tree, p)
    ensures forall k :: 0 <= k < |env.order| && env.order[k] == p ==> LoopOutcomes(dev, blobs, env)[k] == o
  {
    var got;
    o, got := CalmPath(dev, blobs, env, p);
    var l, r, s := Lookup(dev.tree, p), Lookup(FetchEntries(blobs, dev.key), p), Lookup(dev.bases, p);
    SettledOutcome(dev.key, p, l, r, s, got, env);
  }

  /** What the loop must have done for its counters to be those of uploading the paths in `sent`. */
  ghost predicate OnlyUploads(os: seq<Outcome>, order: seq<Path>, sent: set<Path>) {
    && |os| == |order|
    && forall k {:trigger os[k]} :: 0 <= k < |os| ==>
         os[k].tally == (if order[k] in sent then Tally(1, 0, 0, 0, 0) else ZERO) && !os[k].failed
  }

  lemma InStepOutcomes(dev: Device, blobs: Blobs, env: Env)
    requires Calm(dev, blobs, env) && Sound(dev, blobs)
    requires InStep(dev, FetchEntries(blobs, dev.key))
    ensures OnlyUploads(LoopOutcomes(dev, blobs, env), env.order, NewNames(dev, FetchEntries(blobs, dev.key)))
  {
    var os, sent := LoopOutcomes(dev, blobs, env), NewNames(dev, FetchEntries(blobs, dev.key));
    forall k {:trigger os[k]} | 0 <= k < |env.order|
      ensures os[k].tally == (if env.order[k] in sent then Tally(1, 0, 0, 0, 0) else ZERO) && !os[k].failed
    {
      var o := InStepPath(dev, blobs, env, env.order[k]);
    }
  }

  lemma InStepTally(dev: Device, blobs: Blobs, env: Env)
    requires Calm(dev, blobs, env) && Sound(dev, blobs)
    requires InStep(dev, FetchEntries(blobs, dev.key))
    ensures var files, end := FetchEntries(blobs, dev.key), LoopEnd(dev, blobs, env);
            end.errors == [] && end.tally == Tally(|NewNames(dev, files)|, 0, 0, 0, 0)
  {
    InStepOutcomes(dev, blobs, env);
    assert ViewOf(dev, blobs, env).locals == dev.tree;
    var start := Start(ViewOf(dev, blobs, env), dev.tree, blobs);
    var os, sent := LoopOutcomes(dev, blobs, env), NewNames(dev, FetchEntries(blobs, dev.key));
    OnlyUploadsTotal(dev.key, start, env, os, sent);
  }

  lemma NothingFailed(key: string, acc0: Acc, env: Env, os: seq<Outcome>, sent: set<Path>)
    requires OnlyUploads(os, env.order, sent) && acc0.errors == []
    ensures Replay(key, acc0, env, os).errors == []
  {
    ErrorsAfter(key, acc0, env, os);
  }

  lemma OnlyUploadsCounted(key: string, acc0: Acc, env: Env, os: seq<Outcome>, sent: set<Path>)
    requires OnlyUploads(os, env.order, sent) && acc0.tally == ZERO
    ensures Replay(key, acc0, env, os).tally == Tally(Count(env.order[..|os|], sent), 0, 0, 0, 0)
  {
    UploadsCounted(key, acc0, env, os, sent);
  }

  lemma CountWhole(order: seq<Path>, n: nat, sent: set<Path>)
    requires n == |order| && NoRepeats(order)
    requires forall p :: p in sent ==> p in order
    ensures Count(order[..n], sent) == |sent|
  {
    assert order[..n] == order;
    CountAll(order, sent);
  }

  lemma OnlyUploadsTotal(key: string, acc0: Acc, env: Env, os: seq<Outcome>, sent: set<Path>)
    requires OnlyUploads(os, env.order, sent) && acc0.tally == ZERO && acc0.errors == [] && NoRepeats(env.order)
    requires forall p :: p in sent ==> p in env.order
    ensures var end := Replay(key, acc0, env, os);
            end.errors == [] && end.tally == Tally(|sent|, 0, 0, 0, 0)
  {
    NothingFailed(key, acc0, env, os, sent);
    OnlyUploadsCounted(key, acc0, env, os, sent);
    CountWhole(env.order, |os|, sent);
  }

  lemma InStepTree(dev: Device, blobs: Blobs, env: Env)
    requires Calm(dev, blobs, env) && Sound(dev, blobs)
    requires InStep(dev, FetchEntries(blobs, dev.key))
    ensures LoopEnd(dev, blobs, env).tree == dev.tree
  {
    forall p ensures Lookup(LoopEnd(dev, blobs, env).tree, p) == Lookup(dev.tree, p) {
      InStepTreeAt(dev, blobs, env, p);
    }
    SameLookups(LoopEnd(dev, blobs, env).tree, dev.tree);
  }

  lemma InStepTreeAt(dev: Device, blobs: Blobs, env: Env, p: Path)
    requires Calm(dev, blobs, env) && Sound(dev, blobs)
    requires InStep(dev, FetchEntries(blobs, dev.key))
    ensures Lookup(LoopEnd(dev, blobs, env).tree, p) == Lookup(dev.tree, p)
  {
    assert ViewOf(dev, blobs, env).locals == dev.tree;
    SettledSync(dev, blobs, env);
    if p in env.order {
      var o := InStepPath(dev, blobs, env, p);
    } else {
      Agreement(dev, blobs, env, p);
    }
  }

  lemma SameLookups(a: Tree, b: Tree)
    requires forall p :: Lookup(a, p) == Lookup(b, p)
    ensures a == b
  {
    assert forall p :: p in a <==> Lookup(a, p).Some?;
    assert forall p :: p in b <==> Lookup(b, p).Some?;
  }

  lemma AgreesInStep(key: string, tree: Tree, files: Entries, now: int, tree': Tree, files': Entries, bases': Bases,
                     copies: set<Path>)
    requires Agrees(tree, files, now, tree', files', bases', copies)
    ensures InStep(Device(key, tree', bases'), files') && NewNames(Device(key, tree', bases'), files') == copies
  {
    AgreesSettles(key, tree, files, now, tree', files', bases', copies);
    assert forall p :: p in tree' <==> LocalHash(tree', p).Some?;
  }

  lemma SyncStaysSound(dev: Device, blobs: Blobs, env: Env)
    requires Enumerates(env, ViewOf(dev, blobs, env)) && Sound(dev, blobs)
    ensures Sound(Sync(dev, blobs, env).device, Sync(dev, blobs, env).blobs)
  {
    SyncKeepsEntriesStored(dev, blobs, env, dev.key);
    SyncKeepsContentAddressed(dev, blobs, env);
    forall p {
      NextEntriesStored(dev, blobs, env, p);
    }
  }

  /** After any error-free sync the device is in step; what the manifest lacks are the conflict copies. */
  lemma SyncLeavesInStep(dev: Device, blobs: Blobs, env: Env, r: Synced)
    requires Calm(dev, blobs, env) && Sound(dev, blobs) && r == Sync(dev, blobs, env)
    ensures Sound(r.device, r.blobs) && r.device.key == dev.key
    ensures InStep(r.device, FetchEntries(r.blobs, dev.key))
    ensures NewNames(r.device, FetchEntries(r.blobs, dev.key)) == Copies(dev, blobs, env)
  {
    var end := LoopEnd(dev, blobs, env);
    SyncStaysSound(dev, blobs, env);
    ManifestAfter(dev, blobs, env);
    AgreementEverywhere(dev, blobs, env);
    AgreesInStep(dev.key, dev.tree, FetchEntries(blobs, dev.key), env.now, end.tree, end.files, end.bases,
                 Copies(dev, blobs, env));
  }

  /** A sync of a device in step changes no file and transfers exactly the files the manifest lacks. */
  lemma RepeatedSync(dev: Device, blobs: Blobs, env: Env, r: Synced)
    requires Calm(dev, blobs, env) && Sound(dev, blobs) && r == Sync(dev, blobs, env)
    requires InStep(dev, FetchEntries(blobs, dev.key))
    ensures r.tally == Tally(|NewNames(dev, FetchEntries(blobs, dev.key))|, 0, 0, 0, 0) && r.errors == []
    ensures r.device.tree == dev.tree
    ensures OnlyAdds(dev.tree, FetchEntries(blobs, dev.key), env.now, FetchEntries(r.blobs, dev.key))
  {
    InStepTally(dev, blobs, env);
    InStepTree(dev, blobs, env);
    SettledSync(dev, blobs, env);
    ManifestAfter(dev, blobs, env);
  }

  lemma NothingLeftToAdd(tree: Tree, files: Entries, t1: int, files': Entries, t2: int, files'': Entries)
    requires OnlyAdds(tree, files, t1, files') && OnlyAdds(tree, files', t2, files'')
    ensures tree.Keys <= files'.Keys && OnlyPrunes(tree, files', t2, files'')
  {
  }

  /**
   Three error-free syncs in a row: the second uploads exactly the conflict copies of the first and changes no file
   and no entry, outdated tombstones excepted; the third transfers nothing and only removes outdated tombstones.
   */
  lemma ThirdSyncIsFixpoint(dev: Device, blobs: Blobs, e1: Env, e2: Env, e3: Env, s1: Synced, s2: Synced, s3: Synced)
    requires Sound(dev, blobs)
    requires Calm(dev, blobs, e1) && s1 == Sync(dev, blobs, e1)
    requires Calm(s1.device, s1.blobs, e2) && s2 == Sync(s1.device, s1.blobs, e2)
    requires Calm(s2.device, s2.blobs, e3) && s3 == Sync(s2.device, s2.blobs, e3)
    ensures s2.tally == Tally(|Copies(dev, blobs, e1)|, 0, 0, 0, 0)
    ensures s3.device.tree == s2.device.tree == s1.device.tree
    ensures OnlyAdds(s1.device.tree, FetchEntries(s1.blobs, dev.key), e2.now, FetchEntries(s2.blobs, dev.key))
    ensures s3.tally == ZERO && s3.errors == []
    ensures OnlyPrunes(s2.device.tree, FetchEntries(s2.blobs, dev.key), e3.now, FetchEntries(s3.blobs, dev.key))
  {
    SyncLeavesInStep(dev, blobs, e1, s1);
    RepeatedSync(s1.device, s1.blobs, e2, s2);
    SyncLeavesInStep(s1.device, s1.blobs, e2, s2);
    RepeatedSync(s2.device, s2.blobs, e3, s3);
    NothingLeftToAdd(s1.device.tree, FetchEntries(s1.blobs, dev.key), e2.now, FetchEntries(s2.blobs, dev.key),
                     e3.now, FetchEntries(s3.blobs, dev.key));
    assert NewNames(s2.device, FetchEntries(s2.blobs, dev.key)) == {};
  }
}
