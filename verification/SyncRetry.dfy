/** What a fault does to the next sync: a failed step forgets the base of its path. */
module SyncRetry {
  import opened Options
  import opened ConflictNames
  import opened SyncModel
  import opened SyncSteps
  import opened SyncSafety
  import opened SyncConvergence
  import opened SyncFixpoint
  import opened SyncMerge

  /** The step does not get through all its calls. */
  predicate Fails(plan: Plan, f: Fault) {
    match plan
    case Push => !Succeeds(f, 0)
    case PushOver => !Succeeds(f, 0)
    case DropLocal => !Succeeds(f, 0)
    case Pull => !Succeeds(f, 2)
    case KeepBoth => !Succeeds(f, 4)
    case _ => false
  }

  /** Trying again without the base gives the same content; to be told before the step that fails. */
  predicate RetryMerges(plan: Plan, f: Fault, l: Option<File>, r: Option<Entry>) {
    match plan
    case Push => l.Some? && Live(r) ==> r.value.m <= l.value.mtime
    case Pull => l.None? || TakesEffect(f, 2) || (r.Some? && r.value.m > l.value.mtime)
    case DropLocal => TakesEffect(f, 0)
    case _ => true
  }

  /** The local file ends as the merge says, as it must if the old manifest goes and the new one does not come. */
  predicate FileSettles(plan: Plan, f: Fault) {
    match plan
    case Pull => TakesEffect(f, 2)
    case KeepBoth => TakesEffect(f, 4)
    case DropLocal => TakesEffect(f, 0)
    case _ => true
  }

  /**
   A step decided at `now` does not fail, or trying again makes up for it. A run that stops early keeps the bases, so
   only the loss of the manifest can do harm.
   */
  predicate Recovers(l: Option<File>, r: Option<Entry>, s: Option<Base>, now: int, f: Fault, abort: Abort) {
    var plan := Classify(l, r, s, now);
    match abort
    case Finishes => Fails(plan, f) ==> RetryMerges(plan, f, l, r)
    case BeforeManifest => true
    case WithoutManifest => FileSettles(plan, f)
    case BeforeState => true
  }

  /** One step that fails, with what it leaves behind merged once more. */
  lemma RetryOutcomeIff(key: string, p: Path, l: Option<File>, r: Option<Entry>, s: Option<Base>,
                        got: Option<Blob>, env: Env)
    requires r.Some? ==> got.Some? && got.value.Sealed? && ContentHash(got.value.plain) == r.value.h
    requires Fails(Classify(l, r, s, env.now), FaultFor(env, p))
    ensures var o := Decide(key, p, l, r, s, got, env);
            && o.failed && o.entry == KeepEntry && o.base == None
            && (Merged(Changed(l, o.file, WriteTime(env, p)), r, None) == Merged(l, r, s) <==>
                RetryMerges(Classify(l, r, s, env.now), FaultFor(env, p), l, r))
  {
    var plan := Classify(l, r, s, env.now);
    assert plan in {Push, PushOver, Pull, KeepBoth, DropLocal};
  }

  /** A step that does not fail ends with file and entry agreeing, and merging again changes nothing. */
  lemma SuccessStays(key: string, p: Path, l: Option<File>, r: Option<Entry>, s: Option<Base>,
                     got: Option<Blob>, env: Env)
    requires r.Some? ==> got.Some? && got.value.Sealed? && ContentHash(got.value.plain) == r.value.h
    requires !Fails(Classify(l, r, s, env.now), FaultFor(env, p))
    ensures var o := Decide(key, p, l, r, s, got, env);
            Merged(Changed(l, o.file, WriteTime(env, p)), ChangedEntry(r, o.entry), o.base) == Merged(l, r, s)
  {
    var plan := Classify(l, r, s, env.now);
    assert Applies(plan, l, r);
  }

  /** With the base kept, merging again what a step left gives the same, with the new entry or with the old one. */
  lemma OldBaseMerges(key: string, p: Path, l: Option<File>, r: Option<Entry>, s: Option<Base>,
                      got: Option<Blob>, env: Env)
    requires r.Some? ==> got.Some? && got.value.Sealed? && ContentHash(got.value.plain) == r.value.h
    ensures var o := Decide(key, p, l, r, s, got, env);
            var after := Changed(l, o.file, WriteTime(env, p));
            && Merged(after, r, s) == Merged(after, ChangedEntry(r, o.entry), s) == Merged(l, r, s)
            && (Merged(after, None, s) == Merged(l, r, s) <==>
                FileSettles(Classify(l, r, s, env.now), FaultFor(env, p)))
  {
    var plan := Classify(l, r, s, env.now);
    assert Applies(plan, l, r);
  }

  /** The entry and the base a run leaves for a path, by where it stops. */
  function EntryLeft(abort: Abort, r: Option<Entry>, change: EntryChange): Option<Entry> {
    match abort
    case BeforeManifest => r
    case WithoutManifest => None
    case _ => ChangedEntry(r, change)
  }

  function BaseLeft(abort: Abort, s: Option<Base>, recorded: Option<Base>): Option<Base> {
    if abort == Finishes then recorded else s
  }

  lemma StepRetryIff(key: string, p: Path, l: Option<File>, r: Option<Entry>, s: Option<Base>,
                     got: Option<Blob>, env: Env)
    requires r.Some? ==> got.Some? && got.value.Sealed? && ContentHash(got.value.plain) == r.value.h
    ensures var o := Decide(key, p, l, r, s, got, env);
            Merged(Changed(l, o.file, WriteTime(env, p)), EntryLeft(env.abort, r, o.entry),
                   BaseLeft(env.abort, s, o.base)) == Merged(l, r, s) <==>
            Recovers(l, r, s, env.now, FaultFor(env, p), env.abort)
  {
    if env.abort != Finishes {
      OldBaseMerges(key, p, l, r, s, got, env);
    } else if Fails(Classify(l, r, s, env.now), FaultFor(env, p)) {
      RetryOutcomeIff(key, p, l, r, s, got, env);
    } else {
      SuccessStays(key, p, l, r, s, got, env);
    }
  }

  /** What one sync, with faults or stopped, leaves at `p`. */
  lemma PathLeft(dev: Device, blobs: Blobs, env: Env, p: Path) returns (o: Outcome, got: Option<Blob>)
    requires Enumerates(env, ViewOf(dev, blobs, env)) && Orderly(env) && env.skipped == {}
    requires Sound(dev, blobs) && p in env.order
    ensures var l, r, s := Lookup(dev.tree, p), Lookup(FetchEntries(blobs, dev.key), p), Lookup(dev.bases, p);
            && o == Decide(dev.key, p, l, r, s, got, env)
            && (r.Some? ==> got.Some? && got.value.Sealed? && ContentHash(got.value.plain) == r.value.h)
            && Lookup(LoopEnd(dev, blobs, env).tree, p) == Changed(l, o.file, WriteTime(env, p))
            && Lookup(LoopEnd(dev, blobs, env).files, p) == ChangedEntry(r, o.entry)
            && Lookup(LoopEnd(dev, blobs, env).bases, p) == o.base
  {
    o, got := PathResult(dev, blobs, env, p);
    assert Lookup(ViewOf(dev, blobs, env).locals, p) == Lookup(dev.tree, p);
  }

  /** Up to what a second, error-free sync makes of it, it is what was there before exactly if the step recovers. */
  lemma PathRetryIff(dev: Device, blobs: Blobs, env: Env, p: Path)
    requires Enumerates(env, ViewOf(dev, blobs, env)) && Orderly(env) && env.skipped == {}
    requires Sound(dev, blobs) && p in env.order
    ensures var after := Sync(dev, blobs, env);
            var l, r, s := Lookup(dev.tree, p), Lookup(FetchEntries(blobs, dev.key), p), Lookup(dev.bases, p);
            Merged(Lookup(after.device.tree, p), Lookup(FetchEntries(after.blobs, dev.key), p),
                   Lookup(after.device.bases, p)) == Merged(l, r, s) <==>
            Recovers(l, r, s, env.now, FaultFor(env, p), env.abort)
  {
    var l, r, s := Lookup(dev.tree, p), Lookup(FetchEntries(blobs, dev.key), p), Lookup(dev.bases, p);
    var o, got := PathLeft(dev, blobs, env, p);
    ManifestAfter(dev, blobs, env);
    assert Lookup(FetchEntries(Sync(dev, blobs, env).blobs, dev.key), p) == EntryLeft(env.abort, r, o.entry);
    assert Lookup(Sync(dev, blobs, env).device.bases, p) == BaseLeft(env.abort, s, o.base);
    StepRetryIff(dev.key, p, l, r, s, got, env);
  }

  /**
   A sync with faults, or stopped early, and then an error-free one, or an error-free one at once: the manifest has the
   same live content for a path afterwards exactly if the path's step recovers.
   */
  lemma FaultChangesMergeIff(dev: Device, blobs: Blobs, env: Env, p: Path, e0: Env, e2: Env,
                             s0: Synced, s1: Synced, s2: Synced)
    requires Enumerates(env, ViewOf(dev, blobs, env)) && Orderly(env) && env.skipped == {}
    requires Sound(dev, blobs) && s1 == Sync(dev, blobs, env) && p in env.order
    requires Calm(dev, blobs, e0) && s0 == Sync(dev, blobs, e0)
    requires Calm(s1.device, s1.blobs, e2) && s2 == Sync(s1.device, s1.blobs, e2)
    ensures LiveHash(FetchEntries(s2.blobs, dev.key), p) == LiveHash(FetchEntries(s0.blobs, dev.key), p) <==>
            Recovers(Lookup(dev.tree, p), Lookup(FetchEntries(blobs, dev.key), p), Lookup(dev.bases, p), env.now,
                     FaultFor(env, p), env.abort)
  {
    PathRetryIff(dev, blobs, env, p);
    MergedNext(dev, blobs, env, p, e2, s1, s2);
    MergedIn(dev, blobs, e0, p, s0);
  }

  lemma MergedNext(dev: Device, blobs: Blobs, env: Env, p: Path, e2: Env, s1: Synced, s2: Synced)
    requires Enumerates(env, ViewOf(dev, blobs, env)) && Sound(dev, blobs) && s1 == Sync(dev, blobs, env)
    requires Calm(s1.device, s1.blobs, e2) && s2 == Sync(s1.device, s1.blobs, e2)
    ensures LiveHash(FetchEntries(s2.blobs, dev.key), p) ==
            Merged(Lookup(s1.device.tree, p), Lookup(FetchEntries(s1.blobs, dev.key), p), Lookup(s1.device.bases, p))
  {
    SyncStaysSound(dev, blobs, env);
    MergedIn(s1.device, s1.blobs, e2, p, s2);
  }

  /** The manifest after an error-free sync holds the merge, also for a path nobody has. */
  lemma MergedIn(dev: Device, blobs: Blobs, env: Env, p: Path, r: Synced)
    requires Calm(dev, blobs, env) && Sound(dev, blobs) && r == Sync(dev, blobs, env)
    ensures LiveHash(FetchEntries(r.blobs, dev.key), p) ==
            Merged(Lookup(dev.tree, p), Lookup(FetchEntries(blobs, dev.key), p), Lookup(dev.bases, p))
  {
    ManifestAfter(dev, blobs, env);
    if p in dev.tree || p in FetchEntries(blobs, dev.key) {
      MergedEntry(dev, blobs, env, p);
    } else {
      Agreement(dev, blobs, env, p);
    }
  }

  /** The file was deleted elsewhere and is to be removed. */
  predicate GivesUp(dev: Device, blobs: Blobs, env: Env, p: Path) {
    var r := Lookup(FetchEntries(blobs, dev.key), p);
    Classify(Lookup(dev.tree, p), r, Lookup(dev.bases, p), env.now) == DropLocal
  }

  /** The failure at its worst: the removal of a file deleted elsewhere throws, and the next sync brings it back. */
  lemma FailedRemovalReturns(dev: Device, blobs: Blobs, env: Env, p: Path, e2: Env, s1: Synced, s2: Synced)
    requires Enumerates(env, ViewOf(dev, blobs, env)) && Orderly(env) && env.skipped == {} && env.abort == Finishes
    requires Sound(dev, blobs) && s1 == Sync(dev, blobs, env)
    requires GivesUp(dev, blobs, env, p) && FaultFor(env, p) == FailsAt(0, false)
    requires Calm(s1.device, s1.blobs, e2) && s2 == Sync(s1.device, s1.blobs, e2)
    ensures p in dev.tree && LiveHash(FetchEntries(s2.blobs, dev.key), p) == LocalHash(dev.tree, p)
  {
    FailedRemovalLeaves(dev, blobs, env, p);
    TombstoneIsForgotten(Lookup(dev.tree, p), Lookup(FetchEntries(blobs, dev.key), p), Lookup(dev.bases, p), env.now);
    SyncStaysSound(dev, blobs, env);
    ManifestAfter(dev, blobs, env);
    MergedIn(s1.device, s1.blobs, e2, p, s2);
  }

  lemma FailedRemovalLeaves(dev: Device, blobs: Blobs, env: Env, p: Path)
    requires Enumerates(env, ViewOf(dev, blobs, env)) && Orderly(env) && env.skipped == {}
    requires GivesUp(dev, blobs, env, p) && FaultFor(env, p) == FailsAt(0, false)
    ensures var end := LoopEnd(dev, blobs, env);
            && Lookup(end.tree, p) == Lookup(dev.tree, p)
            && Lookup(end.files, p) == Lookup(FetchEntries(blobs, dev.key), p)
            && Lookup(end.bases, p) == None
  {
    var o, got := PathResult(dev, blobs, env, p);
    var l, r, s := Lookup(dev.tree, p), Lookup(FetchEntries(blobs, dev.key), p), Lookup(dev.bases, p);
    assert Lookup(ViewOf(dev, blobs, env).locals, p) == l;
    FailedRemovalDoes(dev.key, p, l, r, s, got, env);
  }

  lemma FailedRemovalDoes(key: string, p: Path, l: Option<File>, r: Option<Entry>, s: Option<Base>,
                          got: Option<Blob>, env: Env)
    requires Classify(l, r, s, env.now) == DropLocal && FaultFor(env, p) == FailsAt(0, false)
    ensures var o := Decide(key, p, l, r, s, got, env);
            o.file == Keep && o.copy == None && o.entry == KeepEntry && o.base == None
  {
  }

  /** One file with its base and its tombstone, on a relay that has the content. */
  lemma OneGivenUp() returns (dev: Device, blobs: Blobs, gone: Entry)
    ensures dev.key == "k" && dev.tree.Keys == {"a"} && Sound(dev, blobs)
    ensures FetchEntries(blobs, "k") == map["a" := gone] && gone.d && "a" in dev.bases
    ensures gone.h == dev.bases["a"].h == ContentHash(dev.tree["a"].data)
  {
    var content := Raw([1]);
    gone := Entry(ContentHash(content), 5, FileBlobId("k", "a", ContentHash(content)), true);
    dev := Device("k", map["a" := File(content, 3)], map["a" := Base(gone.h, gone.b)]);
    blobs := map[ManifestId("k") := Sealed(ManifestJson(0, map["a" := gone])), gone.b := Sealed(content)];
  }

  function Only(faults: map<Path, Fault>): Env {
    Env(9, "", ["a"], {}, map[], faults, {}, Finishes)
  }

  lemma OnlyEnumerates(dev: Device, blobs: Blobs, faults: map<Path, Fault>)
    requires dev.tree.Keys == FetchEntries(blobs, dev.key).Keys == {"a"}
    ensures Enumerates(Only(faults), ViewOf(dev, blobs, Only(faults))) && Orderly(Only(faults))
  {
    assert ViewOf(dev, blobs, Only(faults)).locals == dev.tree;
    assert |ConflictPath("a", "")| > |"a"|;
  }

  /** The same at an input. */
  lemma RemovalFailsOnce() returns (dev: Device, blobs: Blobs, env: Env, e2: Env)
    ensures dev.tree.Keys == {"a"} && Sound(dev, blobs) && env.faults == map["a" := FailsAt(0, false)]
    ensures Enumerates(env, ViewOf(dev, blobs, env)) && Orderly(env) && GivesUp(dev, blobs, env, "a")
    ensures var s1 := Sync(dev, blobs, env);
            && Calm(s1.device, s1.blobs, e2)
            && LiveHash(FetchEntries(Sync(s1.device, s1.blobs, e2).blobs, dev.key), "a") == LocalHash(dev.tree, "a")
  {
    var gone;
    dev, blobs, gone := OneGivenUp();
    env, e2 := Only(map["a" := FailsAt(0, false)]), Only(map[]);
    OnlyEnumerates(dev, blobs, env.faults);
    OnlyFileStays(dev, blobs, env, "a");
    ManifestAfter(dev, blobs, env);
    var s1 := Sync(dev, blobs, env);
    OnlyEnumerates(s1.device, s1.blobs, e2.faults);
    FailedRemovalReturns(dev, blobs, env, "a", e2, s1, Sync(s1.device, s1.blobs, e2));
  }

  /** If the only step is a removal that fails, files and entries are as before. */
  lemma OnlyFileStays(dev: Device, blobs: Blobs, env: Env, p: Path)
    requires env.order == [p] && p !in env.skipped
    requires GivesUp(dev, blobs, env, p) && FaultFor(env, p) == FailsAt(0, false)
    ensures var end := LoopEnd(dev, blobs, env);
            end.tree == dev.tree && end.files == FetchEntries(blobs, dev.key)
  {
    var os := LoopOutcomes(dev, blobs, env);
    var v := ViewOf(dev, blobs, env);
    OutcomeIs(dev.key, Decider(v, env), Start(v, dev.tree, blobs), env, 1, 0);
    assert os == [os[0]] && os[..0] == [];
  }

  lemma TombstoneIsForgotten(l: Option<File>, r: Option<Entry>, s: Option<Base>, now: int)
    requires Classify(l, r, s, now) == DropLocal
    ensures l.Some? && Merged(l, r, None) == HashOf(l)
  {
  }
}
