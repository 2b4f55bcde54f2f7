/**
 The merge law of an error-free sync, and what follows from it: edits beat deletions in either order,
 and a conflict keeps both contents exactly when the remote side is the newer one.
 */
module SyncMerge {
  import opened Options
  import opened ConflictNames
  import opened SyncModel
  import opened SyncSteps
  import opened SyncSafety
  import opened SyncConvergence
  import opened SyncFixpoint

  /**
   Three-way merge of contents: a side that did not change takes the other side; if both changed, an
   existing content beats a deletion and of two contents the newer one wins.
   */
  function Merge3(l: Option<Digest>, r: Option<Digest>, base: Option<Digest>, remoteNewer: bool): Option<Digest> {
    if l == base then r
    else if r == base then l
    else if l.None? then r
    else if r.None? then l
    else if remoteNewer then r else l
  }

  ghost predicate RemoteNewer(dev: Device, files: Entries, p: Path) {
    p in dev.tree && p in files && files[p].m > dev.tree[p].mtime
  }

  /** The merge of one path: a file without an entry is kept. */
  function Merged(l: Option<File>, r: Option<Entry>, s: Option<Base>): Option<Digest> {
    if r.None? then HashOf(l)
    else Merge3(HashOf(l), EntryHash(r), if s.Some? then Some(s.value.h) else None,
                l.Some? && r.value.m > l.value.mtime)
  }

  lemma MergeOutcome(key: string, p: Path, l: Option<File>, r: Option<Entry>, s: Option<Base>,
                     got: Option<Blob>, env: Env)
    requires env.faults == map[]
    ensures EntryHash(ChangedEntry(r, Decide(key, p, l, r, s, got, env).entry)) == Merged(l, r, s)
  {
    var plan := Classify(l, r, s, env.now);
    assert Applies(plan, l, r);
  }

  /**
   The merge law: afterwards file, live entry and base all hold the three-way merge of the path, and the path still has
   an entry unless that was an outdated tombstone.
   */
  lemma ThreeWayMerge(dev: Device, blobs: Blobs, env: Env, p: Path, r: Synced)
    requires Calm(dev, blobs, env) && Sound(dev, blobs) && r == Sync(dev, blobs, env)
    requires p in dev.tree || p in FetchEntries(blobs, dev.key)
    ensures var files, files' := FetchEntries(blobs, dev.key), FetchEntries(r.blobs, dev.key);
            && (p in files' <==> !PrunedAt(dev.tree, files, env.now, p))
            && LiveHash(files', p) == LocalHash(r.device.tree, p) == BaseHash(r.device.bases, p)
            && LiveHash(files', p) ==
               if p in files
               then Merge3(LocalHash(dev.tree, p), LiveHash(files, p), BaseHash(dev.bases, p),
                           RemoteNewer(dev, files, p))
               else LocalHash(dev.tree, p)
    ensures Sound(r.device, r.blobs) && r.device.key == dev.key
  {
    MergedEntry(dev, blobs, env, p);
    ManifestAfter(dev, blobs, env);
    assert Sound(r.device, r.blobs) by {
      SyncStaysSound(dev, blobs, env);
    }
  }

  lemma MergedEntry(dev: Device, blobs: Blobs, env: Env, p: Path)
    requires Calm(dev, blobs, env) && Sound(dev, blobs)
    requires p in dev.tree || p in FetchEntries(blobs, dev.key)
    ensures var files, end := FetchEntries(blobs, dev.key), LoopEnd(dev, blobs, env);
            && (p in end.files <==> !PrunedAt(dev.tree, files, env.now, p))
            && LiveHash(end.files, p) == LocalHash(end.tree, p) == BaseHash(end.bases, p)
            && LiveHash(end.files, p) == Merged(Lookup(dev.tree, p), Lookup(files, p), Lookup(dev.bases, p))
  {
    assert ViewOf(dev, blobs, env).locals == dev.tree;
    var o, got := CalmPath(dev, blobs, env, p);
    var l, r, s := Lookup(dev.tree, p), Lookup(FetchEntries(blobs, dev.key), p), Lookup(dev.bases, p);
    MergeOutcome(dev.key, p, l, r, s, got, env);
  }

  // ---------------------------------------------------------------- deletion against edit

  /** Both devices last saw `p` with the content the manifest still has. */
  ghost predicate InCommon(a: Device, b: Device, blobs: Blobs, p: Path) {
    var files := FetchEntries(blobs, a.key);
    && a.key == b.key && Sound(a, blobs) && Sound(b, blobs)
    && LiveHash(files, p).Some? && LiveHash(files, p) == BaseHash(a.bases, p) == BaseHash(b.bases, p)
  }

  /** `a` deleted `p`, `b` edited it; `a` syncs first. */
  lemma EditBeatsEarlierDelete(a: Device, b: Device, blobs: Blobs, p: Path, e1: Env, e2: Env, e3: Env,
                               s1: Synced, s2: Synced, s3: Synced)
    requires InCommon(a, b, blobs, p) && p !in a.tree && p in b.tree
    requires LocalHash(b.tree, p) != BaseHash(b.bases, p)
    requires Calm(a, blobs, e1) && s1 == Sync(a, blobs, e1)
    requires Calm(b, s1.blobs, e2) && s2 == Sync(b, s1.blobs, e2)
    requires Calm(s1.device, s2.blobs, e3) && s3 == Sync(s1.device, s2.blobs, e3)
    ensures p in s2.device.tree && s2.device.tree[p].data == b.tree[p].data
    ensures p in s3.device.tree && s3.device.tree[p].data == b.tree[p].data
  {
    ThreeWayMerge(a, blobs, e1, p, s1);
    ThreeWayMerge(b, s1.blobs, e2, p, s2);
    ThreeWayMerge(s1.device, s2.blobs, e3, p, s3);
  }

  /** The same with `b` syncing first. */
  lemma EditBeatsLaterDelete(a: Device, b: Device, blobs: Blobs, p: Path, e1: Env, e2: Env, e3: Env,
                             s1: Synced, s2: Synced, s3: Synced)
    requires InCommon(a, b, blobs, p) && p !in a.tree && p in b.tree
    requires LocalHash(b.tree, p) != BaseHash(b.bases, p)
    requires Calm(b, blobs, e1) && s1 == Sync(b, blobs, e1)
    requires Calm(a, s1.blobs, e2) && s2 == Sync(a, s1.blobs, e2)
    requires Calm(s2.device, s2.blobs, e3) && s3 == Sync(s2.device, s2.blobs, e3)
    ensures p in s1.device.tree && s1.device.tree[p].data == b.tree[p].data
    ensures p in s3.device.tree && s3.device.tree[p].data == b.tree[p].data
  {
    ThreeWayMerge(b, blobs, e1, p, s1);
    ThreeWayMerge(a, s1.blobs, e2, p, s2);
    ThreeWayMerge(s2.device, s2.blobs, e3, p, s3);
  }

  /** A copy that was not edited is deleted, and the tombstone stays in the manifest. */
  lemma UneditedCopyIsDeleted(a: Device, b: Device, blobs: Blobs, p: Path, e1: Env, e2: Env, s1: Synced, s2: Synced)
    requires InCommon(a, b, blobs, p) && p !in a.tree
    requires LocalHash(b.tree, p) == BaseHash(b.bases, p)
    requires Calm(a, blobs, e1) && s1 == Sync(a, blobs, e1)
    requires Calm(b, s1.blobs, e2) && s2 == Sync(b, s1.blobs, e2)
    ensures p !in s2.device.tree
    ensures var files := FetchEntries(s2.blobs, a.key); p in files && files[p].d
  {
    ThreeWayMerge(a, blobs, e1, p, s1);
    ThreeWayMerge(b, s1.blobs, e2, p, s2);
  }

  // ---------------------------------------------------------------- conflicts

  /** Local and remote content differ from each other and from the base. */
  ghost predicate InConflict(dev: Device, files: Entries, p: Path) {
    var l, r, s := LocalHash(dev.tree, p), LiveHash(files, p), BaseHash(dev.bases, p);
    l.Some? && r.Some? && l != r && l != s && r != s
  }

  /**
   A conflict keeps both contents, the local one on this device and the remote one on the relay, if and
   only if the remote entry is newer than the local file; otherwise the remote content is collected.
   */
  lemma ConflictKeepsBothIff(dev: Device, blobs: Blobs, env: Env, p: Path, r: Synced)
    requires Calm(dev, blobs, env) && Sound(dev, blobs) && r == Sync(dev, blobs, env) && env.keptBlobs == {}
    requires InConflict(dev, FetchEntries(blobs, dev.key), p)
    ensures Kept(r.device.tree, p, env.stamp, dev.tree[p].data)
    ensures FetchEntries(blobs, dev.key)[p].b in r.blobs <==> RemoteNewer(dev, FetchEntries(blobs, dev.key), p)
  {
    var files, files' := FetchEntries(blobs, dev.key), FetchEntries(r.blobs, dev.key);
    ThreeWayMerge(dev, blobs, env, p, r);
    NoLocalEditLost(dev, blobs, env, p);
    ManifestAfter(dev, blobs, env);
    LoserCollected(dev, blobs, env, p);
  }

  /** After a sync the blob of a former entry is stored exactly if the path still has that content. */
  lemma LoserCollected(dev: Device, blobs: Blobs, env: Env, p: Path)
    requires Calm(dev, blobs, env) && Sound(dev, blobs) && env.keptBlobs == {}
    requires p in FetchEntries(blobs, dev.key)
    ensures var e, end := FetchEntries(blobs, dev.key)[p], LoopEnd(dev, blobs, env);
            e.b in Sync(dev, blobs, env).blobs <==> p in end.files && end.files[p].h == e.h
  {
    var files, end := FetchEntries(blobs, dev.key), LoopEnd(dev, blobs, env);
    LoopBlobs(dev, blobs, env);
    forall q | q in end.files ensures end.files[q].b == FileBlobId(dev.key, q, end.files[q].h) {
      NextEntriesStored(dev, blobs, env, q);
    }
    CollectedIff(dev.key, files, BaseBlobs(dev.bases), end.files, end.blobs, env.now, p);
  }

  /** What is named by the old entries or bases and not by the new entries is removed, everything else stays. */
  lemma CollectedIff(key: string, files: Entries, saved: set<Digest>, next: Entries, stored: Blobs, now: int, p: Path)
    requires p in files && files[p].b == FileBlobId(key, p, files[p].h) && files[p].b in stored
    requires forall q :: q in next ==> next[q].b == FileBlobId(key, q, next[q].h)
    ensures files[p].b in Publish(stored, key, now, next) - (EntryBlobs(files) + saved - EntryBlobs(next) - {}) <==>
            p in next && next[p].h == files[p].h
  {
    assert files[p].b in EntryBlobs(files);
    if files[p].b in EntryBlobs(next) {
      var q :| q in next && next[q].b == files[p].b;
    }
  }

  /** The failure at an input: the remote entry is older than the local file, and its content is gone afterwards. */
  lemma OlderRemoteIsDropped() returns (dev: Device, blobs: Blobs, env: Env, p: Path)
    ensures Calm(dev, blobs, env) && Sound(dev, blobs) && env.keptBlobs == {}
    ensures InConflict(dev, FetchEntries(blobs, dev.key), p)
    ensures FetchEntries(blobs, dev.key)[p].b in blobs
    ensures FetchEntries(blobs, dev.key)[p].b !in Sync(dev, blobs, env).blobs
  {
    p := "a";
    var mine, theirs := Raw([1]), Raw([2]);
    var entry := Entry(ContentHash(theirs), 5, FileBlobId("k", p, ContentHash(theirs)), false);
    dev := Device("k", map[p := File(mine, 7)], map[]);
    blobs := map[ManifestId("k") := Sealed(ManifestJson(0, map[p := entry])), entry.b := Sealed(theirs)];
    env := Env(9, "", [p], {}, map[], map[], {}, Finishes);
    assert FetchEntries(blobs, "k") == map[p := entry];
    assert ViewOf(dev, blobs, env).locals == dev.tree;
    assert |ConflictPath(p, "")| > |p|;
    ConflictKeepsBothIff(dev, blobs, env, p, Sync(dev, blobs, env));
  }

  /**
   When the local side wins, the device that made the losing edit takes over the winning content at its next sync: it
   writes no copy, and the relay has not kept the edit either.
   */
  lemma LosingEditIsGone(a: Device, b: Device, blobs: Blobs, p: Path, e1: Env, e2: Env, s1: Synced, s2: Synced)
    requires a.key == b.key && Sound(a, blobs) && Sound(b, blobs)
    requires var files := FetchEntries(blobs, a.key);
             && InConflict(a, files, p) && !RemoteNewer(a, files, p)
             && LocalHash(b.tree, p) == BaseHash(b.bases, p) == LiveHash(files, p)
    requires Calm(a, blobs, e1) && s1 == Sync(a, blobs, e1)
    requires Calm(b, s1.blobs, e2) && s2 == Sync(b, s1.blobs, e2) && e2.keptBlobs == {}
    ensures LocalHash(s2.device.tree, p) == LocalHash(a.tree, p)
    ensures ConflictPath(p, e2.stamp) !in s2.device.tree
    ensures b.bases[p].b !in s2.blobs
  {
    ThreeWayMerge(a, blobs, e1, p, s1);
    ThreeWayMerge(b, s1.blobs, e2, p, s2);
    NoCopyOfUnedited(b, s1.blobs, e2, p, s2);
    FormerBaseCollected(b, s1.blobs, e2, p, s2);
  }

  /** A file that equals its base is not copied. */
  lemma NoCopyOfUnedited(dev: Device, blobs: Blobs, env: Env, p: Path, r: Synced)
    requires Calm(dev, blobs, env) && Sound(dev, blobs) && r == Sync(dev, blobs, env)
    requires LocalHash(dev.tree, p).Some? && LocalHash(dev.tree, p) == BaseHash(dev.bases, p)
    ensures ConflictPath(p, env.stamp) !in r.device.tree
  {
    var copy := ConflictPath(p, env.stamp);
    assert p in ViewOf(dev, blobs, env).locals;
    CopyIffOvertaken(dev, blobs, env, p);
    UneditedStays(dev, blobs, env, p);
    CalmCopy(dev, blobs, env, p);
    assert LocalHash(r.device.tree, copy).None?;
  }

  lemma UneditedStays(dev: Device, blobs: Blobs, env: Env, p: Path)
    requires LocalHash(dev.tree, p) == BaseHash(dev.bases, p)
    ensures !Overtaken(ViewOf(dev, blobs, env), env, p)
  {
  }

  /** The blob of a former base is removed when the path has another content now. */
  lemma FormerBaseCollected(dev: Device, blobs: Blobs, env: Env, p: Path, r: Synced)
    requires Calm(dev, blobs, env) && Sound(dev, blobs) && r == Sync(dev, blobs, env) && env.keptBlobs == {}
    requires p in dev.bases && LiveHash(FetchEntries(r.blobs, dev.key), p).Some?
    requires BaseHash(dev.bases, p) != LiveHash(FetchEntries(r.blobs, dev.key), p)
    ensures dev.bases[p].b !in r.blobs
  {
    var end := LoopEnd(dev, blobs, env);
    ManifestAfter(dev, blobs, env);
    forall q | q in end.files ensures end.files[q].b == FileBlobId(dev.key, q, end.files[q].h) {
      NextEntriesStored(dev, blobs, env, q);
    }
    BaseCollected(dev, EntryBlobs(FetchEntries(blobs, dev.key)), end.files, end.blobs, env.now, p);
  }

  lemma BaseCollected(dev: Device, named: set<Digest>, next: Entries, stored: Blobs, now: int, p: Path)
    requires BasesAddressed(dev) && p in dev.bases && p in next && next[p].h != dev.bases[p].h
    requires forall q :: q in next ==> next[q].b == FileBlobId(dev.key, q, next[q].h)
    ensures dev.bases[p].b !in
            Publish(stored, dev.key, now, next) - (named + BaseBlobs(dev.bases) - EntryBlobs(next) - {})
  {
    assert dev.bases[p].b in BaseBlobs(dev.bases);
  }
}
