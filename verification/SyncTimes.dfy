/**
 Which modification times the manifest carries, and what they decide: of two edits of a common base the one whose file
 is newer wins, whichever device syncs first.
 */
module SyncTimes {
  import opened Options
  import opened SyncModel
  import opened SyncSteps
  import opened SyncSafety
  import opened SyncConvergence
  import opened SyncMerge

  /** The time of an edit: that of the file, or the time of the sync for a file without one. */
  function EditTime(f: File, now: int): int {
    if f.mtime == 0 then now else f.mtime
  }

  /**
   An entry is the former one, a tombstone of it made now, or, for a content the live manifest did not have, the entry
   of the walked file, with the time of that file.
   */
  ghost predicate EntryTold(key: string, p: Path, l: Option<File>, r: Option<Entry>, e: Entry, now: int) {
    if e.d then r.Some? && e == if r.value.d then r.value else r.value.(d := true, m := now)
    else if EntryHash(r) == Some(e.h) then e == r.value
    else
      && l.Some? && e.h == ContentHash(l.value.data) && e.m == EditTime(l.value, now)
      && e.b == FileBlobId(key, p, e.h)
  }

  lemma OutcomeTold(key: string, p: Path, l: Option<File>, r: Option<Entry>, s: Option<Base>, got: Option<Blob>,
                    env: Env)
    ensures var e := ChangedEntry(r, Decide(key, p, l, r, s, got, env).entry);
            e.Some? ==> EntryTold(key, p, l, r, e.value, env.now)
  {
    var plan := Classify(l, r, s, env.now);
    assert Applies(plan, l, r);
  }

  /** Every entry of the manifest a sync builds, whatever fails, is one of these. */
  lemma EntryAfter(dev: Device, blobs: Blobs, env: Env, p: Path)
    requires Enumerates(env, ViewOf(dev, blobs, env)) && p in LoopEnd(dev, blobs, env).files
    ensures EntryTold(dev.key, p, Lookup(Walk(dev.tree, env.skipped), p), Lookup(FetchEntries(blobs, dev.key), p),
                      LoopEnd(dev, blobs, env).files[p], env.now)
  {
    if p !in env.order {
      PathUntouched(dev, blobs, env, p);
    } else {
      var v := ViewOf(dev, blobs, env);
      var o, got := PathResult(dev, blobs, env, p);
      OutcomeTold(dev.key, p, Lookup(v.locals, p), Lookup(v.remote, p), Lookup(v.saved, p), got, env);
    }
  }

  /** The live entry of a file this sync uploaded carries the time of that file. */
  lemma UploadedTime(dev: Device, blobs: Blobs, env: Env, p: Path, r: Synced)
    requires Calm(dev, blobs, env) && Sound(dev, blobs) && r == Sync(dev, blobs, env)
    requires LiveHash(FetchEntries(r.blobs, dev.key), p) !in {None, LiveHash(FetchEntries(blobs, dev.key), p)}
    ensures p in dev.tree && LocalHash(dev.tree, p) == LiveHash(FetchEntries(r.blobs, dev.key), p)
    ensures FetchEntries(r.blobs, dev.key)[p].m == EditTime(dev.tree[p], env.now)
  {
    ManifestAfter(dev, blobs, env);
    EntryAfter(dev, blobs, env, p);
    assert Walk(dev.tree, env.skipped) == dev.tree;
  }

  /** A tombstone of a file that is not here either is kept for thirty days of 86400000 milliseconds, and not longer. */
  lemma TombstoneAge(dev: Device, blobs: Blobs, env: Env, p: Path, r: Synced)
    requires Calm(dev, blobs, env) && Sound(dev, blobs) && r == Sync(dev, blobs, env)
    requires p !in dev.tree && p in FetchEntries(blobs, dev.key) && FetchEntries(blobs, dev.key)[p].d
    ensures p in FetchEntries(r.blobs, dev.key) <==>
            env.now - FetchEntries(blobs, dev.key)[p].m <= 30 * 86400000
  {
    ManifestAfter(dev, blobs, env);
    Agreement(dev, blobs, env, p);
  }

  // ---------------------------------------------------------------- two edits of a common base

  /** Both devices edited the common base, and not to the same content. */
  ghost predicate BothEdited(a: Device, b: Device, blobs: Blobs, p: Path) {
    && InCommon(a, b, blobs, p) && p in a.tree && p in b.tree
    && LocalHash(a.tree, p) != BaseHash(a.bases, p) && LocalHash(b.tree, p) != BaseHash(b.bases, p)
    && LocalHash(a.tree, p) != LocalHash(b.tree, p)
  }

  /** The two devices sync without errors one after the other, and the first then once more. */
  ghost predicate InTurn(first: Device, second: Device, blobs: Blobs, e1: Env, e2: Env, e3: Env,
                         s1: Synced, s2: Synced, s3: Synced) {
    && Calm(first, blobs, e1) && s1 == Sync(first, blobs, e1)
    && Calm(second, s1.blobs, e2) && s2 == Sync(second, s1.blobs, e2)
    && Calm(s1.device, s2.blobs, e3) && s3 == Sync(s1.device, s2.blobs, e3)
  }

  /** Both devices and the manifest have this content. */
  ghost predicate Won(s2: Synced, s3: Synced, p: Path, h: Option<Digest>) {
    && LocalHash(s2.device.tree, p) == LocalHash(s3.device.tree, p) == h
    && LiveHash(FetchEntries(s3.blobs, s3.device.key), p) == h
  }

  /** The edit synced first wins exactly if its time is after that of the file edited on the other device. */
  lemma TwoEdits(a: Device, b: Device, blobs: Blobs, p: Path, e1: Env, e2: Env, e3: Env,
                 s1: Synced, s2: Synced, s3: Synced)
    requires BothEdited(a, b, blobs, p) && InTurn(a, b, blobs, e1, e2, e3, s1, s2, s3)
    ensures Won(s2, s3, p, LocalHash(if EditTime(a.tree[p], e1.now) > b.tree[p].mtime then a.tree else b.tree, p))
  {
    ThreeWayMerge(a, blobs, e1, p, s1);
    UploadedTime(a, blobs, e1, p, s1);
    ThreeWayMerge(b, s1.blobs, e2, p, s2);
    ThreeWayMerge(s1.device, s2.blobs, e3, p, s3);
  }

  /** Of two edits of a common base the one of the newer file wins on both devices, whichever of them syncs first. */
  lemma NewerEditWins(newer: Device, older: Device, blobs: Blobs, p: Path, e1: Env, e2: Env, e3: Env,
                      s1: Synced, s2: Synced, s3: Synced)
    requires BothEdited(newer, older, blobs, p)
    requires newer.tree[p].mtime > older.tree[p].mtime && newer.tree[p].mtime != 0 && older.tree[p].mtime != 0
    requires InTurn(newer, older, blobs, e1, e2, e3, s1, s2, s3) || InTurn(older, newer, blobs, e1, e2, e3, s1, s2, s3)
    ensures Won(s2, s3, p, LocalHash(newer.tree, p))
  {
    if InTurn(newer, older, blobs, e1, e2, e3, s1, s2, s3) {
      TwoEdits(newer, older, blobs, p, e1, e2, e3, s1, s2, s3);
    } else {
      TwoEdits(older, newer, blobs, p, e1, e2, e3, s1, s2, s3);
    }
  }
}
