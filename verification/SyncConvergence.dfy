/**
 What error-free syncs achieve: agreement of one device with the manifest, a fixpoint after three syncs,
 edits that win over deletions, and convergence of all devices after three rounds.
 */
module SyncConvergence {
  import opened Options
  import opened ConflictNames
  import opened SyncModel
  import opened SyncSteps
  import opened SyncSafety

  // ---------------------------------------------------------------- contents by path

  function HashOf(f: Option<File>): Option<Digest> {
    if f.Some? then Some(ContentHash(f.value.data)) else None
  }

  function EntryHash(e: Option<Entry>): Option<Digest> {
    if Live(e) then Some(e.value.h) else None
  }

  function LocalHash(tree: Tree, p: Path): Option<Digest> {
    HashOf(Lookup(tree, p))
  }

  function LiveHash(files: Entries, p: Path): Option<Digest> {
    EntryHash(Lookup(files, p))
  }

  function BaseHash(bases: Bases, p: Path): Option<Digest> {
    if p in bases then Some(bases[p].h) else None
  }

  /** An error-free sync: no fault, no abort, every file readable. */
  ghost predicate Calm(dev: Device, blobs: Blobs, env: Env) {
    && Enumerates(env, ViewOf(dev, blobs, env)) && Orderly(env)
    && env.faults == map[] && env.abort == Finishes && env.skipped == {}
  }

  /** The tombstone of a file that is not there either has reached the age at which it is pruned. */
  predicate Outdated(l: Option<File>, r: Option<Entry>, now: int) {
    l.None? && r.Some? && r.value.d && now - r.value.m > TOMBSTONE_PRUNE_MS
  }

  predicate PrunedAt(tree: Tree, files: Entries, now: int, p: Path) {
    Outdated(Lookup(tree, p), Lookup(files, p), now)
  }

  ghost predicate Sound(dev: Device, blobs: Blobs) {
    ContentAddressed(blobs) && EntriesStored(blobs, dev.key) && BasesAddressed(dev)
  }

  /** Both sides changed and the remote one is newer, so the local content is saved as a copy. */
  ghost predicate Overtaken(v: View, env: Env, p: Path) {
    Classify(Lookup(v.locals, p), Lookup(v.remote, p), Lookup(v.saved, p), env.now) == KeepBoth
  }

  /** The names of the conflict copies a sync writes. */
  ghost function Copies(dev: Device, blobs: Blobs, env: Env): set<Path> {
    var v := ViewOf(dev, blobs, env);
    set p | p in env.order && Overtaken(v, env, p) :: ConflictPath(p, env.stamp)
  }

  lemma CopyIffOvertaken(dev: Device, blobs: Blobs, env: Env, p: Path)
    requires PlainStamp(env.stamp) && p in env.order
    ensures ConflictPath(p, env.stamp) in Copies(dev, blobs, env) <==> Overtaken(ViewOf(dev, blobs, env), env, p)
  {
    var v := ViewOf(dev, blobs, env);
    if q :| q in env.order && Overtaken(v, env, q) && ConflictPath(q, env.stamp) == ConflictPath(p, env.stamp) {
      ConflictPathInjective(p, q, env.stamp);
    }
  }

  // ---------------------------------------------------------------- one path of an error-free sync

  /** Without faults a path ends with file, live entry and base agreeing; only outdated tombstones disappear. */
  lemma CalmOutcome(key: string, p: Path, l: Option<File>, r: Option<Entry>, s: Option<Base>,
                    got: Option<Blob>, env: Env)
    requires env.faults == map[]
    requires r.Some? ==> got.Some? && got.value.Sealed? && ContentHash(got.value.plain) == r.value.h
    ensures var o := Decide(key, p, l, r, s, got, env);
            var e := ChangedEntry(r, o.entry);
            && !o.failed
            && HashOf(Changed(l, o.file, WriteTime(env, p))) == EntryHash(e)
            && o.base == (if Live(e) then Some(BaseOf(e.value)) else None)
            && (e.Some? <==> (l.Some? || r.Some?) && !Outdated(l, r, env.now))
            && (o.copy.Some? <==> Classify(l, r, s, env.now) == KeepBoth)
            && (o.copy.Some? ==> l.Some? && o.copy.value == l.value.data)
  {
    var plan := Classify(l, r, s, env.now);
    assert FaultFor(env, p) == NoFault;
    assert plan == InSync ==> r.value.h == ContentHash(l.value.data);
  }

  lemma CalmPath(dev: Device, blobs: Blobs, env: Env, p: Path) returns (o: Outcome, got: Option<Blob>)
    requires Calm(dev, blobs, env) && Sound(dev, blobs) && p in env.order
    ensures var v, end := ViewOf(dev, blobs, env), LoopEnd(dev, blobs, env);
            var l, r, s := Lookup(dev.tree, p), Lookup(v.remote, p), Lookup(dev.bases, p);
            && o == Decide(dev.key, p, l, r, s, got, env)
            && (r.Some? ==> got.Some? && got.value.Sealed? && ContentHash(got.value.plain) == r.value.h)
            && Lookup(end.files, p) == ChangedEntry(r, o.entry)
            && Lookup(end.bases, p) == o.base
            && Lookup(end.tree, p) == Changed(l, o.file, WriteTime(env, p))
            && LocalHash(end.tree, p) == LiveHash(end.files, p) == BaseHash(end.bases, p)
            && (p in end.files <==> !PrunedAt(dev.tree, v.remote, env.now, p))
            && (var cp := ConflictPath(p, env.stamp);
                Lookup(end.tree, cp) == if o.copy.Some? then Some(File(o.copy.value, WriteTime(env, cp)))
                                        else Lookup(dev.tree, cp))
            && (o.copy.Some? <==> Overtaken(v, env, p))
            && (o.copy.Some? ==> l.Some? && o.copy.value == l.value.data)
            && end.tally.conflicts >= o.tally.conflicts
            && (forall k :: 0 <= k < |env.order| && env.order[k] == p ==> LoopOutcomes(dev, blobs, env)[k] == o)
            && !o.failed
  {
    var v := ViewOf(dev, blobs, env);
    o, got := PathResult(dev, blobs, env, p);
    assert Lookup(v.locals, p) == Lookup(dev.tree, p);
    CalmOutcome(dev.key, p, Lookup(dev.tree, p), Lookup(v.remote, p), Lookup(dev.bases, p), got, env);
  }

  lemma CopyEffect(dev: Device, blobs: Blobs, env: Env, p: Path)
    requires Calm(dev, blobs, env) && Sound(dev, blobs) && p in env.order
    ensures var cp, tree := ConflictPath(p, env.stamp), LoopEnd(dev, blobs, env).tree;
            if Overtaken(ViewOf(dev, blobs, env), env, p)
            then p in dev.tree && Lookup(tree, cp) == Some(File(dev.tree[p].data, WriteTime(env, cp)))
            else Lookup(tree, cp) == Lookup(dev.tree, cp)
  {
    var o, got := CalmPath(dev, blobs, env, p);
  }

  /** A conflict copy is written exactly for an overtaken file, with its content, under an unused name. */
  lemma CalmCopy(dev: Device, blobs: Blobs, env: Env, p: Path)
    requires Calm(dev, blobs, env) && Sound(dev, blobs) && p in env.order
    ensures var cp, end := ConflictPath(p, env.stamp), LoopEnd(dev, blobs, env);
            && cp !in dev.tree && cp !in env.order
            && LocalHash(end.tree, cp) == (if cp in Copies(dev, blobs, env) then LocalHash(dev.tree, p) else None)
            && (cp in Copies(dev, blobs, env) ==> p in dev.tree)
  {
    NoCopyInOrder(env, p);
    assert ViewOf(dev, blobs, env).locals == dev.tree;
    CopyIffOvertaken(dev, blobs, env, p);
    CopyEffect(dev, blobs, env, p);
  }

  lemma NoCopyInOrder(env: Env, p: Path)
    requires Orderly(env) && p in env.order
    ensures ConflictPath(p, env.stamp) !in env.order
  {
  }

  /** After an error-free sync local files, live manifest and state agree, conflict copies aside. */
  lemma Agreement(dev: Device, blobs: Blobs, env: Env, p: Path)
    requires Calm(dev, blobs, env) && Sound(dev, blobs)
    ensures var end := LoopEnd(dev, blobs, env);
            && LiveHash(end.files, p) == BaseHash(end.bases, p)
            && (p in end.bases ==> end.bases[p] == BaseOf(end.files[p]))
            && (p in end.files <==> p in env.order && !PrunedAt(dev.tree, FetchEntries(blobs, dev.key), env.now, p))
            && (p in Copies(dev, blobs, env) ==> p !in dev.tree && p in end.tree && p !in end.files)
            && (p !in Copies(dev, blobs, env) ==> LocalHash(end.tree, p) == LiveHash(end.files, p))
  {
    var v := ViewOf(dev, blobs, env);
    assert v.locals == dev.tree;
    if p in env.order {
      var o, got := CalmPath(dev, blobs, env, p);
      EntrySource(dev.key, p, Lookup(dev.tree, p), Lookup(v.remote, p), Lookup(dev.bases, p), got, env);
      if p in Copies(dev, blobs, env) {
        var q :| q in env.order && ConflictPath(q, env.stamp) == p;
        NoCopyInOrder(env, q);
      }
    } else {
      PathUntouched(dev, blobs, env, p);
      if q :| q in env.order && ConflictPath(q, env.stamp) == p {
        CalmCopy(dev, blobs, env, q);
      }
    }
  }

  // ---------------------------------------------------------------- settled devices

  /** Every file matches its base, except new files that the manifest does not know. */
  ghost predicate Settled(dev: Device, files: Entries) {
    && (forall p :: p in dev.bases ==> LocalHash(dev.tree, p) == BaseHash(dev.bases, p))
    && (forall p :: p in dev.tree && p !in dev.bases ==> p !in files)
  }

  /** Nothing was changed here since the last sync, and nothing of it has been pruned from the manifest. */
  ghost predicate Untouched(dev: Device, files: Entries) {
    Settled(dev, files) && dev.tree.Keys == dev.bases.Keys && dev.bases.Keys <= files.Keys
  }

  /** Decision on a settled device: an entry stays unless it is pruned, a file without one is uploaded. */
  lemma SettledOutcome(key: string, p: Path, l: Option<File>, r: Option<Entry>, s: Option<Base>,
                       got: Option<Blob>, env: Env)
    requires env.faults == map[]
    requires if s.Some? then HashOf(l) == Some(s.value.h) else l.Some? ==> r.None?
    ensures var o := Decide(key, p, l, r, s, got, env);
            && (r.Some? || l.None? ==> o.tally.uploaded == 0)
            && (r.Some? ==> ChangedEntry(r, o.entry) == if Outdated(l, r, env.now) then None else r)
            && (r.None? && l.Some? ==> o.entry == SetEntry(UploadEntry(key, p, l.value, env.now))
                                       && o.tally == Tally(1, 0, 0, 0, 0))
            && o.copy == None && o.tally.deletedRemote == o.tally.conflicts == 0
            && (r.Some? && HashOf(l) == EntryHash(r) ==> o.tally == ZERO && o.file == Keep)
            && (r.None? ==> o.file == Keep)
  {
    var plan := Classify(l, r, s, env.now);
    assert plan in {InSync, Pull, DropLocal, KeepTombstone, PruneTombstone, Nothing, Push};
  }

  /** On a settled device a path keeps its manifest entry unless it is pruned; a file without one gets a live one. */
  lemma SettledPath(dev: Device, blobs: Blobs, env: Env, p: Path)
    requires Calm(dev, blobs, env) && Sound(dev, blobs) && p in env.order
    requires Settled(dev, FetchEntries(blobs, dev.key))
    ensures var files, end := FetchEntries(blobs, dev.key), LoopEnd(dev, blobs, env);
            && (p in end.files ==>
                  if p in files then end.files[p] == files[p] else LiveHash(end.files, p) == LocalHash(dev.tree, p))
            && !Overtaken(ViewOf(dev, blobs, env), env, p)
  {
    var o, got := CalmPath(dev, blobs, env, p);
    var l, r, s := Lookup(dev.tree, p), Lookup(FetchEntries(blobs, dev.key), p), Lookup(dev.bases, p);
    SettledOutcome(dev.key, p, l, r, s, got, env);
  }

  // ---------------------------------------------------------------- one error-free sync

  /** Local files are, by content, exactly the live part of the manifest. */
  ghost predicate Mirrors(tree: Tree, files: Entries) {
    forall p :: LocalHash(tree, p) == LiveHash(files, p)
  }

  /** What `Agreement` says about every path, as a relation between the maps before and after a sync at `now`. */
  ghost predicate Agrees(tree: Tree, files: Entries, now: int, tree': Tree, files': Entries, bases': Bases,
                         copies: set<Path>) {
    forall p ::
      && LiveHash(files', p) == BaseHash(bases', p)
      && (p in files' <==> (p in files || p in tree) && !PrunedAt(tree, files, now, p))
      && (p in copies ==> p !in tree && p in tree' && p !in files')
      && (p !in copies ==> LocalHash(tree', p) == LiveHash(files', p))
  }

  lemma AgreementEverywhere(dev: Device, blobs: Blobs, env: Env)
    requires Calm(dev, blobs, env) && Sound(dev, blobs)
    ensures var end := LoopEnd(dev, blobs, env);
            Agrees(dev.tree, FetchEntries(blobs, dev.key), env.now, end.tree, end.files, end.bases,
                   Copies(dev, blobs, env))
  {
    assert ViewOf(dev, blobs, env).locals == dev.tree;
    forall p {
      Agreement(dev, blobs, env, p);
    }
  }

  lemma AgreesSettles(key: string, tree: Tree, files: Entries, now: int, tree': Tree, files': Entries, bases': Bases,
                      copies: set<Path>)
    requires Agrees(tree, files, now, tree', files', bases', copies)
    ensures var after := Device(key, tree', bases');
            && Settled(after, files') && bases'.Keys <= files'.Keys
            && tree'.Keys == bases'.Keys + copies
            && (copies == {} ==> Untouched(after, files') && Mirrors(tree', files'))
  {
    assert forall p :: p in bases' <==> BaseHash(bases', p).Some?;
    assert forall p :: p in tree' <==> LocalHash(tree', p).Some?;
  }

  /**
   Any error-free sync: the manifest gains the local names and loses outdated tombstones only, the device ends
   settled, and with no file overtaken it ends as a mirror of the manifest with nothing left to send.
   */
  lemma SyncSettles(dev: Device, blobs: Blobs, env: Env)
    requires Calm(dev, blobs, env) && Sound(dev, blobs)
    ensures var files, end := FetchEntries(blobs, dev.key), LoopEnd(dev, blobs, env);
            var after := Device(dev.key, end.tree, end.bases);
            && (forall p :: p in end.files <==>
                  (p in files || p in dev.tree) && !PrunedAt(dev.tree, files, env.now, p))
            && Settled(after, end.files) && end.bases.Keys <= end.files.Keys
            && end.tree.Keys == end.bases.Keys + Copies(dev, blobs, env)
            && (Copies(dev, blobs, env) == {} ==> Untouched(after, end.files) && Mirrors(end.tree, end.files))
  {
    var end := LoopEnd(dev, blobs, env);
    AgreementEverywhere(dev, blobs, env);
    AgreesSettles(dev.key, dev.tree, FetchEntries(blobs, dev.key), env.now, end.tree, end.files, end.bases,
                  Copies(dev, blobs, env));
  }

  /** Entries stay, outdated tombstones excepted; a name without an entry gets a live one with the local content. */
  ghost predicate OnlyAdds(tree: Tree, files: Entries, now: int, files': Entries) {
    forall p ::
      && (p in files' <==> (p in files || p in tree) && !PrunedAt(tree, files, now, p))
      && (p in files' ==> if p in files then files'[p] == files[p] else LiveHash(files', p) == LocalHash(tree, p))
  }

  /** A settled device uploads its files without entries and otherwise only takes over what the manifest says. */
  lemma SettledSync(dev: Device, blobs: Blobs, env: Env)
    requires Calm(dev, blobs, env) && Sound(dev, blobs)
    requires Settled(dev, FetchEntries(blobs, dev.key))
    ensures OnlyAdds(dev.tree, FetchEntries(blobs, dev.key), env.now, LoopEnd(dev, blobs, env).files)
    ensures Copies(dev, blobs, env) == {}
  {
    assert ViewOf(dev, blobs, env).locals == dev.tree;
    forall p | p in env.order {
      SettledPath(dev, blobs, env, p);
    }
    SyncSettles(dev, blobs, env);
  }

  /** The live part of the manifest stays as it is: what it loses are outdated tombstones. */
  ghost predicate OnlyPrunes(tree: Tree, files: Entries, now: int, files': Entries) {
    files' == map p | p in files && !PrunedAt(tree, files, now, p) :: files[p]
  }

  lemma UntouchedAddsNothing(dev: Device, files: Entries, now: int, files': Entries)
    requires Untouched(dev, files) && OnlyAdds(dev.tree, files, now, files')
    ensures OnlyPrunes(dev.tree, files, now, files')
    ensures forall p :: LiveHash(files', p) == LiveHash(files, p)
  {
  }

  /** A device untouched since its last sync only pulls: its files become the live part of the manifest. */
  lemma UntouchedOnlyPulls(dev: Device, blobs: Blobs, env: Env, r: Synced)
    requires Calm(dev, blobs, env) && Sound(dev, blobs) && r == Sync(dev, blobs, env)
    requires Untouched(dev, FetchEntries(blobs, dev.key))
    ensures OnlyPrunes(dev.tree, FetchEntries(blobs, dev.key), env.now, FetchEntries(r.blobs, dev.key))
    ensures Mirrors(r.device.tree, FetchEntries(blobs, dev.key))
    ensures Untouched(r.device, FetchEntries(r.blobs, dev.key))
  {
    SettledSync(dev, blobs, env);
    UntouchedAddsNothing(dev, FetchEntries(blobs, dev.key), env.now, LoopEnd(dev, blobs, env).files);
    SyncSettles(dev, blobs, env);
    ManifestAfter(dev, blobs, env);
  }

  lemma OvertakenCounts(dev: Device, blobs: Blobs, env: Env, p: Path)
    requires Calm(dev, blobs, env) && Sound(dev, blobs) && p in env.order
    ensures Overtaken(ViewOf(dev, blobs, env), env, p) ==> LoopEnd(dev, blobs, env).tally.conflicts > 0
  {
    var o, got := CalmPath(dev, blobs, env, p);
    var l, r, s := Lookup(dev.tree, p), Lookup(FetchEntries(blobs, dev.key), p), Lookup(dev.bases, p);
    CopyCounts(dev.key, p, l, r, s, got, env);
  }

  lemma CopyCounts(key: string, p: Path, l: Option<File>, r: Option<Entry>, s: Option<Base>,
                   got: Option<Blob>, env: Env)
    ensures var o := Decide(key, p, l, r, s, got, env);
            o.copy.Some? ==> o.tally.conflicts > 0
  {
    var plan := Classify(l, r, s, env.now);
    assert Applies(plan, l, r);
  }

  /** A sync that reports no conflict wrote no conflict copy. */
  lemma NoConflictNoCopy(dev: Device, blobs: Blobs, env: Env)
    requires Calm(dev, blobs, env) && Sound(dev, blobs)
    requires LoopEnd(dev, blobs, env).tally.conflicts == 0
    ensures Copies(dev, blobs, env) == {}
  {
    forall p | p in env.order {
      OvertakenCounts(dev, blobs, env, p);
    }
  }
}
