/**
 Safety of the sync engine: what every single sync keeps whatever fails during it, and what holds in
 every run of edits and syncs by any number of devices sharing one relay.
 */
module SyncSafety {
  import opened Options
  import opened ConflictNames
  import opened SyncModel
  import opened SyncSteps

  // ---------------------------------------------------------------- one path of one sync

  /** The loop's effect on the path at index `k`, for any way of deciding outcomes. */
  lemma LoopAt(key: string, decide: (Acc, Path) -> Outcome, acc0: Acc, env: Env, k: nat)
      returns (o: Outcome, here: Acc)
    requires k < |env.order|
    requires NoRepeats(env.order)
    ensures var p, end := env.order[k], Replay(key, acc0, env, Outcomes(key, decide, acc0, env, |env.order|));
            && o == Outcomes(key, decide, acc0, env, |env.order|)[k] == decide(here, p)
            && (forall id :: id in acc0.blobs ==> id in here.blobs && here.blobs[id] == acc0.blobs[id])
            && Lookup(end.files, p) == ChangedEntry(Lookup(acc0.files, p), o.entry)
            && Lookup(end.bases, p) == (if o.base.Some? then o.base else Lookup(acc0.bases, p))
            && (o.put.Some? ==> FileBlobId(key, p, ContentHash(o.put.value)) in end.blobs)
            && (o.failed ==> |end.errors| > |acc0.errors|)
            && end.tally.conflicts >= o.tally.conflicts
    ensures Orderly(env) ==>
              var p, end := env.order[k], Replay(key, acc0, env, Outcomes(key, decide, acc0, env, |env.order|));
              var cp := ConflictPath(p, env.stamp);
              && Lookup(end.tree, p) == Changed(Lookup(acc0.tree, p), o.file, WriteTime(env, p))
              && Lookup(end.tree, cp) == if o.copy.Some? then Some(File(o.copy.value, WriteTime(env, cp)))
                                         else Lookup(acc0.tree, cp)
  {
    var os := Outcomes(key, decide, acc0, env, |env.order|);
    OutcomeIs(key, decide, acc0, env, |env.order|, k);
    o, here := os[k], Replay(key, acc0, env, os[..k]);
    BlobsAfter(key, acc0, env, os[..k]);
    EntriesAt(key, acc0, env, os, k);
    ErrorsAfter(key, acc0, env, os);
    TallyAtLeast(key, acc0, env, os, k);
    if o.put.Some? {
      UploadStored(key, acc0, env, os, k);
    }
    if Orderly(env) {
      TreeAt(key, acc0, env, os, k);
    }
  }

  /** The same for the path `p` of the enumeration, wherever it is. */
  lemma LoopAtPath(key: string, decide: (Acc, Path) -> Outcome, acc0: Acc, env: Env, p: Path)
      returns (o: Outcome, here: Acc)
    requires NoRepeats(env.order)
    requires p in env.order && acc0.bases == map[]
    ensures var os := Outcomes(key, decide, acc0, env, |env.order|);
            var end := Replay(key, acc0, env, os);
            && o == decide(here, p)
            && (forall id :: id in acc0.blobs ==> id in here.blobs && here.blobs[id] == acc0.blobs[id])
            && Lookup(end.files, p) == ChangedEntry(Lookup(acc0.files, p), o.entry)
            && Lookup(end.bases, p) == o.base
            && (o.put.Some? ==> FileBlobId(key, p, ContentHash(o.put.value)) in end.blobs)
            && (o.failed ==> end.errors != [])
            && (forall k :: 0 <= k < |env.order| && env.order[k] == p ==> os[k] == o)
            && end.tally.conflicts >= o.tally.conflicts
    ensures Orderly(env) ==>
              var end := Replay(key, acc0, env, Outcomes(key, decide, acc0, env, |env.order|));
              var cp := ConflictPath(p, env.stamp);
              && Lookup(end.tree, p) == Changed(Lookup(acc0.tree, p), o.file, WriteTime(env, p))
              && Lookup(end.tree, cp) == if o.copy.Some? then Some(File(o.copy.value, WriteTime(env, cp)))
                                         else Lookup(acc0.tree, cp)
  {
    var k :| 0 <= k < |env.order| && env.order[k] == p;
    o, here := LoopAt(key, decide, acc0, env, k);
  }

  /** What one sync does to a path `p`: its outcome `o`, decided from the blob `got` fetched for it. */
  lemma PathResult(dev: Device, blobs: Blobs, env: Env, p: Path) returns (o: Outcome, got: Option<Blob>)
    requires Enumerates(env, ViewOf(dev, blobs, env)) && p in env.order
    ensures var v, end := ViewOf(dev, blobs, env), LoopEnd(dev, blobs, env);
            var r := Lookup(v.remote, p);
            && o == Decide(v.key, p, Lookup(v.locals, p), r, Lookup(v.saved, p), got, env)
            && (r.Some? && r.value.b in blobs ==> got == Some(blobs[r.value.b]))
            && Lookup(end.files, p) == ChangedEntry(r, o.entry)
            && Lookup(end.bases, p) == o.base
            && (o.put.Some? ==> FileBlobId(v.key, p, ContentHash(o.put.value)) in end.blobs)
            && (o.failed ==> end.errors != [])
            && (forall k :: 0 <= k < |env.order| && env.order[k] == p ==> LoopOutcomes(dev, blobs, env)[k] == o)
            && end.tally.conflicts >= o.tally.conflicts
    ensures Orderly(env) ==>
              var tree, cp := LoopEnd(dev, blobs, env).tree, ConflictPath(p, env.stamp);
              && Lookup(tree, p) == Changed(Lookup(dev.tree, p), o.file, WriteTime(env, p))
              && Lookup(tree, cp) == if o.copy.Some? then Some(File(o.copy.value, WriteTime(env, cp)))
                                     else Lookup(dev.tree, cp)
  {
    var v := ViewOf(dev, blobs, env);
    var here;
    o, here := LoopAtPath(v.key, Decider(v, env), Start(v, dev.tree, blobs), env, p);
    var r := Lookup(v.remote, p);
    got := if r.Some? then Lookup(here.blobs, r.value.b) else None;
  }

  /** A path outside the enumeration keeps its manifest entry and file, and gets no saved state. */
  lemma PathUntouched(dev: Device, blobs: Blobs, env: Env, p: Path)
    requires Enumerates(env, ViewOf(dev, blobs, env)) && p !in env.order
    ensures var end := LoopEnd(dev, blobs, env);
            && p !in end.files && p !in end.bases
            && ((forall q :: q in env.order ==> ConflictPath(q, env.stamp) != p) ==>
                  Lookup(end.tree, p) == Lookup(dev.tree, p))
  {
    var v := ViewOf(dev, blobs, env);
    var acc0 := Start(v, dev.tree, blobs);
    var os := Outcomes(v.key, Decider(v, env), acc0, env, |env.order|);
    EntriesUntouched(v.key, acc0, env, os, p);
    if forall q :: q in env.order ==> ConflictPath(q, env.stamp) != p {
      TreeUntouched(v.key, acc0, env, os, p);
    }
  }

  // ---------------------------------------------------------------- no local edit is lost

  /** A decision never touches an edited file without saving its content in a conflict copy first. */
  lemma EditKept(key: string, p: Path, l: File, r: Option<Entry>, s: Option<Base>, got: Option<Blob>, env: Env)
    requires s.None? || s.value.h != ContentHash(l.data)
    ensures var o := Decide(key, p, Some(l), r, s, got, env);
            o.file == Keep || o.copy == Some(l.data)
  {
    var plan := Classify(Some(l), r, s, env.now);
    assert plan in {InSync, Push, KeepBoth, PushOver};
  }

  /** Where the content of a walked file is found after a sync. */
  ghost predicate Kept(tree: Tree, p: Path, stamp: string, content: Content) {
    || (p in tree && tree[p].data == content)
    || (ConflictPath(p, stamp) in tree && tree[ConflictPath(p, stamp)].data == content)
  }

  /**
   For every pattern of faults and aborts: a file the walk read whose content differs from the saved
   state, or has none, is still there afterwards, at its own path or at its conflict copy.
   */
  lemma NoLocalEditLost(dev: Device, blobs: Blobs, env: Env, p: Path)
    requires Enumerates(env, ViewOf(dev, blobs, env)) && Orderly(env)
    requires p in dev.tree && p !in env.skipped
    requires p in dev.bases ==> dev.bases[p].h != ContentHash(dev.tree[p].data)
    ensures Kept(Sync(dev, blobs, env).device.tree, p, env.stamp, dev.tree[p].data)
  {
    EditKeptByLoop(dev, blobs, env, p);
  }

  lemma EditKeptByLoop(dev: Device, blobs: Blobs, env: Env, p: Path)
    requires Enumerates(env, ViewOf(dev, blobs, env)) && Orderly(env)
    requires p in dev.tree && p !in env.skipped
    requires p in dev.bases ==> dev.bases[p].h != ContentHash(dev.tree[p].data)
    ensures Kept(LoopEnd(dev, blobs, env).tree, p, env.stamp, dev.tree[p].data)
  {
    var v := ViewOf(dev, blobs, env);
    assert v.locals[p] == dev.tree[p];
    var o, got := PathResult(dev, blobs, env, p);
    EditKept(v.key, p, dev.tree[p], Lookup(v.remote, p), Lookup(v.saved, p), got, env);
  }

  // ---------------------------------------------------------------- saved state matches both sides

  /** Every blob stored under a content-derived id is the sealed content the id was derived from. */
  ghost predicate ContentAddressed(blobs: Blobs) {
    forall id :: id in blobs && id.FileBlobId? ==> blobs[id].Sealed? && ContentHash(blobs[id].plain) == id.hash
  }

  /** Every entry of the manifest, tombstones included, names a stored blob with the entry's content. */
  ghost predicate EntriesStored(blobs: Blobs, key: string) {
    var files := FetchEntries(blobs, key);
    forall p :: p in files ==> files[p].b == FileBlobId(key, p, files[p].h) && files[p].b in blobs
  }

  ghost predicate BasesAddressed(dev: Device) {
    forall p :: p in dev.bases ==> dev.bases[p].b == FileBlobId(dev.key, p, dev.bases[p].h)
  }

  /** A base is recorded only with a live entry and a file, all three with the same hash. */
  lemma BaseRecorded(key: string, p: Path, l: Option<File>, r: Option<Entry>, s: Option<Base>,
                     got: Option<Blob>, env: Env)
    requires r.Some? ==> got.Some? && got.value.Sealed? && ContentHash(got.value.plain) == r.value.h
    ensures var o := Decide(key, p, l, r, s, got, env);
            var e := ChangedEntry(r, o.entry);
            var f := Changed(l, o.file, WriteTime(env, p));
            o.base.Some? ==>
              && Live(e) && BaseOf(e.value) == o.base.value
              && f.Some? && ContentHash(f.value.data) == e.value.h
  {
    var plan := Classify(l, r, s, env.now);
    assert plan == InSync ==> r.value.h == ContentHash(l.value.data);
  }

  // ---------------------------------------------------------------- the manifest's blobs stay stored

  /** An entry set by a decision is the remote one, up to tombstone and time, or has just been put. */
  lemma EntrySource(key: string, p: Path, l: Option<File>, r: Option<Entry>, s: Option<Base>,
                    got: Option<Blob>, env: Env)
    ensures var o := Decide(key, p, l, r, s, got, env);
            && (o.entry.SetEntry? ==>
                  || (r.Some? && o.entry.entry.h == r.value.h && o.entry.entry.b == r.value.b)
                  || (o.put.Some? && o.entry.entry.h == ContentHash(o.put.value)
                      && o.entry.entry.b == FileBlobId(key, p, o.entry.entry.h)))
            && (o.base.Some? ==> o.entry.SetEntry? && o.base.value == BaseOf(o.entry.entry))
  {
    var plan := Classify(l, r, s, env.now);
    assert Applies(plan, l, r);
  }

  lemma NextEntriesStored(dev: Device, blobs: Blobs, env: Env, p: Path)
    requires Enumerates(env, ViewOf(dev, blobs, env))
    requires EntriesStored(blobs, dev.key)
    ensures var end := LoopEnd(dev, blobs, env);
            && (p in end.files ==>
                end.files[p].b == FileBlobId(dev.key, p, end.files[p].h) && end.files[p].b in end.blobs)
            && (p in end.bases ==> end.bases[p].b == FileBlobId(dev.key, p, end.bases[p].h))
  {
    var v := ViewOf(dev, blobs, env);
    if p !in env.order {
      PathUntouched(dev, blobs, env, p);
    } else {
      var o, got := PathResult(dev, blobs, env, p);
      EntrySource(v.key, p, Lookup(v.locals, p), Lookup(v.remote, p), Lookup(v.saved, p), got, env);
      LoopBlobs(dev, blobs, env);
    }
  }

  lemma LoopBlobs(dev: Device, blobs: Blobs, env: Env)
    ensures var end := LoopEnd(dev, blobs, env).blobs;
            && (forall id :: id in blobs ==> id in end && end[id] == blobs[id])
            && (forall id :: id in end && id !in blobs ==> FromUpload(dev.key, id, end[id]))
  {
    var v := ViewOf(dev, blobs, env);
    var acc0 := Start(v, dev.tree, blobs);
    BlobsAfter(v.key, acc0, env, Outcomes(v.key, Decider(v, env), acc0, env, |env.order|));
  }

  /** Only blobs of this collection's files are collected, and none that the new manifest names. */
  lemma GarbageIsOwn(dev: Device, blobs: Blobs, env: Env)
    requires EntriesStored(blobs, dev.key) && BasesAddressed(dev)
    ensures var v, end := ViewOf(dev, blobs, env), LoopEnd(dev, blobs, env);
            && (forall id :: id in Garbage(v, end.files, env) ==> id.FileBlobId? && id.key == dev.key)
            && (forall p :: p in end.files ==> end.files[p].b !in Garbage(v, end.files, env))
  {
    var v := ViewOf(dev, blobs, env);
    forall id | id in EntryBlobs(v.remote) ensures id.FileBlobId? && id.key == dev.key {
      var p :| p in v.remote && v.remote[p].b == id;
    }
    forall id | id in BaseBlobs(v.saved) ensures id.FileBlobId? && id.key == dev.key {
      var p :| p in v.saved && v.saved[p].b == id;
    }
  }

  /** The manifest a sync leaves on the relay: the old one, none, or the one the loop built. */
  lemma ManifestAfter(dev: Device, blobs: Blobs, env: Env)
    requires EntriesStored(blobs, dev.key) && BasesAddressed(dev)
    ensures FetchEntries(Sync(dev, blobs, env).blobs, dev.key) ==
            match env.abort
            case BeforeManifest => FetchEntries(blobs, dev.key)
            case WithoutManifest => map[]
            case _ => LoopEnd(dev, blobs, env).files
  {
    LoopBlobs(dev, blobs, env);
    GarbageIsOwn(dev, blobs, env);
    if env.abort == BeforeManifest {
      var end := LoopEnd(dev, blobs, env).blobs;
      assert Lookup(end, ManifestId(dev.key)) == Lookup(blobs, ManifestId(dev.key));
    }
  }

  /** A published manifest carries the time of the sync; the state is saved only by a sync that finishes. */
  lemma PublishedAndSaved(dev: Device, blobs: Blobs, env: Env)
    requires EntriesStored(blobs, dev.key) && BasesAddressed(dev)
    ensures var end := LoopEnd(dev, blobs, env);
            && (env.abort in {Finishes, BeforeState} ==>
                  Lookup(Sync(dev, blobs, env).blobs, ManifestId(dev.key)) ==
                  Some(Sealed(ManifestJson(env.now, end.files))))
            && Sync(dev, blobs, env).device ==
               Device(dev.key, end.tree, if env.abort == Finishes then end.bases else dev.bases)
  {
    GarbageIsOwn(dev, blobs, env);
  }

  /** A sync leaves the manifests and file blobs of other collections exactly as they were. */
  lemma OtherCollectionsUntouched(dev: Device, blobs: Blobs, env: Env, id: Digest)
    requires EntriesStored(blobs, dev.key) && BasesAddressed(dev)
    requires id.ContentHash? || id.key != dev.key
    ensures Lookup(Sync(dev, blobs, env).blobs, id) == Lookup(blobs, id)
  {
    LoopBlobs(dev, blobs, env);
    GarbageIsOwn(dev, blobs, env);
  }

  // ---------------------------------------------------------------- runs

  /** Devices that share one identity, hence one relay namespace. */
  datatype World = World(blobs: Blobs, devices: seq<Device>)

  datatype Action =
    | Edit(i: nat, tree: Tree)     // the user changes files in any way
    | LoseState(i: nat)            // the saved state is missing or corrupt
    | SyncNow(i: nat, env: Env)

  ghost predicate Enabled(w: World, a: Action) {
    && a.i < |w.devices|
    && (a.SyncNow? ==> Enumerates(a.env, ViewOf(w.devices[a.i], w.blobs, a.env)))
  }

  function Next(w: World, a: Action): World
    requires a.i < |w.devices|
  {
    match a
    case Edit(i, tree) => w.(devices := w.devices[i := w.devices[i].(tree := tree)])
    case LoseState(i) => w.(devices := w.devices[i := w.devices[i].(bases := map[])])
    case SyncNow(i, env) =>
      var r := Sync(w.devices[i], w.blobs, env);
      World(r.blobs, w.devices[i := r.device])
  }

  ghost predicate IsRun(w: World, actions: seq<Action>)
    decreases |actions|
  {
    actions == [] || (Enabled(w, actions[0]) && IsRun(Next(w, actions[0]), actions[1..]))
  }

  ghost function Run(w: World, actions: seq<Action>): World
    requires IsRun(w, actions)
    decreases |actions|
  {
    if actions == [] then w else Run(Next(w, actions[0]), actions[1..])
  }

  /** An empty relay and devices that never synced. */
  ghost predicate Initial(w: World) {
    w.blobs == map[] && forall i :: 0 <= i < |w.devices| ==> w.devices[i].bases == map[]
  }

  ghost predicate Inv(w: World) {
    && ContentAddressed(w.blobs)
    && (forall key: string :: EntriesStored(w.blobs, key))
    && (forall i :: 0 <= i < |w.devices| ==> BasesAddressed(w.devices[i]))
  }

  lemma SyncKeepsEntriesStored(dev: Device, blobs: Blobs, env: Env, key: string)
    requires Enumerates(env, ViewOf(dev, blobs, env))
    requires EntriesStored(blobs, dev.key) && EntriesStored(blobs, key) && BasesAddressed(dev)
    ensures EntriesStored(Sync(dev, blobs, env).blobs, key)
  {
    var next := Sync(dev, blobs, env).blobs;
    if key != dev.key {
      OtherCollectionsUntouched(dev, blobs, env, ManifestId(key));
      var files: Entries := FetchEntries(blobs, key);
      assert FetchEntries(next, key) == files;
      forall p | p in files ensures files[p].b in next {
        OtherCollectionsUntouched(dev, blobs, env, files[p].b);
      }
    } else {
      ManifestAfter(dev, blobs, env);
      GarbageIsOwn(dev, blobs, env);
      LoopBlobs(dev, blobs, env);
      forall p | p in FetchEntries(next, key)
        ensures var e := FetchEntries(next, key)[p]; e.b == FileBlobId(key, p, e.h) && e.b in next
      {
        NextEntriesStored(dev, blobs, env, p);
      }
    }
  }

  lemma SyncKeepsContentAddressed(dev: Device, blobs: Blobs, env: Env)
    requires ContentAddressed(blobs)
    ensures ContentAddressed(Sync(dev, blobs, env).blobs)
  {
    LoopBlobs(dev, blobs, env);
  }

  lemma InvStep(w: World, a: Action)
    requires Inv(w) && Enabled(w, a)
    ensures Inv(Next(w, a))
  {
    if a.SyncNow? {
      var dev := w.devices[a.i];
      assert EntriesStored(w.blobs, dev.key);
      SyncKeepsContentAddressed(dev, w.blobs, a.env);
      forall key: string ensures EntriesStored(Next(w, a).blobs, key) {
        SyncKeepsEntriesStored(dev, w.blobs, a.env, key);
      }
      forall p ensures p in LoopEnd(dev, w.blobs, a.env).bases ==>
                         LoopEnd(dev, w.blobs, a.env).bases[p].b ==
                             FileBlobId(dev.key, p, LoopEnd(dev, w.blobs, a.env).bases[p].h)
      {
        NextEntriesStored(dev, w.blobs, a.env, p);
      }
    }
  }

  lemma {:induction false} InvRun(w: World, actions: seq<Action>)
    requires Inv(w) && IsRun(w, actions)
    ensures Inv(Run(w, actions))
    decreases |actions|
  {
    if actions != [] {
      InvStep(w, actions[0]);
      InvRun(Next(w, actions[0]), actions[1..]);
    }
  }

  /**
   In every run from an empty relay, faults, aborts and lost states included, each manifest entry of
   each collection names a stored blob that decrypts to content with the entry's hash.
   */
  lemma ManifestBlobsReachable(w: World, actions: seq<Action>, key: string, p: Path)
    requires Initial(w) && IsRun(w, actions)
    requires p in FetchEntries(Run(w, actions).blobs, key)
    ensures var blobs := Run(w, actions).blobs;
            var e := FetchEntries(blobs, key)[p];
            && e.b in blobs && blobs[e.b].Sealed? && ContentHash(blobs[e.b].plain) == e.h
  {
    InvRun(w, actions);
    assert EntriesStored(Run(w, actions).blobs, key);
  }
}
