/**
 `syncNow` as the source runs it: loops that update the relay, the local files, the next manifest and
 the next state in place. Each method is proved against the functions of module `SyncModel`.
 */
module SyncEngine {
  import opened Options
  import opened ConflictNames
  import opened SyncModel
  import opened SyncSurvival
  import opened SyncStorage

  /** The relay as seen through its client (packages/core/src/api/relay.ts). */
  class Relay {
    var blobs: Blobs

    constructor (blobs: Blobs)
      ensures this.blobs == blobs
    {
      this.blobs := blobs;
    }

    method Put(id: Digest, blob: Blob, f: Fault, op: nat) returns (ok: bool)
      modifies this
      ensures ok == Succeeds(f, op)
      ensures blobs == if TakesEffect(f, op) then PutBlob(old(blobs), id, blob) else old(blobs)
    {
      if TakesEffect(f, op) && id !in blobs {
        blobs := blobs[id := blob];
      }
      ok := Succeeds(f, op);
    }

    method Get(id: Digest, f: Fault, op: nat) returns (ok: bool, found: Option<Blob>)
      ensures ok == Succeeds(f, op)
      ensures found == if ok then Lookup(blobs, id) else None
    {
      ok := Succeeds(f, op);
      found := if ok && id in blobs then Some(blobs[id]) else None;
    }

    method Remove(id: Digest)
      modifies this
      ensures blobs == old(blobs) - {id}
    {
      blobs := blobs - {id};
    }
  }

  /**
   One device's collection: its files, its directories and the state file of the last sync. The fault of a call says
   whether it throws; a call that takes effect had nothing in its way.
   */
  class Vault {
    var files: Tree
    var dirs: set<Path>
    var saved: Bases

    constructor (files: Tree, dirs: set<Path>, saved: Bases)
      ensures this.files == files && this.dirs == dirs && this.saved == saved
    {
      this.files, this.dirs, this.saved := files, dirs, saved;
    }

    /** Makes all directories above a file. */
    method MakeDirectory(rel: Path, f: Fault, op: nat) returns (ok: bool)
      requires TakesEffect(f, op) ==> !FileAbove(files, rel)
      modifies this`dirs
      ensures ok == Succeeds(f, op)
      ensures dirs == if TakesEffect(f, op) then old(dirs) + Ancestors(rel) else old(dirs)
    {
      if TakesEffect(f, op) {
        dirs := dirs + Ancestors(rel);
      }
      ok := Succeeds(f, op);
    }

    method WriteFile(rel: Path, data: Content, mtime: int, f: Fault, op: nat) returns (ok: bool)
      requires TakesEffect(f, op) ==> rel !in dirs
      modifies this`files
      ensures ok == Succeeds(f, op)
      ensures files == if TakesEffect(f, op) then old(files)[rel := File(data, mtime)] else old(files)
    {
      if TakesEffect(f, op) {
        files := files[rel := File(data, mtime)];
      }
      ok := Succeeds(f, op);
    }

    method RemoveFile(rel: Path, f: Fault, op: nat) returns (ok: bool)
      modifies this`files
      ensures ok == Succeeds(f, op)
      ensures files == if TakesEffect(f, op) then old(files) - {rel} else old(files)
    {
      if TakesEffect(f, op) {
        files := files - {rel};
      }
      ok := Succeeds(f, op);
    }
  }

  /** One run of `syncNow`: the variables its loop and closures share. */
  class SyncRun {
    const key: string
    const relay: Relay
    const vault: Vault
    var nextFiles: Entries
    var nextState: Bases
    var tally: Tally
    var errors: seq<Path>

    constructor (key: string, relay: Relay, vault: Vault)
      ensures this.key == key && this.relay == relay && this.vault == vault
    {
      this.key, this.relay, this.vault := key, relay, vault;
      nextFiles, nextState, tally, errors := map[], map[], ZERO, [];
    }

    /** The loop state as a value. */
    ghost function State(): Acc
      reads this, relay, vault
    {
      Acc(vault.files, relay.blobs, nextFiles, nextState, tally, errors)
    }

    method Upload(rel: Path, l: File, env: Env) returns (ok: bool, entry: Entry)
      modifies this`tally, relay
      ensures var f := FaultFor(env, rel);
              && ok == Succeeds(f, 0)
              && entry == UploadEntry(key, rel, l, env.now)
              && entry.h == ContentHash(l.data) && entry.m == (if l.mtime == 0 then env.now else l.mtime) && !entry.d
              && relay.blobs == (if TakesEffect(f, 0)
                                 then PutBlob(old(relay.blobs), FileBlobId(key, rel, ContentHash(l.data)),
                                     Sealed(l.data))
                                 else old(relay.blobs))
              && tally == if ok then old(tally).(uploaded := old(tally).uploaded + 1) else old(tally)
    {
      var hash := ContentHash(l.data);
      var id := FileBlobId(key, rel, hash);
      ok := relay.Put(id, Sealed(l.data), FaultFor(env, rel), 0);
      if ok {
        tally := tally.(uploaded := tally.uploaded + 1);
      }
      entry := Entry(hash, if l.mtime == 0 then env.now else l.mtime, id, false);
    }

    /** The blob of a download was found and the directory call takes effect. */
    predicate Fetched(rel: Path, r: Entry, env: Env, op: nat)
      reads relay
    {
      Succeeds(FaultFor(env, rel), op) && r.b in relay.blobs && TakesEffect(FaultFor(env, rel), op + 1)
    }

    /** The storage allows what the environment says of this path, given the plan for it. */
    ghost predicate Stored(rel: Path, plan: Plan, l: Option<File>, r: Option<Entry>, env: Env)
      requires Applies(plan, l, r)
      reads relay, vault
    {
      var got := if r.Some? then Lookup(relay.blobs, r.value.b) else None;
      && PlainStamp(env.stamp)
      && Allowed(vault.files, vault.dirs, rel, plan, got, Execute(plan, key, rel, l, r, got, env), env)
    }

    /** Gets, decrypts and writes the remote content; the I/O calls are numbered from `op`. */
    method Download(rel: Path, r: Entry, env: Env, op: nat) returns (ok: bool)
      requires Fetched(rel, r, env, op) ==> !FileAbove(vault.files, rel)
      requires PullOutcome(rel, r, Lookup(relay.blobs, r.b), env, op, None, ZERO).file.Write? ==> rel !in vault.dirs
      modifies this`tally, vault`files, vault`dirs
      ensures vault.dirs == old(vault.dirs) + if Fetched(rel, r, env, op) then Ancestors(rel) else {}
      ensures var o := PullOutcome(rel, r, Lookup(relay.blobs, r.b), env, op, None, ZERO);
              && ok == !o.failed
              && vault.files == ApplyFile(old(vault.files), rel, o, env)
              && tally == if ok then old(tally).(downloaded := old(tally).downloaded + 1) else old(tally)
    {
      var f := FaultFor(env, rel);
      var found;
      ok, found := relay.Get(r.b, f, op);
      if !ok || found.None? {
        return false;
      }
      ok := vault.MakeDirectory(rel, f, op + 1);
      if !ok || found.value.Corrupt? {
        return false;
      }
      ok := vault.WriteFile(rel, found.value.plain, WriteTime(env, rel), f, op + 2);
      if ok {
        tally := tally.(downloaded := tally.downloaded + 1);
      }
    }

    /** The state is `before` with the outcome `o` applied; only the error list is not touched. */
    ghost predicate Carried(before: Acc, rel: Path, o: Outcome, env: Env, ok: bool)
      reads this, relay, vault
    {
      && ok == !o.failed
      && State() == Apply(key, before, rel, o, env).(errors := before.errors)
    }

    /** Both sides hold the file. */
    method ReconcileBoth(rel: Path, l: File, r: Entry, s: Option<Base>, env: Env) returns (ok: bool)
      requires !r.d && Stored(rel, Classify(Some(l), Some(r), s, env.now), Some(l), Some(r), env)
      modifies this`nextFiles, this`nextState, this`tally, relay, vault`files, vault`dirs
      ensures vault.dirs == old(vault.dirs) + Made(Classify(Some(l), Some(r), s, env.now), rel,
                                                   Lookup(old(relay.blobs), r.b), FaultFor(env, rel))
      ensures var o := Decide(key, rel, Some(l), Some(r), s, Lookup(old(relay.blobs), r.b), env);
              Carried(old(State()), rel, o, env, ok)
    {
      var lh := ContentHash(l.data);
      if lh == r.h {
        nextFiles := nextFiles[rel := r];
        nextState := nextState[rel := Base(r.h, r.b)];
        return true;
      }
      var entry;
      ok, entry := TransferEither(rel, l, r, s, env);
      if ok {
        nextFiles := nextFiles[rel := entry];
        nextState := nextState[rel := Base(entry.h, entry.b)];
      }
    }

    /** The contents differ: the changed side is transferred; the next manifest and state are set by the caller. */
    method TransferEither(rel: Path, l: File, r: Entry, s: Option<Base>, env: Env) returns (ok: bool, entry: Entry)
      requires !r.d && ContentHash(l.data) != r.h
      requires Stored(rel, Classify(Some(l), Some(r), s, env.now), Some(l), Some(r), env)
      modifies this`tally, relay, vault`files, vault`dirs
      ensures vault.dirs == old(vault.dirs) + Made(Classify(Some(l), Some(r), s, env.now), rel,
                                                   Lookup(old(relay.blobs), r.b), FaultFor(env, rel))
      ensures var o := Decide(key, rel, Some(l), Some(r), s, Lookup(old(relay.blobs), r.b), env);
              && ok == !o.failed
              && (ok ==> o.entry == SetEntry(entry) && o.base == Some(BaseOf(entry)))
              && (!ok ==> o.entry == KeepEntry && o.base == None)
              && State() == Apply(key, old(State()), rel, o.(entry := KeepEntry, base := None, failed := false), env)
    {
      ghost var plan := Classify(Some(l), Some(r), s, env.now);
      var lh := ContentHash(l.data);
      var localChanged := s.None? || s.value.h != lh;
      var remoteChanged := s.None? || s.value.h != r.h;
      entry := r;
      if localChanged && !remoteChanged {
        assert plan == Push;
        ok, entry := Upload(rel, l, env);
      } else if remoteChanged && !localChanged {
        assert plan == Pull;
        ok := Download(rel, r, env, 0);
      } else if localChanged && remoteChanged {
        assert plan == if r.m > l.mtime then KeepBoth else PushOver;
        ok, entry := SettleConflict(rel, l, r, env);
      } else {
        assert false; // the source's comment says this branch cannot be reached
      }
    }

    /** Writes the local content to the conflict copy. */
    method SaveCopy(rel: Path, l: File, env: Env) returns (ok: bool)
      requires PlainStamp(env.stamp) && (TakesEffect(FaultFor(env, rel), 0) ==> !FileAbove(vault.files, rel))
      requires TakesEffect(FaultFor(env, rel), 1) ==> ConflictPath(rel, env.stamp) !in vault.dirs
      modifies vault`files, vault`dirs
      ensures var f, copy := FaultFor(env, rel), ConflictPath(rel, env.stamp);
              && ok == Succeeds(f, 1)
              && vault.files == (if TakesEffect(f, 1) then old(vault.files)[copy := File(l.data, WriteTime(env, copy))]
                                 else old(vault.files))
              && vault.dirs == old(vault.dirs) + if TakesEffect(f, 0) then Ancestors(rel) else {}
      ensures FileAbove(vault.files, rel) <==> old(FileAbove(vault.files, rel))
    {
      var f, copy := FaultFor(env, rel), ConflictPath(rel, env.stamp);
      SameAncestors(rel, env.stamp, vault.files, File(l.data, WriteTime(env, copy)));
      CopyIsElsewhere(rel, env.stamp);
      ok := vault.MakeDirectory(copy, f, 0);
      if ok {
        ok := vault.WriteFile(copy, l.data, WriteTime(env, copy), f, 1);
      }
    }

    /** The remote file is newer: the local one is saved as a conflict copy, and then overwritten. */
    method TakeRemote(rel: Path, l: File, r: Entry, env: Env) returns (ok: bool)
      requires Stored(rel, KeepBoth, Some(l), Some(r), env)
      modifies this`tally, vault`files, vault`dirs
      ensures vault.dirs == old(vault.dirs) + Made(KeepBoth, rel, Lookup(relay.blobs, r.b), FaultFor(env, rel))
      ensures var o := KeepBothOutcome(rel, l, r, Lookup(relay.blobs, r.b), env);
              && ok == !o.failed
              && vault.files == ApplyFile(old(vault.files), rel, o, env)
              && tally == if ok then old(tally).(downloaded := old(tally).downloaded + 1) else old(tally)
    {
      ok := SaveCopy(rel, l, env);
      if ok {
        ok := Download(rel, r, env, 2);
      }
    }

    /** The newer side wins; a losing local file is first saved as a conflict copy. */
    method SettleConflict(rel: Path, l: File, r: Entry, env: Env) returns (ok: bool, entry: Entry)
      requires Stored(rel, if r.m > l.mtime then KeepBoth else PushOver, Some(l), Some(r), env)
      modifies this`tally, relay, vault`files, vault`dirs
      ensures var plan, got := if r.m > l.mtime then KeepBoth else PushOver, Lookup(old(relay.blobs), r.b);
              vault.dirs == old(vault.dirs) + Made(plan, rel, got, FaultFor(env, rel))
      ensures var o := if r.m > l.mtime then KeepBothOutcome(rel, l, r, Lookup(old(relay.blobs), r.b), env)
                       else PushOutcome(key, rel, l, env, Tally(0, 0, 0, 0, 1));
              && ok == !o.failed
              && (ok ==> o.entry == SetEntry(entry))
              && State() == Apply(key, old(State()), rel, o.(entry := KeepEntry, base := None, failed := false), env)
    {
      tally := tally.(conflicts := tally.conflicts + 1);
      entry := r;
      if r.m > l.mtime {
        ok := TakeRemote(rel, l, r, env);
      } else {
        ok, entry := Upload(rel, l, env);
      }
    }

    /** Only this device holds the file; the manifest may hold a tombstone. */
    method ReconcileLocal(rel: Path, l: File, r: Option<Entry>, s: Option<Base>, env: Env) returns (ok: bool)
      requires r.Some? ==> r.value.d
      modifies this`nextFiles, this`nextState, this`tally, relay, vault`files
      ensures forall got :: Carried(old(State()), rel, Decide(key, rel, Some(l), r, s, got, env), env, ok)
    {
      if r.Some? && s.Some? && s.value.h == ContentHash(l.data) {
        ok := vault.RemoveFile(rel, FaultFor(env, rel), 0);
        if ok {
          nextFiles := nextFiles[rel := r.value];
          tally := tally.(deletedLocal := tally.deletedLocal + 1);
        }
      } else {
        var entry;
        ok, entry := Upload(rel, l, env);
        if ok {
          nextFiles := nextFiles[rel := entry];
          nextState := nextState[rel := Base(entry.h, entry.b)];
        }
      }
    }

    /** Only the manifest holds the file. */
    method ReconcileRemote(rel: Path, r: Entry, s: Option<Base>, env: Env) returns (ok: bool)
      requires !r.d && Stored(rel, Classify(None, Some(r), s, env.now), None, Some(r), env)
      modifies this`nextFiles, this`nextState, this`tally, vault`files, vault`dirs
      ensures vault.dirs == old(vault.dirs) + Made(Classify(None, Some(r), s, env.now), rel,
                                                   Lookup(relay.blobs, r.b), FaultFor(env, rel))
      ensures var o := Decide(key, rel, None, Some(r), s, Lookup(relay.blobs, r.b), env);
              Carried(old(State()), rel, o, env, ok)
    {
      if s.Some? && s.value.h == r.h {
        nextFiles := nextFiles[rel := r.(d := true, m := env.now)];
        tally := tally.(deletedRemote := tally.deletedRemote + 1);
        ok := true;
      } else {
        ok := Download(rel, r, env, 0);
        if ok {
          nextFiles := nextFiles[rel := r];
          nextState := nextState[rel := Base(r.h, r.b)];
        }
      }
    }

    /** The body of the loop: the decision for one path, its error recorded and not propagated. */
    method Reconcile(rel: Path, l: Option<File>, r: Option<Entry>, s: Option<Base>, env: Env)
      requires Stored(rel, Classify(l, r, s, env.now), l, r, env)
      modifies this`nextFiles, this`nextState, this`tally, this`errors, relay, vault`files, vault`dirs
      ensures var got := if r.Some? then Lookup(old(relay.blobs), r.value.b) else None;
              && State() == Apply(key, old(State()), rel, Decide(key, rel, l, r, s, got, env), env)
              && vault.dirs == old(vault.dirs) + Made(Classify(l, r, s, env.now), rel, got, FaultFor(env, rel))
    {
      var ok := true;
      if l.Some? && r.Some? && !r.value.d {
        ok := ReconcileBoth(rel, l.value, r.value, s, env);
      } else if l.Some? && (r.None? || r.value.d) {
        ok := ReconcileLocal(rel, l.value, r, s, env);
      } else if l.None? && r.Some? && !r.value.d {
        ok := ReconcileRemote(rel, r.value, s, env);
      } else if r.Some? {
        if env.now - r.value.m > TOMBSTONE_PRUNE_MS {
          nextFiles := nextFiles - {rel};
        } else {
          nextFiles := nextFiles[rel := r.value];
        }
      }
      if !ok {
        errors := errors + [rel];
      }
    }

    /** Removes the old manifest and puts the new one; the put throws unless `lands`. */
    method WriteManifest(now: int, lands: bool) returns (ok: bool)
      modifies relay
      ensures ok == lands
      ensures FetchEntries(relay.blobs, key) == if lands then nextFiles else map[]
      ensures forall id :: id != ManifestId(key) ==> Lookup(relay.blobs, id) == Lookup(old(relay.blobs), id)
      ensures relay.blobs == if lands then Publish(old(relay.blobs), key, now, nextFiles)
                             else old(relay.blobs) - {ManifestId(key)}
    {
      relay.Remove(ManifestId(key));
      var fault := if lands then NoFault else FailsAt(0, false);
      ok := relay.Put(ManifestId(key), Sealed(ManifestJson(now, nextFiles)), fault, 0);
    }

    /** Removes every stale blob that the new manifest does not name; failed removals are ignored. */
    method DropStaleBlobs(stale: set<Digest>, env: Env)
      modifies relay
      ensures relay.blobs == old(relay.blobs) - (stale - EntryBlobs(nextFiles) - env.keptBlobs)
    {
      var live, todo := EntryBlobs(nextFiles), stale;
      while todo != {}
        invariant todo <= stale
        invariant relay.blobs == old(relay.blobs) - (stale - todo - live - env.keptBlobs)
        decreases todo
      {
        var id :| id in todo;
        if id !in live && id !in env.keptBlobs {
          relay.Remove(id);
        }
        todo := todo - {id};
      }
    }

    /** One sync from start to end. */
    method SyncNow(env: Env)
      requires Enumerates(env, ViewOf(Device(key, vault.files, vault.saved), relay.blobs, env))
      requires Possible(Device(key, vault.files, vault.saved), vault.dirs, relay.blobs, env) && PlainStamp(env.stamp)
      modifies this, relay, vault
      ensures vault.dirs ==
              DirsAfter(old(Device(key, vault.files, vault.saved)), old(vault.dirs), old(relay.blobs), env)
      ensures var r := Sync(old(Device(key, vault.files, vault.saved)), old(relay.blobs), env);
              && Device(key, vault.files, vault.saved) == r.device
              && relay.blobs == r.blobs && tally == r.tally && errors == r.errors
    {
      ghost var dev, dirs, blobs := Device(key, vault.files, vault.saved), vault.dirs, relay.blobs;
      var remote := FetchEntries(relay.blobs, key);
      var saved := vault.saved;
      var locals := Walk(vault.files, env.skipped);
      nextFiles, nextState, tally, errors := remote, map[], ZERO, [];
      var stale := EntryBlobs(remote) + BaseBlobs(saved);
      assert LoopOutcomes(dev, blobs, env)[..0] == [];
      for i := 0 to |env.order|
        invariant vault.saved == saved
        invariant State() == AccBefore(dev, blobs, env, i) && vault.dirs == DirsBefore(dev, dirs, blobs, env, i)
      {
        var rel := env.order[i];
        StepIs(dev, blobs, env, i);
        ApplyStep(dev, blobs, env, i);
        assert StepAllowed(dev, dirs, blobs, env, i);
        Reconcile(rel, Lookup(locals, rel), Lookup(remote, rel), Lookup(saved, rel), env);
      }
      assert LoopOutcomes(dev, blobs, env)[..|env.order|] == LoopOutcomes(dev, blobs, env);
      if env.abort == BeforeManifest {
        return;
      }
      var ok := WriteManifest(env.now, env.abort != WithoutManifest);
      if !ok {
        return;
      }
      DropStaleBlobs(stale, env);
      if env.abort != BeforeState {
        vault.saved := nextState;
      }
    }
  }
}
