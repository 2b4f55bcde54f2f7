/**
 One `syncNow` run of the sync engine (packages/core/src/api/sync.ts) as a function on values:
 a three-way merge of the local tree, the relay's manifest and the state saved by the last sync.

 Cryptography is symbolic. A digest is a free constructor applied to what was hashed, so hashing is
 injective; a sealed blob gives back exactly the content that was encrypted.
 */
module SyncModel {
  import opened Options
  import opened ConflictNames

  /** Path of a file relative to the collection. */
  type Path = string

  // ---------------------------------------------------------------- data

  /** File contents: bytes, or the bytes of a serialized manifest. */
  datatype Content = Raw(bytes: seq<int>) | ManifestJson(updated: int, files: map<Path, Entry>)

  datatype Digest =
    | ContentHash(content: Content)
    | ManifestId(key: string)
    | FileBlobId(key: string, rel: Path, hash: Digest)

  /** One manifest entry: content hash, modification time, blob id and tombstone flag. */
  datatype Entry = Entry(h: Digest, m: int, b: Digest, d: bool)

  /** What the last sync recorded for a file. */
  datatype Base = Base(h: Digest, b: Digest)

  datatype File = File(data: Content, mtime: int)

  /** What the relay stores: ciphertext under the identity's key, or bytes that do not decrypt. */
  datatype Blob = Sealed(plain: Content) | Corrupt

  type Tree = map<Path, File>
  type Entries = map<Path, Entry>
  type Bases = map<Path, Base>
  type Blobs = map<Digest, Blob>

  function Lookup<K, V>(m: map<K, V>, k: K): Option<V> {
    if k in m then Some(m[k]) else None
  }

  /** `RelayClient.put`: an id that is already stored is left as it is. */
  function PutBlob(blobs: Blobs, id: Digest, blob: Blob): Blobs {
    if id in blobs then blobs else blobs[id := blob]
  }

  /** `fetchManifest(...) ?? { files: {} }`: a missing or unreadable manifest counts as empty. */
  function FetchEntries(blobs: Blobs, key: string): Entries {
    var found: Option<Blob> := Lookup(blobs, ManifestId(key));
    match found
    case Some(Sealed(ManifestJson(_, files))) => files
    case _ => map[]
  }

  // ---------------------------------------------------------------- what the environment decides

  /**
   Which I/O call made for one file throws. Calls are numbered from 0 in the order the file's branch
   makes them; `landed` says whether the throwing call nevertheless took effect.
   */
  datatype Fault = NoFault | FailsAt(op: nat, landed: bool)

  predicate Succeeds(f: Fault, op: nat) {
    f.NoFault? || op < f.op
  }

  predicate TakesEffect(f: Fault, op: nat) {
    f.NoFault? || op < f.op || (op == f.op && f.landed)
  }

  /**
   Where a sync stops for good: its catch-all handler neither retries nor undoes anything. It may stop before the old
   manifest is removed, between that and the put of the new one, or before the state is saved; stopping while stale
   blobs are removed is `BeforeState` with the rest of them in `keptBlobs`.
   */
  datatype Abort = Finishes | BeforeManifest | WithoutManifest | BeforeState

  /**
   Inputs of one sync that come from outside: the clock, the formatted timestamp, the order in which
   paths are enumerated, files the walk could not read, the clock readings at which files are written,
   faults per file, blob removals that fail, and an abort of the whole run.
   */
  datatype Env = Env(
    now: int, stamp: string, order: seq<Path>, skipped: set<Path>, clock: map<Path, int>,
    faults: map<Path, Fault>, keptBlobs: set<Digest>, abort: Abort)

  function FaultFor(env: Env, rel: Path): Fault {
    if rel in env.faults then env.faults[rel] else NoFault
  }

  function WriteTime(env: Env, rel: Path): int {
    if rel in env.clock then env.clock[rel] else env.now
  }

  // ---------------------------------------------------------------- three-way merge of one path

  datatype Plan =
    | InSync            // both sides hold the same content
    | Push              // upload the local content
    | Pull              // take the remote content
    | KeepBoth          // conflict won by the remote side: copy the local file, then pull
    | PushOver          // conflict won by the local side: upload
    | DropLocal         // the remote side deleted a file that is unchanged here
    | Bury              // deleted here and unchanged remotely: leave a tombstone
    | KeepTombstone
    | PruneTombstone
    | Nothing

  const TOMBSTONE_PRUNE_MS := 30 * 24 * 3600 * 1000

  predicate Live(r: Option<Entry>) {
    r.Some? && !r.value.d
  }

  /** The merge decision as a table over (local, remote, base). */
  function Classify(l: Option<File>, r: Option<Entry>, s: Option<Base>, now: int): Plan {
    if l.Some? && Live(r) then
      var lh, rh := ContentHash(l.value.data), r.value.h;
      if lh == rh then InSync
      else if s.Some? && s.value.h == rh then Push
      else if s.Some? && s.value.h == lh then Pull
      else if r.value.m > l.value.mtime then KeepBoth
      else PushOver
    else if l.Some? then
      if r.Some? && s.Some? && s.value.h == ContentHash(l.value.data) then DropLocal else Push
    else if Live(r) then
      if s.Some? && s.value.h == r.value.h then Bury else Pull
    else if r.Some? then
      if now - r.value.m > TOMBSTONE_PRUNE_MS then PruneTombstone else KeepTombstone
    else Nothing
  }

  datatype Change = Keep | Write(data: Content) | Delete
  datatype EntryChange = KeepEntry | SetEntry(entry: Entry) | DropEntry

  datatype Tally = Tally(
    uploaded: nat, downloaded: nat, deletedLocal: nat, deletedRemote: nat, conflicts: nat)

  const ZERO: Tally := Tally(0, 0, 0, 0, 0)

  function Plus(a: Tally, b: Tally): Tally {
    Tally(a.uploaded + b.uploaded, a.downloaded + b.downloaded, a.deletedLocal + b.deletedLocal,
          a.deletedRemote + b.deletedRemote, a.conflicts + b.conflicts)
  }

  /**
   Everything the engine does for one path: what happens to the file, the conflict copy written, the
   content put on the relay, and the changes to the next manifest, the next state and the counters.
   */
  datatype Outcome = Outcome(
    file: Change, copy: Option<Content>, put: Option<Content>, entry: EntryChange,
    base: Option<Base>, tally: Tally, failed: bool)

  function UploadEntry(key: string, rel: Path, l: File, now: int): Entry {
    var h := ContentHash(l.data);
    Entry(h, if l.mtime == 0 then now else l.mtime, FileBlobId(key, rel, h), false)
  }

  function BaseOf(e: Entry): Base {
    Base(e.h, e.b)
  }

  /** Upload: call 0 puts the blob. */
  function PushOutcome(key: string, rel: Path, l: File, env: Env, tally: Tally): Outcome {
    var f := FaultFor(env, rel);
    var e := UploadEntry(key, rel, l, env.now);
    var put := if TakesEffect(f, 0) then Some(l.data) else None;
    if Succeeds(f, 0) then
      Outcome(Keep, None, put, SetEntry(e), Some(BaseOf(e)), tally.(uploaded := tally.uploaded + 1), false)
    else
      Outcome(Keep, None, put, KeepEntry, None, tally, true)
  }

  /** Download, its calls numbered from `op`: get the blob, make the directory, write the file. */
  function PullOutcome(rel: Path, r: Entry, got: Option<Blob>, env: Env, op: nat,
                       copy: Option<Content>, tally: Tally): Outcome {
    var f := FaultFor(env, rel);
    var readable := got.Some? && got.value.Sealed?;
    var file := if readable && TakesEffect(f, op + 2) then Write(got.value.plain) else Keep;
    if readable && Succeeds(f, op + 2) then
      Outcome(file, copy, None, SetEntry(r), Some(BaseOf(r)), tally.(downloaded := tally.downloaded + 1), false)
    else
      Outcome(file, copy, None, KeepEntry, None, tally, true)
  }

  /** Conflict won by the remote side: calls 0 and 1 save the local content as a copy. */
  function KeepBothOutcome(rel: Path, l: File, r: Entry, got: Option<Blob>, env: Env): Outcome {
    var f := FaultFor(env, rel);
    var conflict := Tally(0, 0, 0, 0, 1);
    var copy := if TakesEffect(f, 1) then Some(l.data) else None;
    if Succeeds(f, 1) then PullOutcome(rel, r, got, env, 2, copy, conflict)
    else Outcome(Keep, copy, None, KeepEntry, None, conflict, true)
  }

  function DropLocalOutcome(rel: Path, r: Entry, env: Env): Outcome {
    var f := FaultFor(env, rel);
    var file := if TakesEffect(f, 0) then Delete else Keep;
    if Succeeds(f, 0) then
      Outcome(file, None, None, SetEntry(r), None, Tally(0, 0, 1, 0, 0), false)
    else
      Outcome(file, None, None, KeepEntry, None, ZERO, true)
  }

  /** The plan can be carried out: it has the file or the entry it works on. */
  predicate Applies(plan: Plan, l: Option<File>, r: Option<Entry>) {
    && (plan in {Push, PushOver, KeepBoth} ==> l.Some?)
    && (plan in {InSync, Pull, KeepBoth, DropLocal, Bury, KeepTombstone} ==> r.Some?)
  }

  /** `got` is what the relay holds under the entry's blob id when the path is processed. */
  function Decide(key: string, rel: Path, l: Option<File>, r: Option<Entry>, s: Option<Base>,
                  got: Option<Blob>, env: Env): Outcome {
    Execute(Classify(l, r, s, env.now), key, rel, l, r, got, env)
  }

  function Execute(plan: Plan, key: string, rel: Path, l: Option<File>, r: Option<Entry>,
                   got: Option<Blob>, env: Env): Outcome
    requires Applies(plan, l, r)
  {
    match plan
    case InSync => Outcome(Keep, None, None, SetEntry(r.value), Some(BaseOf(r.value)), ZERO, false)
    case Push => PushOutcome(key, rel, l.value, env, ZERO)
    case PushOver => PushOutcome(key, rel, l.value, env, Tally(0, 0, 0, 0, 1))
    case Pull => PullOutcome(rel, r.value, got, env, 0, None, ZERO)
    case KeepBoth => KeepBothOutcome(rel, l.value, r.value, got, env)
    case DropLocal => DropLocalOutcome(rel, r.value, env)
    case Bury =>
      Outcome(Keep, None, None, SetEntry(r.value.(d := true, m := env.now)), None,
              Tally(0, 0, 0, 1, 0), false)
    case KeepTombstone => Outcome(Keep, None, None, SetEntry(r.value), None, ZERO, false)
    case PruneTombstone => Outcome(Keep, None, None, DropEntry, None, ZERO, false)
    case Nothing => Outcome(Keep, None, None, KeepEntry, None, ZERO, false)
  }

  // ---------------------------------------------------------------- the loop over all paths

  /** What the loop changes: tree, relay, next manifest, next state, counters, paths that failed. */
  datatype Acc = Acc(tree: Tree, blobs: Blobs, files: Entries, bases: Bases, tally: Tally, errors: seq<Path>)

  /** What the loop only reads: collection key, walked files, fetched manifest, saved state. */
  datatype View = View(key: string, locals: Tree, remote: Entries, saved: Bases)

  function ApplyFile(tree: Tree, rel: Path, o: Outcome, env: Env): Tree {
    var cp := ConflictPath(rel, env.stamp);
    var copied := if o.copy.Some? then tree[cp := File(o.copy.value, WriteTime(env, cp))] else tree;
    match o.file
    case Keep => copied
    case Write(data) => copied[rel := File(data, WriteTime(env, rel))]
    case Delete => copied - {rel}
  }

  function ApplyEntry(files: Entries, rel: Path, change: EntryChange): Entries {
    match change
    case KeepEntry => files
    case SetEntry(e) => files[rel := e]
    case DropEntry => files - {rel}
  }

  function Apply(key: string, acc: Acc, rel: Path, o: Outcome, env: Env): Acc {
    Acc(ApplyFile(acc.tree, rel, o, env),
        if o.put.Some?
        then PutBlob(acc.blobs, FileBlobId(key, rel, ContentHash(o.put.value)), Sealed(o.put.value))
        else acc.blobs,
        ApplyEntry(acc.files, rel, o.entry),
        if o.base.Some? then acc.bases[rel := o.base.value] else acc.bases,
        Plus(acc.tally, o.tally),
        if o.failed then acc.errors + [rel] else acc.errors)
  }

  /** The outcome for `rel` when the loop has reached the state `acc`. */
  function OutcomeFor(v: View, acc: Acc, rel: Path, env: Env): Outcome {
    var r := Lookup(v.remote, rel);
    var got := if r.Some? then Lookup(acc.blobs, r.value.b) else None;
    Decide(v.key, rel, Lookup(v.locals, rel), r, Lookup(v.saved, rel), got, env)
  }

  function Start(v: View, tree: Tree, blobs: Blobs): Acc {
    Acc(tree, blobs, v.remote, map[], ZERO, [])
  }

  /** State of the loop when the first `|os|` paths had the outcomes `os`. */
  function Replay(key: string, acc0: Acc, env: Env, os: seq<Outcome>): Acc
    requires |os| <= |env.order|
  {
    if os == [] then acc0
    else
      var n := |os| - 1;
      Apply(key, Replay(key, acc0, env, os[..n]), env.order[n], os[n], env)
  }

  /** The decision for a path as a function of the loop state reached so far. */
  function Decider(v: View, env: Env): (Acc, Path) -> Outcome {
    (acc: Acc, rel: Path) => OutcomeFor(v, acc, rel, env)
  }

  /** Outcomes of the first `n` paths: each decision sees the relay as the earlier ones left it. */
  function Outcomes(key: string, decide: (Acc, Path) -> Outcome, acc0: Acc, env: Env, n: nat): (os: seq<Outcome>)
    requires n <= |env.order|
    ensures |os| == n
  {
    if n == 0 then []
    else
      var os := Outcomes(key, decide, acc0, env, n - 1);
      os + [decide(Replay(key, acc0, env, os), env.order[n - 1])]
  }

  // ---------------------------------------------------------------- one sync

  /** A device: the collection it syncs, its files and the state saved by its last sync. */
  datatype Device = Device(key: string, tree: Tree, bases: Bases)

  datatype Synced = Synced(device: Device, blobs: Blobs, tally: Tally, errors: seq<Path>)

  function Walk(tree: Tree, skipped: set<Path>): Tree {
    map p | p in tree && p !in skipped :: tree[p]
  }

  function ViewOf(dev: Device, blobs: Blobs, env: Env): View {
    View(dev.key, Walk(dev.tree, env.skipped), FetchEntries(blobs, dev.key), dev.bases)
  }

  /** The loop visits the walked files and the manifest's paths, each once. */
  ghost predicate Enumerates(env: Env, v: View) {
    && NoRepeats(env.order)
    && (forall p :: p in env.order <==> p in v.locals || p in v.remote)
  }

  function EntryBlobs(files: Entries): set<Digest> {
    set p | p in files :: files[p].b
  }

  function BaseBlobs(bases: Bases): set<Digest> {
    set p | p in bases :: bases[p].b
  }

  /** Blobs dropped after the manifest is published: known before, not named now, removal succeeding. */
  function Garbage(v: View, files: Entries, env: Env): set<Digest> {
    EntryBlobs(v.remote) + BaseBlobs(v.saved) - EntryBlobs(files) - env.keptBlobs
  }

  /** `writeManifest` removes the old manifest and then puts the new one. */
  function Publish(blobs: Blobs, key: string, now: int, files: Entries): Blobs {
    PutBlob(blobs - {ManifestId(key)}, ManifestId(key), Sealed(ManifestJson(now, files)))
  }

  function LoopOutcomes(dev: Device, blobs: Blobs, env: Env): seq<Outcome> {
    var v := ViewOf(dev, blobs, env);
    Outcomes(dev.key, Decider(v, env), Start(v, dev.tree, blobs), env, |env.order|)
  }

  /** The loop state after all paths. */
  function LoopEnd(dev: Device, blobs: Blobs, env: Env): Acc {
    Replay(dev.key, Start(ViewOf(dev, blobs, env), dev.tree, blobs), env, LoopOutcomes(dev, blobs, env))
  }

  function Sync(dev: Device, blobs: Blobs, env: Env): Synced {
    var v := ViewOf(dev, blobs, env);
    var acc := LoopEnd(dev, blobs, env);
    if env.abort == BeforeManifest then
      Synced(dev.(tree := acc.tree), acc.blobs, acc.tally, acc.errors)
    else if env.abort == WithoutManifest then
      Synced(dev.(tree := acc.tree), acc.blobs - {ManifestId(dev.key)}, acc.tally, acc.errors)
    else
      var published := Publish(acc.blobs, dev.key, env.now, acc.files) - Garbage(v, acc.files, env);
      var bases := if env.abort == BeforeState then dev.bases else acc.bases;
      Synced(Device(dev.key, acc.tree, bases), published, acc.tally, acc.errors)
  }
}
