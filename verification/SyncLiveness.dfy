/** When an error-free sync is possible at all: a storage that is not in the way, and a clock that goes on. */
module SyncLiveness {
  import opened Options
  import opened ConflictNames
  import opened SyncClock
  import opened SyncModel
  import opened SyncConvergence
  import opened SyncStorage

  // ---------------------------------------------------------------- what a sync would do, at any time

  /** Only the manifest has the file, and the device has not deleted it: it will be written. */
  predicate Wanted(dev: Device, files: Entries, p: Path) {
    p !in dev.tree && Classify(None, Lookup(files, p), Lookup(dev.bases, p), 0) == Pull
  }

  /** The file was deleted elsewhere and not changed here: it will go. */
  predicate Given(dev: Device, files: Entries, p: Path) {
    Classify(Lookup(dev.tree, p), Lookup(files, p), Lookup(dev.bases, p), 0) == DropLocal
  }

  /**
   The storage is not in the way of the next sync: no wanted file is a directory here, or lies below a file that stays
   or below another wanted file.
   */
  ghost predicate Unobstructed(dev: Device, dirs: set<Path>, files: Entries) {
    && (forall p :: Wanted(dev, files, p) ==> p !in dirs)
    && (forall a, p :: Wanted(dev, files, p) && Above(a, p) ==>
          !Wanted(dev, files, a) && (a in dev.tree ==> Given(dev, files, a)))
  }

  lemma PlansAreTimeless(l: Option<File>, r: Option<Entry>, s: Option<Base>, now: int)
    ensures Classify(l, r, s, now) == Pull <==> Classify(l, r, s, 0) == Pull
    ensures Classify(l, r, s, now) == DropLocal <==> Classify(l, r, s, 0) == DropLocal
  {
  }

  lemma SamePlans(dev: Device, blobs: Blobs, env: Env, p: Path)
    requires env.skipped == {}
    ensures var v, files := ViewOf(dev, blobs, env), FetchEntries(blobs, dev.key);
            && (Pulled(v, env, p) <==> Wanted(dev, files, p)) && (Dropped(v, env, p) <==> Given(dev, files, p))
  {
    assert ViewOf(dev, blobs, env).locals == dev.tree;
    PlansAreTimeless(Lookup(dev.tree, p), Lookup(FetchEntries(blobs, dev.key), p), Lookup(dev.bases, p), env.now);
  }

  // ---------------------------------------------------------------- one error-free sync

  /** Nothing throws, in the engine's order of paths, and the storage allows it. */
  ghost predicate ErrorFree(dev: Device, dirs: set<Path>, blobs: Blobs, env: Env) {
    Calm(dev, blobs, env) && LocalsFirst(env, dev.tree) && Possible(dev, dirs, blobs, env)
  }

  ghost function AncestorsOf(names: set<Path>): (dirs: set<Path>)
    ensures forall a :: a in dirs <==> exists p :: p in names && Above(a, p)
  {
    assert forall p, a :: p in names && Above(a, p) ==> a in Ancestors(p);
    set p, a | p in names && a in Ancestors(p) :: a
  }

  /** The names a conflict copy of this device must not have. */
  ghost function NamesInUse(dev: Device, dirs: set<Path>, files: Entries): set<Path> {
    dev.tree.Keys + files.Keys + dirs + AncestorsOf(files.Keys)
  }

  lemma {:induction false} Enumeration(names: set<Path>) returns (order: seq<Path>)
    ensures NoRepeats(order) && forall p :: p in order <==> p in names
    decreases |names|
  {
    if names == {} {
      order := [];
    } else {
      var p :| p in names;
      var rest := Enumeration(names - {p});
      order := rest + [p];
    }
  }

  lemma Ordered(dev: Device, files: Entries) returns (order: seq<Path>)
    ensures NoRepeats(order) && forall p :: p in order <==> p in dev.tree || p in files
    ensures forall i, j :: 0 <= i < j < |order| && order[j] in dev.tree ==> order[i] in dev.tree
  {
    var first := Enumeration(dev.tree.Keys);
    var second := Enumeration(files.Keys - dev.tree.Keys);
    order := first + second;
    assert forall i :: |first| <= i < |order| ==> order[i] in second;
    assert forall i :: 0 <= i < |first| ==> order[i] in first;
  }

  /** An unobstructed device can sync without errors at every moment whose stamp is not in use. */
  lemma SyncAt(dev: Device, dirs: set<Path>, blobs: Blobs, now: int, stamp: string) returns (env: Env)
    requires ValidDisk(dev.tree, dirs) && Sound(dev, blobs) && PlainStamp(stamp)
    requires Unobstructed(dev, dirs, FetchEntries(blobs, dev.key))
    requires Fresh(stamp, NamesInUse(dev, dirs, FetchEntries(blobs, dev.key)))
    ensures ErrorFree(dev, dirs, blobs, env) && env.now == now && env.stamp == stamp
  {
    var files := FetchEntries(blobs, dev.key);
    var order := Ordered(dev, files);
    env := Env(now, stamp, order, {}, map[], map[], {}, Finishes);
    var v := ViewOf(dev, blobs, env);
    assert v.locals == dev.tree;
    WayIsClear(dev, dirs, blobs, env);
    PossibleIffClear(dev, dirs, blobs, env);
  }

  lemma WayIsClear(dev: Device, dirs: set<Path>, blobs: Blobs, env: Env)
    requires Unobstructed(dev, dirs, FetchEntries(blobs, dev.key)) && env.skipped == {}
    requires Fresh(env.stamp, NamesInUse(dev, dirs, FetchEntries(blobs, dev.key)))
    ensures Clear(ViewOf(dev, blobs, env), dirs, env)
  {
    var v, files := ViewOf(dev, blobs, env), FetchEntries(blobs, dev.key);
    forall p ensures (Pulled(v, env, p) <==> Wanted(dev, files, p)) && (Dropped(v, env, p) <==> Given(dev, files, p)) {
      SamePlans(dev, blobs, env, p);
    }
    assert v.locals == dev.tree;
    assert forall p :: Wanted(dev, files, p) ==> p in files;
  }

  lemma ClearIsUnobstructed(dev: Device, dirs: set<Path>, blobs: Blobs, env: Env)
    requires Clear(ViewOf(dev, blobs, env), dirs, env) && env.skipped == {}
    ensures Unobstructed(dev, dirs, FetchEntries(blobs, dev.key))
  {
    forall p {
      SamePlans(dev, blobs, env, p);
    }
    assert ViewOf(dev, blobs, env).locals == dev.tree;
  }

  /**
   On a clock that shows more moments than there are names in use: an error-free sync is possible at one of them if and
   only if the storage is not in the way.
   */
  lemma ErrorFreeSyncIff(dev: Device, dirs: set<Path>, blobs: Blobs, format: int -> string, times: seq<int>)
    requires ValidDisk(dev.tree, dirs) && Sound(dev, blobs) && Ticks(format, times)
    requires |times| > |NamesInUse(dev, dirs, FetchEntries(blobs, dev.key))|
    ensures (exists env :: ErrorFree(dev, dirs, blobs, env) && env.now in times && env.stamp == format(env.now)) <==>
            Unobstructed(dev, dirs, FetchEntries(blobs, dev.key))
  {
    if Unobstructed(dev, dirs, FetchEntries(blobs, dev.key)) {
      var rest := FreshTimes(format, times, NamesInUse(dev, dirs, FetchEntries(blobs, dev.key)));
      assert rest[0] in rest;
      ShapedIsPlain(format(rest[0]));
      var env := SyncAt(dev, dirs, blobs, rest[0], format(rest[0]));
    }
    forall env | ErrorFree(dev, dirs, blobs, env) ensures Unobstructed(dev, dirs, FetchEntries(blobs, dev.key)) {
      ErrorFreeNeedsRoom(dev, dirs, blobs, env);
    }
  }

  lemma ErrorFreeNeedsRoom(dev: Device, dirs: set<Path>, blobs: Blobs, env: Env)
    requires ValidDisk(dev.tree, dirs) && Sound(dev, blobs) && ErrorFree(dev, dirs, blobs, env)
    ensures Unobstructed(dev, dirs, FetchEntries(blobs, dev.key))
  {
    PossibleIffClear(dev, dirs, blobs, env);
    ClearIsUnobstructed(dev, dirs, blobs, env);
  }

  // ---------------------------------------------------------------- storages that are in the way

  lemma NeverErrorFree(dev: Device, dirs: set<Path>, blobs: Blobs)
    requires ValidDisk(dev.tree, dirs) && Sound(dev, blobs)
    requires !Unobstructed(dev, dirs, FetchEntries(blobs, dev.key))
    ensures forall env :: !ErrorFree(dev, dirs, blobs, env)
  {
    forall env ensures !ErrorFree(dev, dirs, blobs, env) {
      if ErrorFree(dev, dirs, blobs, env) {
        ErrorFreeNeedsRoom(dev, dirs, blobs, env);
      }
    }
  }

  /** A file here and a file below it in the manifest: no sync of this device gets through without an error. */
  lemma FileAgainstDirectory(dev: Device, dirs: set<Path>, blobs: Blobs, a: Path, p: Path)
    requires ValidDisk(dev.tree, dirs) && Sound(dev, blobs)
    requires var files := FetchEntries(blobs, dev.key);
             LiveHash(files, p).Some? && (a in files ==> !files[a].d)
    requires a in dev.tree && p !in dev.bases && Above(a, p)
    ensures forall env :: !ErrorFree(dev, dirs, blobs, env)
  {
    var files := FetchEntries(blobs, dev.key);
    assert Wanted(dev, files, p) && !Given(dev, files, a);
    NeverErrorFree(dev, dirs, blobs);
  }

  /** The failure at an input: the device has a file of the name of a folder in the manifest. */
  lemma NoErrorFreeSync() returns (dev: Device, blobs: Blobs)
    ensures dev.tree.Keys == {"a"} && ValidDisk(dev.tree, {}) && Sound(dev, blobs)
    ensures LiveHash(FetchEntries(blobs, dev.key), "a/b").Some?
    ensures forall env :: !ErrorFree(dev, {}, blobs, env)
  {
    var mine, theirs := Raw([1]), Raw([2]);
    var entry := Entry(ContentHash(theirs), 5, FileBlobId("k", "a/b", ContentHash(theirs)), false);
    dev := Device("k", map["a" := File(mine, 7)], map[]);
    blobs := map[ManifestId("k") := Sealed(ManifestJson(0, map["a/b" := entry])), entry.b := Sealed(theirs)];
    assert FetchEntries(blobs, "k") == map["a/b" := entry];
    assert "a/b"[..1] == "a" && "a/b"[1] == '/';
    FileAgainstDirectory(dev, {}, blobs, "a", "a/b");
  }

  /** The directory of a file that is given up stays, and is in the way of a file of that name. */
  lemma LeftoverDirectory(dev: Device, dirs: set<Path>, blobs: Blobs, a: Path, p: Path)
    requires ValidDisk(dev.tree, dirs) && Sound(dev, blobs)
    requires var files := FetchEntries(blobs, dev.key);
             Given(dev, files, p) && LiveHash(files, a).Some?
    requires Above(a, p) && a !in dev.bases
    ensures forall env :: !ErrorFree(dev, dirs, blobs, env)
  {
    assert p in dev.tree && a in dirs && Wanted(dev, FetchEntries(blobs, dev.key), a);
    NeverErrorFree(dev, dirs, blobs);
  }

  /** The failure at an input: the device gives up its only file "a/b", and is to fetch a file "a". */
  lemma FolderOutlivesFile() returns (dev: Device, blobs: Blobs)
    ensures dev.tree.Keys == {"a/b"} && ValidDisk(dev.tree, {"a"}) && Sound(dev, blobs)
    ensures Given(dev, FetchEntries(blobs, dev.key), "a/b")
    ensures forall env :: !ErrorFree(dev, {"a"}, blobs, env)
  {
    var mine, theirs := Raw([1]), Raw([2]);
    var gone := Entry(ContentHash(mine), 5, FileBlobId("k", "a/b", ContentHash(mine)), true);
    var live := Entry(ContentHash(theirs), 5, FileBlobId("k", "a", ContentHash(theirs)), false);
    dev := Device("k", map["a/b" := File(mine, 7)], map["a/b" := Base(gone.h, gone.b)]);
    blobs := map[ManifestId("k") := Sealed(ManifestJson(0, map["a/b" := gone, "a" := live])),
                 gone.b := Sealed(mine), live.b := Sealed(theirs)];
    assert FetchEntries(blobs, "k") == map["a/b" := gone, "a" := live];
    assert "a/b"[..1] == "a" && "a/b"[0] == 'a' && "a/b"[1] == '/' && "a/b"[2] == 'b';
    assert forall x :: Above(x, "a/b") ==> |x| == 1 && x == "a/b"[..1];
    LeftoverDirectory(dev, {"a"}, blobs, "a", "a/b");
  }
}
