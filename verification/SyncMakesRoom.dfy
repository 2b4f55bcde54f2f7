/**
 A name that is being deleted can make room: convergence is possible although the names in use leave no room yet. So the
 exact condition for convergence has to except clashes of which one name is on its way out.
 */
module SyncMakesRoom {
  import opened Options
  import opened ConflictNames
  import opened SyncClock
  import opened SyncModel
  import opened SyncSafety
  import opened SyncConvergence
  import opened SyncMerge
  import opened SyncRounds
  import opened SyncStorage
  import opened SyncLiveness
  import opened SyncProgress
  import opened SyncStuck

  lemma FirstOnClock(a: Action, rest: seq<Action>, format: int -> string, times: seq<int>)
    requires Ticks(format, times) && times != [] && OnClock(rest, format, times[1..])
    requires a.SyncNow? && a.env.now == times[0] && a.env.stamp == format(times[0])
    ensures OnClock([a] + rest, format, times)
  {
    var acts := [a] + rest;
    assert forall k :: 1 <= k < |acts| ==> acts[k] == rest[k - 1];
    forall k | 1 <= k < |acts| ensures times[0] < acts[k].env.now && acts[k].env.now in times {
      var i :| 0 <= i < |times[1..]| && times[1..][i] == acts[k].env.now;
      assert times[i + 1] == acts[k].env.now;
    }
  }

  lemma RoundGrows(w: World, a: Action, acts: seq<Action>)
    requires CalmStep(w, a) && IsRound(Next(w, a), acts)
    ensures IsRound(w, [a] + acts)
  {
    var more := [a] + acts;
    forall i | 0 <= i < |w.devices| ensures i in Who(more) {
      assert i in Who(acts);
      var k :| 0 <= k < |acts| && acts[k].i == i;
      assert more[k + 1].i == i;
    }
  }

  lemma PutFirst(w: World, a: Action, disks: Disks, rest: seq<Action>)
    requires CalmStep(w, a) && |disks| == |w.devices| == |Next(w, a).devices|
    requires ErrorFree(w.devices[a.i], disks[a.i], w.blobs, a.env)
    requires CalmRun(Next(w, a), rest) && StoredRun(Next(w, a), NextDisks(w, disks, a), rest)
    requires IsRun(Next(w, a), rest)
    ensures var acts := [a] + rest;
            && CalmRun(w, acts) && StoredRun(w, disks, acts) && IsRun(w, acts) && Run(w, acts) == Run(Next(w, a), rest)
  {
    assert ([a] + rest)[1..] == rest;
  }

  lemma ConvergesWithFirst(w: World, a: Action, disks: Disks, key: string, format: int -> string, times: seq<int>,
                           r1: seq<Action>, r2: seq<Action>, r3: seq<Action>)
    requires CalmStep(w, a) && |disks| == |w.devices| == |Next(w, a).devices|
    requires ErrorFree(w.devices[a.i], disks[a.i], w.blobs, a.env)
    requires Ticks(format, times) && times != [] && a.env.now == times[0] && a.env.stamp == format(times[0])
    requires Converge(Next(w, a), NextDisks(w, disks, a), key, format, times[1..], r1, r2, r3)
    ensures Converge(w, disks, key, format, times, [a] + r1, r2, r3)
  {
    var rest := r1 + (r2 + r3);
    assert [a] + r1 + (r2 + r3) == [a] + rest;
    FirstOnClock(a, rest, format, times);
    RoundGrows(w, a, r1);
    PutFirst(w, a, disks, rest);
  }

  lemma RoomFromNowOn(w: World, disks: Disks, key: string, format: int -> string, times: seq<int>)
      returns (r1: seq<Action>, r2: seq<Action>, r3: seq<Action>)
    requires OneCollection(w, key) && Roomy(w, disks, key)
    requires Ticks(format, times) && |times| > |AllNames(w, disks, key)| + 3 * |w.devices|
    ensures Converge(w, disks, key, format, times[1..], r1, r2, r3)
  {
    r1, r2, r3 := RoomConverges(w, disks, key, format, times[1..]);
  }

  lemma StepFollows(w: World, a: Action, key: string)
    requires OneCollection(w, key) && CalmStep(w, a)
    ensures Enabled(w, a) && OneCollection(Next(w, a), key) && |Next(w, a).devices| == |w.devices|
  {
    StepFacts(w, a, key);
  }

  /** If one error-free sync the storage allows makes room, three converging rounds are possible with it in front. */
  lemma RoomAfterSync(w: World, a: Action, disks: Disks, key: string, format: int -> string, times: seq<int>)
      returns (r1: seq<Action>, r2: seq<Action>, r3: seq<Action>)
    requires OneCollection(w, key) && |disks| == |w.devices| && CalmStep(w, a)
    requires ErrorFree(w.devices[a.i], disks[a.i], w.blobs, a.env)
    requires Ticks(format, times) && times != [] && a.env.now == times[0] && a.env.stamp == format(times[0])
    requires Roomy(Next(w, a), NextDisks(w, disks, a), key)
    requires |times| > |AllNames(Next(w, a), NextDisks(w, disks, a), key)| + 3 * |w.devices|
    ensures Converge(w, disks, key, format, times, r1, r2, r3)
  {
    StepFollows(w, a, key);
    r1, r2, r3 := RoomFromNowOn(Next(w, a), NextDisks(w, disks, a), key, format, times);
    ConvergesWithFirst(w, a, disks, key, format, times, r1, r2, r3);
    r1 := [a] + r1;
  }

  // ---------------------------------------------------------------- an input

  /** The one device is to give up "a", the other has a new file "a/b". */
  ghost predicate FolderAfterFile(w: World, disks: Disks) {
    && OneCollection(w, "k") && |w.devices| == 2 && disks == [{}, {"a"}] && ValidDisks(w, disks)
    && w.devices[0].tree.Keys == {"a"} && w.devices[1].tree.Keys == {"a/b"} && w.devices[1].bases == map[]
    && Files(w, "k").Keys == {"a"} && Given(w.devices[0], Files(w, "k"), "a")
  }

  lemma FolderAfterFileWorld() returns (w: World, disks: Disks)
    ensures FolderAfterFile(w, disks) && !Roomy(w, disks, "k")
  {
    var content := Raw([1]);
    var gone := Entry(ContentHash(content), 5, FileBlobId("k", "a", ContentHash(content)), true);
    var note := File(content, 3);
    var blobs := map[ManifestId("k") := Sealed(ManifestJson(0, map["a" := gone])), gone.b := Sealed(content)];
    w := World(blobs, [Device("k", map["a" := note], map["a" := Base(gone.h, gone.b)]),
                       Device("k", map["a/b" := note], map[])]);
    disks := [{}, {"a"}];
    assert Files(w, "k") == map["a" := gone];
    assert "a/b"[..1] == "a" && "a/b"[0] == 'a' && "a/b"[1] == '/' && "a/b"[2] == 'b';
    assert forall x :: Above(x, "a/b") ==> |x| == 1 && x == "a/b"[..1];
    assert forall x :: !Above(x, "a");
    assert "a" in w.devices[0].tree && "a/b" in w.devices[1].tree;
    assert InUse(w, "k", "a") && InUse(w, "k", "a/b") && Above("a", "a/b");
  }

  /** The first device's sync, at any moment. */
  lemma FirstDrop(w: World, disks: Disks, now: int, stamp: string) returns (a: Action)
    requires FolderAfterFile(w, disks) && PlainStamp(stamp)
    ensures a.SyncNow? && a.i == 0 && a.env.now == now && a.env.stamp == stamp && CalmStep(w, a)
    ensures ErrorFree(w.devices[0], {}, w.blobs, a.env)
  {
    var dev := w.devices[0];
    assert EntriesStored(w.blobs, "k");
    assert forall x :: !Above(x, "a");
    forall q ensures |ConflictPath(q, stamp)| > 3 {
      assert |Mark(stamp)| == |" (conflict "| + |stamp| + |")"|;
      assert |ConflictPath(q, stamp)| == |q| + |Mark(stamp)|;
    }
    var env := SyncAt(dev, {}, w.blobs, now, stamp);
    a := SyncNow(0, env);
    assert forall j, x :: 0 <= j < 2 && x in w.devices[j].tree ==> x == "a" || x == "a/b";
  }

  lemma NothingCopiedThen(w: World, disks: Disks, a: Action)
    requires FolderAfterFile(w, disks) && CalmStep(w, a) && a.i == 0
    ensures Copies(w.devices[0], w.blobs, a.env) == {}
  {
    var v := ViewOf(w.devices[0], w.blobs, a.env);
    forall q | q in a.env.order ensures !Overtaken(v, a.env, q) {
      assert q in v.remote ==> q == "a";
    }
  }

  lemma GivenMergesToNothing(l: Option<File>, r: Option<Entry>, s: Option<Base>)
    requires Classify(l, r, s, 0) == DropLocal
    ensures l.Some? && Merged(l, r, s) == None
  {
  }

  lemma GivenIsGone(dev: Device, blobs: Blobs, env: Env, p: Path)
    requires Calm(dev, blobs, env) && Sound(dev, blobs) && Given(dev, FetchEntries(blobs, dev.key), p)
    ensures LiveHash(LoopEnd(dev, blobs, env).files, p) == None && p !in LoopEnd(dev, blobs, env).tree
  {
    GivenMergesToNothing(Lookup(dev.tree, p), Lookup(FetchEntries(blobs, dev.key), p), Lookup(dev.bases, p));
    MergedEntry(dev, blobs, env, p);
  }

  /** Afterwards "a/b" is the only name in use. */
  lemma OnlyTheFolder(w: World, disks: Disks, a: Action, x: Path)
    requires FolderAfterFile(w, disks) && CalmStep(w, a) && a.i == 0 && InUse(Next(w, a), "k", x)
    ensures x == "a/b"
  {
    NothingCopiedThen(w, disks, a);
    InUseBefore(w, a, "k", x);
    TwoInUse(w, disks, x);
    FileGone(w, disks, a);
  }

  lemma TwoInUse(w: World, disks: Disks, x: Path)
    requires FolderAfterFile(w, disks) && InUse(w, "k", x)
    ensures x == "a" || x == "a/b"
  {
  }

  lemma FileGone(w: World, disks: Disks, a: Action)
    requires FolderAfterFile(w, disks) && CalmStep(w, a) && a.i == 0
    ensures !InUse(Next(w, a), "k", "a")
  {
    StepFacts(w, a, "k");
    GivenIsGone(w.devices[0], w.blobs, a.env, "a");
  }

  lemma NoNewDirectory(w: World, disks: Disks, a: Action)
    requires FolderAfterFile(w, disks) && CalmStep(w, a) && a.i == 0
    ensures NextDisks(w, disks, a) == disks
  {
    assert EntriesStored(w.blobs, "k");
    forall x | x in DirsAfter(w.devices[0], {}, w.blobs, a.env) ensures false {
      NewDirectory(w.devices[0], {}, w.blobs, a.env, x);
    }
    assert DirsAfter(w.devices[0], {}, w.blobs, a.env) == {};
  }

  lemma RoomThen(w: World, disks: Disks, a: Action)
    requires FolderAfterFile(w, disks) && CalmStep(w, a) && a.i == 0
    ensures Roomy(Next(w, a), NextDisks(w, disks, a), "k")
  {
    NoNewDirectory(w, disks, a);
    DisksStep(w, disks, a);
    forall x | InUse(Next(w, a), "k", x) ensures x == "a/b" {
      OnlyTheFolder(w, disks, a, x);
    }
    assert !Above("a/b", "a/b");
  }

  lemma TwoNames(w: World, disks: Disks, a: Action)
    requires FolderAfterFile(w, disks) && CalmStep(w, a) && a.i == 0
    ensures AllNames(Next(w, a), NextDisks(w, disks, a), "k") <= {"a", "a/b"}
  {
    var next := Next(w, a);
    StepFacts(w, a, "k");
    NoNewDirectory(w, disks, a);
    SyncSettles(w.devices[0], w.blobs, a.env);
    assert forall x :: !Above(x, "a");
    forall i, x | 0 <= i < 2 && x in next.devices[i].tree ensures x == "a/b" {
      assert InUse(next, "k", x);
      OnlyTheFolder(w, disks, a, x);
    }
    UnionOfTwo(disks);
    NamesOfTwo(next.devices);
  }

  lemma UnionOfTwo(disks: Disks)
    requires |disks| == 2
    ensures Union(disks) == disks[0] + disks[1]
  {
    assert disks[1..][1..] == [] && Union(disks[1..]) == disks[1] + Union(disks[1..][1..]);
  }

  lemma NamesOfTwo(devices: seq<Device>)
    requires |devices| == 2
    ensures TreeNames(devices) == devices[0].tree.Keys + devices[1].tree.Keys
  {
    var rest := devices[1..];
    assert rest[1..] == [] && TreeNames(rest) == rest[0].tree.Keys + TreeNames(rest[1..]);
  }

  /** No room, and yet convergence is possible, on every clock that shows nine moments. */
  lemma DeletedNameMakesRoom() returns (w: World, disks: Disks)
    ensures OneCollection(w, "k") && ValidDisks(w, disks) && !Roomy(w, disks, "k")
    ensures forall format: int -> string, times :: Ticks(format, times) && |times| >= 9 ==>
              exists r1, r2, r3 :: Converge(w, disks, "k", format, times, r1, r2, r3)
  {
    w, disks := FolderAfterFileWorld();
    forall format: int -> string, times | Ticks(format, times) && |times| >= 9
      ensures exists r1, r2, r3 :: Converge(w, disks, "k", format, times, r1, r2, r3)
    {
      ShapedIsPlain(format(times[0]));
      var a := FirstDrop(w, disks, times[0], format(times[0]));
      RoomThen(w, disks, a);
      TwoNames(w, disks, a);
      AtMostTwo(AllNames(Next(w, a), NextDisks(w, disks, a), "k"), "a", "a/b");
      var r1, r2, r3 := RoomAfterSync(w, a, disks, "k", format, times);
    }
  }

  lemma AtMostTwo(names: set<Path>, x: Path, y: Path)
    requires names <= {x, y}
    ensures |names| <= 2
  {
    var rest := names - {x};
    assert rest - {y} == {} && |names| <= |rest| + 1 && |rest| <= |rest - {y}| + 1;
  }
}
