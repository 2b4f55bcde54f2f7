/**
 Error-free rounds are possible, and the devices then converge, whenever the names in use leave room: none lies above
 another and none is a directory anywhere.
 */
module SyncProgress {
  import opened ConflictNames
  import opened SyncClock
  import opened SyncModel
  import opened SyncSafety
  import opened SyncConvergence
  import opened SyncMerge
  import opened SyncRounds
  import opened SyncStorage
  import opened SyncLiveness

  /** The directories of each device. */
  type Disks = seq<set<Path>>

  ghost predicate ValidDisks(w: World, disks: Disks) {
    && |disks| == |w.devices|
    && forall i :: 0 <= i < |w.devices| ==> ValidDisk(w.devices[i].tree, disks[i])
  }

  /** Some device has the file, or the manifest has it. */
  ghost predicate InUse(w: World, key: string, x: Path) {
    LiveHash(Files(w, key), x).Some? || exists i :: 0 <= i < |w.devices| && x in w.devices[i].tree
  }

  /** No name in use lies above another, and none is a directory of any device. */
  ghost predicate Roomy(w: World, disks: Disks, key: string) {
    && ValidDisks(w, disks)
    && (forall x, y :: InUse(w, key, x) && InUse(w, key, y) ==> !Above(x, y))
    && forall i, x :: 0 <= i < |disks| && InUse(w, key, x) ==> x !in disks[i]
  }

  /** The directories after an action: only those of the device that syncs change. */
  ghost function NextDisks(w: World, disks: Disks, a: Action): Disks
    requires a.SyncNow? && a.i < |w.devices| == |disks|
  {
    disks[a.i := DirsAfter(w.devices[a.i], disks[a.i], w.blobs, a.env)]
  }

  /** Syncs only, each of them allowed by the storage and in the engine's order of paths. */
  ghost predicate StoredRun(w: World, disks: Disks, acts: seq<Action>)
    requires |disks| == |w.devices|
    decreases |acts|
  {
    acts == [] ||
    (&& acts[0].SyncNow? && Enabled(w, acts[0])
     && LocalsFirst(acts[0].env, w.devices[acts[0].i].tree)
     && Possible(w.devices[acts[0].i], disks[acts[0].i], w.blobs, acts[0].env)
     && StoredRun(Next(w, acts[0]), NextDisks(w, disks, acts[0]), acts[1..]))
  }

  // ---------------------------------------------------------------- names in use after an error-free sync

  /** The name is nowhere: no file, entry or directory has it, and none lies below it. */
  ghost predicate Unused(w: World, disks: Disks, key: string, x: Path)
    requires |disks| == |w.devices|
  {
    && x !in Files(w, key)
    && (forall p :: p in Files(w, key) ==> !Above(x, p))
    && forall i :: 0 <= i < |w.devices| ==> x !in w.devices[i].tree && x !in disks[i]
  }

  ghost predicate FreshEverywhere(w: World, disks: Disks, key: string, stamp: string)
    requires |disks| == |w.devices|
  {
    forall q :: Unused(w, disks, key, ConflictPath(q, stamp))
  }

  lemma RoomyIsUnobstructed(w: World, disks: Disks, key: string, i: nat)
    requires Roomy(w, disks, key) && i < |w.devices|
    ensures Unobstructed(w.devices[i], disks[i], Files(w, key))
  {
    var dev, files := w.devices[i], Files(w, key);
    forall p | Wanted(dev, files, p) ensures InUse(w, key, p) {
    }
    forall a | a in dev.tree ensures InUse(w, key, a) {
    }
  }

  lemma FreshForDevice(w: World, disks: Disks, key: string, stamp: string, i: nat)
    requires |disks| == |w.devices| && i < |w.devices| && FreshEverywhere(w, disks, key, stamp)
    ensures Fresh(stamp, NamesInUse(w.devices[i], disks[i], Files(w, key)))
  {
    forall q ensures ConflictPath(q, stamp) !in NamesInUse(w.devices[i], disks[i], Files(w, key)) {
      assert Unused(w, disks, key, ConflictPath(q, stamp));
    }
  }

  /** With room, each device can sync at each moment with a fresh stamp. */
  lemma StepAt(w: World, disks: Disks, key: string, i: nat, now: int, stamp: string) returns (a: Action)
    requires OneCollection(w, key) && Roomy(w, disks, key) && i < |w.devices|
    requires PlainStamp(stamp) && FreshEverywhere(w, disks, key, stamp)
    ensures a.SyncNow? && a.i == i && a.env.now == now && a.env.stamp == stamp
    ensures CalmStep(w, a) && Enabled(w, a) && ErrorFree(w.devices[i], disks[i], w.blobs, a.env)
  {
    assert EntriesStored(w.blobs, key);
    RoomyIsUnobstructed(w, disks, key, i);
    FreshForDevice(w, disks, key, stamp, i);
    var env := SyncAt(w.devices[i], disks[i], w.blobs, now, stamp);
    a := SyncNow(i, env);
    forall j, q | 0 <= j < |w.devices| && q in env.order ensures ConflictPath(q, stamp) !in w.devices[j].tree {
      assert Unused(w, disks, key, ConflictPath(q, stamp));
    }
  }

  /** What an error-free sync may add to the directories of its device. */
  lemma NewDirectory(dev: Device, dirs: set<Path>, blobs: Blobs, env: Env, x: Path)
    requires Calm(dev, blobs, env) && Sound(dev, blobs) && x in DirsAfter(dev, dirs, blobs, env)
    ensures x in dirs || exists p :: LiveHash(FetchEntries(blobs, dev.key), p).Some? && Above(x, p)
  {
    DirHistoryFollows(dev, dirs, blobs, env);
    NewAbove(DirHistory(dev, dirs, blobs, env), dirs, ViewOf(dev, blobs, env), env, x);
  }

  lemma NewAbove(d: seq<set<Path>>, dirs: set<Path>, v: View, env: Env, x: Path)
    requires DirsFollow(d, dirs, v, env) && x in d[|env.order|]
    ensures x in dirs || exists p :: LiveHash(v.remote, p).Some? && Above(x, p)
  {
    DirOrigin(d, dirs, v, env, |env.order|, x);
    if i :| 0 <= i < |env.order| && Writes(v, env, env.order[i]) && Above(x, env.order[i]) {
      assert LiveHash(v.remote, env.order[i]).Some?;
    }
  }

  /** After an error-free sync a live name was one before, or is that of a file of the device. */
  lemma LiveBefore(dev: Device, blobs: Blobs, env: Env, x: Path)
    requires Calm(dev, blobs, env) && Sound(dev, blobs) && LiveHash(LoopEnd(dev, blobs, env).files, x).Some?
    ensures x in dev.tree || LiveHash(FetchEntries(blobs, dev.key), x).Some?
  {
    SyncSettles(dev, blobs, env);
    MergedEntry(dev, blobs, env, x);
  }

  /** The only new names are those of the conflict copies. */
  lemma InUseBefore(w: World, a: Action, key: string, x: Path)
    requires OneCollection(w, key) && CalmStep(w, a) && InUse(Next(w, a), key, x)
    ensures InUse(w, key, x) || x in Copies(w.devices[a.i], w.blobs, a.env)
  {
    var dev, end := w.devices[a.i], LoopEnd(w.devices[a.i], w.blobs, a.env);
    StepFacts(w, a, key);
    SyncSettles(dev, w.blobs, a.env);
    if LiveHash(end.files, x).Some? {
      LiveBefore(dev, w.blobs, a.env, x);
    } else {
      var j :| 0 <= j < |w.devices| && x in Next(w, a).devices[j].tree;
      if j == a.i && x in end.bases {
        AgreementEverywhere(dev, w.blobs, a.env);
      }
    }
  }

  lemma CopyIsUnused(w: World, disks: Disks, a: Action, key: string, x: Path)
    requires CalmStep(w, a) && |disks| == |w.devices|
    requires FreshEverywhere(w, disks, key, a.env.stamp) && x in Copies(w.devices[a.i], w.blobs, a.env)
    ensures Unused(w, disks, key, x)
    ensures exists q :: q in w.devices[a.i].tree && ConflictPath(q, a.env.stamp) == x
  {
    var q :| q in a.env.order && Overtaken(ViewOf(w.devices[a.i], w.blobs, a.env), a.env, q)
             && ConflictPath(q, a.env.stamp) == x;
    assert Unused(w, disks, key, ConflictPath(q, a.env.stamp));
  }

  /** Names before a step and the conflict copies it writes do not lie above each other. */
  lemma RoomBetween(w: World, disks: Disks, a: Action, key: string, x: Path, y: Path)
    requires CalmStep(w, a) && Roomy(w, disks, key)
    requires FreshEverywhere(w, disks, key, a.env.stamp)
    requires InUse(w, key, x) || x in Copies(w.devices[a.i], w.blobs, a.env)
    requires InUse(w, key, y) || y in Copies(w.devices[a.i], w.blobs, a.env)
    ensures !Above(x, y)
  {
    var below := y;
    if y in Copies(w.devices[a.i], w.blobs, a.env) {
      CopyIsUnused(w, disks, a, key, y);
      below :| below in w.devices[a.i].tree && ConflictPath(below, a.env.stamp) == y;
      CopyHasSameAncestors(below, a.env.stamp, x);
    }
    assert InUse(w, key, below);
    if x in Copies(w.devices[a.i], w.blobs, a.env) {
      CopyIsUnused(w, disks, a, key, x);
      UnusedIsNotAbove(w, disks, key, x, below);
    }
  }

  lemma UnusedIsNotAbove(w: World, disks: Disks, key: string, x: Path, y: Path)
    requires ValidDisks(w, disks) && Unused(w, disks, key, x) && InUse(w, key, y)
    ensures !Above(x, y)
  {
  }

  lemma NoDirectory(w: World, disks: Disks, a: Action, key: string, x: Path)
    requires OneCollection(w, key) && CalmStep(w, a) && Roomy(w, disks, key)
    requires FreshEverywhere(w, disks, key, a.env.stamp)
    requires InUse(w, key, x) || x in Copies(w.devices[a.i], w.blobs, a.env)
    ensures forall i :: 0 <= i < |w.devices| ==> x !in NextDisks(w, disks, a)[i]
  {
    var dev := w.devices[a.i];
    assert EntriesStored(w.blobs, key);
    if x in Copies(dev, w.blobs, a.env) {
      CopyIsUnused(w, disks, a, key, x);
    }
    if x in DirsAfter(dev, disks[a.i], w.blobs, a.env) {
      NewDirectory(dev, disks[a.i], w.blobs, a.env, x);
      if p :| LiveHash(Files(w, key), p).Some? && Above(x, p) {
        RoomBetween(w, disks, a, key, x, p);
      }
    }
  }

  lemma ValidStep(w: World, disks: Disks, a: Action, key: string)
    requires OneCollection(w, key) && CalmStep(w, a) && ValidDisks(w, disks)
    requires Possible(w.devices[a.i], disks[a.i], w.blobs, a.env)
    ensures ValidDisks(Next(w, a), NextDisks(w, disks, a))
  {
    StepFacts(w, a, key);
    ValidAfter(w.devices[a.i], disks[a.i], w.blobs, a.env);
  }

  lemma RoomyStep(w: World, disks: Disks, a: Action, key: string)
    requires OneCollection(w, key) && CalmStep(w, a) && Roomy(w, disks, key)
    requires FreshEverywhere(w, disks, key, a.env.stamp)
    requires Possible(w.devices[a.i], disks[a.i], w.blobs, a.env)
    ensures Roomy(Next(w, a), NextDisks(w, disks, a), key)
  {
    var next := Next(w, a);
    ValidStep(w, disks, a, key);
    forall x | InUse(next, key, x)
      ensures InUse(w, key, x) || x in Copies(w.devices[a.i], w.blobs, a.env)
      ensures forall i :: 0 <= i < |w.devices| ==> x !in NextDisks(w, disks, a)[i]
    {
      InUseBefore(w, a, key, x);
      NoDirectory(w, disks, a, key, x);
    }
    forall x, y | InUse(next, key, x) && InUse(next, key, y) ensures !Above(x, y) {
      RoomBetween(w, disks, a, key, x, y);
    }
  }

  /** A stamp not used so far stays fresh when a sync writes copies with another one. */
  lemma FreshStep(w: World, disks: Disks, a: Action, key: string, stamp: string)
    requires OneCollection(w, key) && CalmStep(w, a) && ValidDisks(w, disks)
    requires FreshEverywhere(w, disks, key, stamp) && PlainStamp(stamp)
    requires |stamp| == |a.env.stamp| && stamp != a.env.stamp
    ensures FreshEverywhere(Next(w, a), NextDisks(w, disks, a), key, stamp)
  {
    forall q ensures Unused(Next(w, a), NextDisks(w, disks, a), key, ConflictPath(q, stamp)) {
      assert Unused(w, disks, key, ConflictPath(q, stamp));
      UnusedStep(w, disks, a, key, q, stamp);
    }
  }

  lemma UnusedStep(w: World, disks: Disks, a: Action, key: string, q: Path, stamp: string)
    requires OneCollection(w, key) && CalmStep(w, a) && ValidDisks(w, disks)
    requires Unused(w, disks, key, ConflictPath(q, stamp)) && PlainStamp(stamp)
    requires |stamp| == |a.env.stamp| && stamp != a.env.stamp
    ensures Unused(Next(w, a), NextDisks(w, disks, a), key, ConflictPath(q, stamp))
  {
    var dev, end, x := w.devices[a.i], LoopEnd(w.devices[a.i], w.blobs, a.env), ConflictPath(q, stamp);
    StepFacts(w, a, key);
    SyncSettles(dev, w.blobs, a.env);
    if x in Copies(dev, w.blobs, a.env) {
      var p :| p in a.env.order && ConflictPath(p, a.env.stamp) == x;
      OneStampPerName(p, a.env.stamp, q, stamp);
    }
    if x in DirsAfter(dev, disks[a.i], w.blobs, a.env) {
      NewDirectory(dev, disks[a.i], w.blobs, a.env, x);
    }
  }

  // ---------------------------------------------------------------- rounds on a clock

  ghost predicate ByInOrder(acts: seq<Action>, who: seq<nat>) {
    |acts| == |who| && forall k :: 0 <= k < |who| ==> acts[k].i == who[k]
  }

  /** The syncs happen at moments of the clock, one after the other, and with their stamps. */
  ghost predicate OnClock(acts: seq<Action>, format: int -> string, times: seq<int>) {
    && (forall k :: 0 <= k < |acts| ==>
          acts[k].SyncNow? && acts[k].env.now in times && acts[k].env.stamp == format(acts[k].env.now))
    && forall j, k :: 0 <= j < k < |acts| ==> acts[j].env.now < acts[k].env.now
  }

  /** The syncs happen at the first of the given moments. */
  ghost predicate AtMoments(acts: seq<Action>, format: int -> string, times: seq<int>) {
    && |acts| <= |times|
    && forall k :: 0 <= k < |acts| ==>
         acts[k].SyncNow? && acts[k].env.now == times[k] && acts[k].env.stamp == format(times[k])
  }

  lemma OneMoreMoment(a: Action, rest: seq<Action>, format: int -> string, times: seq<int>)
    requires times != [] && a.SyncNow? && a.env.now == times[0] && a.env.stamp == format(times[0])
    requires AtMoments(rest, format, times[1..])
    ensures AtMoments([a] + rest, format, times)
  {
  }

  /** Syncs of the given devices, one after the other. */
  lemma {:induction false} RunExists(w: World, disks: Disks, key: string, who: seq<nat>, format: int -> string,
                                     times: seq<int>) returns (acts: seq<Action>)
    requires OneCollection(w, key) && Roomy(w, disks, key) && forall k :: 0 <= k < |who| ==> who[k] < |w.devices|
    requires Ticks(format, times) && |who| <= |times|
    requires forall t :: t in times ==> FreshEverywhere(w, disks, key, format(t))
    ensures CalmRun(w, acts) && StoredRun(w, disks, acts) && ByInOrder(acts, who)
    ensures AtMoments(acts, format, times)
    decreases |who|
  {
    if who == [] {
      acts := [];
    } else {
      var a := FirstSync(w, disks, key, who[0], format, times);
      var rest := RunExists(Next(w, a), NextDisks(w, disks, a), key, who[1..], format, times[1..]);
      acts := [a] + rest;
      Prepended(w, disks, a, rest);
      OneMoreMoment(a, rest, format, times);
    }
  }

  lemma FirstSync(w: World, disks: Disks, key: string, i: nat, format: int -> string, times: seq<int>)
      returns (a: Action)
    requires OneCollection(w, key) && Roomy(w, disks, key) && i < |w.devices|
    requires Ticks(format, times) && times != []
    requires forall t :: t in times ==> FreshEverywhere(w, disks, key, format(t))
    ensures a.SyncNow? && a.i == i && a.env.now == times[0] && a.env.stamp == format(times[0])
    ensures CalmStep(w, a) && Enabled(w, a) && ErrorFree(w.devices[i], disks[i], w.blobs, a.env)
    ensures OneCollection(Next(w, a), key) && Roomy(Next(w, a), NextDisks(w, disks, a), key)
    ensures |Next(w, a).devices| == |w.devices| && Ticks(format, times[1..])
    ensures forall t :: t in times[1..] ==> FreshEverywhere(Next(w, a), NextDisks(w, disks, a), key, format(t))
  {
    ShapedIsPlain(format(times[0]));
    a := StepAt(w, disks, key, i, times[0], format(times[0]));
    StepFacts(w, a, key);
    RoomyStep(w, disks, a, key);
    LaterStaysFresh(w, disks, a, key, format, times);
  }

  lemma Prepended(w: World, disks: Disks, a: Action, rest: seq<Action>)
    requires CalmStep(w, a) && |disks| == |w.devices|
    requires ErrorFree(w.devices[a.i], disks[a.i], w.blobs, a.env)
    requires CalmRun(Next(w, a), rest) && StoredRun(Next(w, a), NextDisks(w, disks, a), rest)
    ensures CalmRun(w, [a] + rest) && StoredRun(w, disks, [a] + rest)
  {
    assert ([a] + rest)[1..] == rest;
  }

  lemma LaterStaysFresh(w: World, disks: Disks, a: Action, key: string, format: int -> string, times: seq<int>)
    requires OneCollection(w, key) && CalmStep(w, a) && ValidDisks(w, disks)
    requires Ticks(format, times) && times != [] && a.env.stamp == format(times[0])
    requires forall t :: t in times ==> FreshEverywhere(w, disks, key, format(t))
    ensures Ticks(format, times[1..])
    ensures forall t :: t in times[1..] ==> FreshEverywhere(Next(w, a), NextDisks(w, disks, a), key, format(t))
  {
    forall t | t in times[1..] ensures FreshEverywhere(Next(w, a), NextDisks(w, disks, a), key, format(t)) {
      var i :| 1 <= i < |times| && times[i] == t;
      ShapedIsPlain(format(t));
      FreshStep(w, disks, a, key, format(t));
    }
  }

  ghost function Union(disks: Disks): (all: set<Path>)
    ensures forall i :: 0 <= i < |disks| ==> disks[i] <= all
  {
    if disks == [] then {} else disks[0] + Union(disks[1..])
  }

  ghost function TreeNames(devices: seq<Device>): (all: set<Path>)
    ensures forall i :: 0 <= i < |devices| ==> devices[i].tree.Keys <= all
  {
    if devices == [] then {} else devices[0].tree.Keys + TreeNames(devices[1..])
  }

  /** The names no conflict copy must have. */
  ghost function AllNames(w: World, disks: Disks, key: string): set<Path> {
    TreeNames(w.devices) + Files(w, key).Keys + AncestorsOf(Files(w, key).Keys) + Union(disks)
  }

  lemma FreshIsEverywhere(w: World, disks: Disks, key: string, stamp: string)
    requires |disks| == |w.devices| && Fresh(stamp, AllNames(w, disks, key))
    ensures FreshEverywhere(w, disks, key, stamp)
  {
  }

  function OneRound(n: nat): (who: seq<nat>)
    ensures |who| == n && forall k :: 0 <= k < |who| ==> who[k] == k
  {
    seq(n, i requires 0 <= i => i)
  }

  lemma RoundOf(w: World, r: seq<Action>)
    requires ByInOrder(r, OneRound(|w.devices|))
    ensures IsRound(w, r)
  {
    forall i | 0 <= i < |w.devices| ensures i in Who(r) {
      assert r[i].i == i;
    }
  }

  lemma SplitThree(acts: seq<Action>, who: seq<nat>) returns (r1: seq<Action>, r2: seq<Action>, r3: seq<Action>)
    requires ByInOrder(acts, who + (who + who))
    ensures acts == r1 + (r2 + r3) && ByInOrder(r1, who) && ByInOrder(r2, who) && ByInOrder(r3, who)
  {
    var rest := acts[|who|..];
    r1, r2, r3 := acts[..|who|], rest[..|who|], rest[|who|..];
  }

  lemma ByTheClock(acts: seq<Action>, format: int -> string, times: seq<int>, rest: seq<int>)
    requires Ticks(format, rest) && AtMoments(acts, format, rest) && forall t :: t in rest ==> t in times
    ensures OnClock(acts, format, times)
  {
  }

  /** With room, three error-free rounds are possible on a clock that shows enough moments. */
  lemma ThreeRoundsPossible(w: World, disks: Disks, key: string, format: int -> string, times: seq<int>)
      returns (r1: seq<Action>, r2: seq<Action>, r3: seq<Action>)
    requires OneCollection(w, key) && Roomy(w, disks, key)
    requires Ticks(format, times) && |times| >= |AllNames(w, disks, key)| + 3 * |w.devices|
    ensures var acts := r1 + (r2 + r3);
            CalmRun(w, acts) && StoredRun(w, disks, acts) && OnClock(acts, format, times)
    ensures IsRound(w, r1) && IsRound(w, r2) && IsRound(w, r3)
  {
    var round := OneRound(|w.devices|);
    var rest := FreshTimes(format, times, AllNames(w, disks, key));
    forall t | t in rest ensures FreshEverywhere(w, disks, key, format(t)) {
      FreshIsEverywhere(w, disks, key, format(t));
    }
    var acts := RunExists(w, disks, key, round + (round + round), format, rest);
    ByTheClock(acts, format, times, rest);
    r1, r2, r3 := SplitThree(acts, round);
    RoundOf(w, r1);
    RoundOf(w, r2);
    RoundOf(w, r3);
  }

  /** Three rounds of error-free syncs that the storages allow, at moments of the clock, and the devices agree. */
  ghost predicate Converge(w: World, disks: Disks, key: string, format: int -> string, times: seq<int>,
                           r1: seq<Action>, r2: seq<Action>, r3: seq<Action>)
    requires |disks| == |w.devices|
  {
    var acts := r1 + (r2 + r3);
    && CalmRun(w, acts) && StoredRun(w, disks, acts) && OnClock(acts, format, times)
    && IsRound(w, r1) && IsRound(w, r2) && IsRound(w, r3)
    && IsRun(w, acts) && Converged(Run(w, acts), key) && SameFiles(Run(w, acts))
  }

  lemma RoomConverges(w: World, disks: Disks, key: string, format: int -> string, times: seq<int>)
      returns (r1: seq<Action>, r2: seq<Action>, r3: seq<Action>)
    requires OneCollection(w, key) && Roomy(w, disks, key)
    requires Ticks(format, times) && |times| >= |AllNames(w, disks, key)| + 3 * |w.devices|
    ensures Converge(w, disks, key, format, times, r1, r2, r3)
  {
    r1, r2, r3 := ThreeRoundsPossible(w, disks, key, format, times);
    ConvergesInThreeRounds(w, r1, r2, r3, key);
    SameContents(Run(w, r1 + (r2 + r3)), key);
  }

  lemma OneCollectionReached(w: World, history: seq<Action>, key: string)
    requires Initial(w) && IsRun(w, history)
    requires forall i :: 0 <= i < |Run(w, history).devices| ==> Run(w, history).devices[i].key == key
    ensures OneCollection(Run(w, history), key)
  {
    InvRun(w, history);
  }

  /**
   Whatever happened before, edits, lost states and syncs with any failures: if the names in use leave room, three
   error-free rounds that the storages allow are possible on the clock, and after them all devices have the same files.
   */
  lemma ConvergencePossible(w: World, history: seq<Action>, key: string, disks: Disks, format: int -> string,
                            times: seq<int>) returns (r1: seq<Action>, r2: seq<Action>, r3: seq<Action>)
    requires Initial(w) && IsRun(w, history)
    requires forall i :: 0 <= i < |Run(w, history).devices| ==> Run(w, history).devices[i].key == key
    requires Roomy(Run(w, history), disks, key) && Ticks(format, times)
    requires |times| >= |AllNames(Run(w, history), disks, key)| + 3 * |Run(w, history).devices|
    ensures Converge(Run(w, history), disks, key, format, times, r1, r2, r3)
  {
    OneCollectionReached(w, history, key);
    r1, r2, r3 := RoomConverges(Run(w, history), disks, key, format, times);
  }
}
