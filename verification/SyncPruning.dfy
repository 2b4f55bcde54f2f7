/** Pruned tombstones: with them three error-free rounds are still enough, but two are not, even without conflicts. */
module SyncPruning {
  import opened Options
  import opened ConflictNames
  import opened SyncModel
  import opened SyncSteps
  import opened SyncSafety
  import opened SyncConvergence
  import opened SyncRounds

  const NAME := "a"
  const CONTENT := Raw([1])
  const LATER := TOMBSTONE_PRUNE_MS + 1

  function Quiet(now: int): Env {
    Env(now, "", [NAME], {}, map[], map[], {}, Finishes)
  }

  /** The example's file and its base, or neither. */
  ghost predicate Holds(dev: Device, file: bool, base: bool) {
    && dev.key == "k"
    && dev.tree.Keys == (if file then {NAME} else {}) && (file ==> dev.tree[NAME].data == CONTENT)
    && dev.bases.Keys == (if base then {NAME} else {}) && (base ==> dev.bases[NAME].h == ContentHash(CONTENT))
  }

  ghost predicate EntryIs(files: Entries, e: Option<Entry>) {
    && files == (if e.Some? then map[NAME := e.value] else map[])
    && (e.Some? ==> e.value.h == ContentHash(CONTENT))
  }

  /** The example's world: who holds the file and a base for it, and its entry. */
  ghost predicate Pair(w: World, file0: bool, base0: bool, file1: bool, base1: bool, e: Option<Entry>) {
    && OneCollection(w, "k") && |w.devices| == 2 && EntryIs(Files(w, "k"), e)
    && Holds(w.devices[0], file0, base0) && Holds(w.devices[1], file1, base1)
  }

  lemma QuietIsCalm(dev: Device, blobs: Blobs, now: int, file: bool, base: bool, e: Option<Entry>)
    requires Holds(dev, file, base) && EntryIs(FetchEntries(blobs, "k"), e) && (file || e.Some?)
    ensures Calm(dev, blobs, Quiet(now))
  {
    assert ViewOf(dev, blobs, Quiet(now)).locals == dev.tree;
    assert |ConflictPath(NAME, "")| > |NAME|;
  }

  /** The entry after a sync of a device that has the file or not. */
  ghost function EntryAfter(now: int, l: Option<File>, base: bool, e: Option<Entry>): Option<Entry> {
    if l.Some? then if e.Some? then e else Some(UploadEntry("k", NAME, l.value, now))
    else if Outdated(l, e, now) then None
    else if Live(e) && base then Some(Entry(e.value.h, now, e.value.b, true))
    else e
  }

  lemma QuietOutcome(now: int, l: Option<File>, e: Option<Entry>, s: Option<Base>, got: Option<Blob>)
    requires l.Some? ==> l.value.data == CONTENT
    requires s.Some? ==> s.value.h == ContentHash(CONTENT)
    requires e.Some? ==> e.value.h == ContentHash(CONTENT)
    requires if l.Some? then s.Some? && (e.Some? ==> Live(e)) else e.Some? && (Live(e) ==> s.Some?)
    ensures var o := Decide("k", NAME, l, e, s, got, Quiet(now));
            && ChangedEntry(e, o.entry) == EntryAfter(now, l, s.Some?, e)
            && o.file == Keep && o.copy.None? && o.tally.conflicts == 0
            && (if l.Some? then o.base.Some? && o.base.value.h == ContentHash(CONTENT) else o.base.None?)
  {
    var plan := Classify(l, e, s, now);
    assert plan in {InSync, Push, Bury, KeepTombstone, PruneTombstone};
    assert FaultFor(Quiet(now), NAME) == NoFault;
  }

  lemma QuietName(dev: Device, blobs: Blobs, now: int, file: bool, base: bool, e: Option<Entry>)
    requires Sound(dev, blobs) && Holds(dev, file, base) && EntryIs(FetchEntries(blobs, "k"), e)
    requires if file then base && (e.Some? ==> Live(e)) else e.Some? && (Live(e) ==> base)
    ensures var end := LoopEnd(dev, blobs, Quiet(now));
            && Lookup(end.tree, NAME) == Lookup(dev.tree, NAME)
            && Lookup(end.tree, ConflictPath(NAME, "")) == Lookup(dev.tree, ConflictPath(NAME, ""))
            && BaseHash(end.bases, NAME) == (if file then Some(ContentHash(CONTENT)) else None)
            && Lookup(end.files, NAME) == EntryAfter(now, Lookup(dev.tree, NAME), base, e)
            && end.tally.conflicts == 0
  {
    QuietIsCalm(dev, blobs, now, file, base, e);
    var o, got := CalmPath(dev, blobs, Quiet(now), NAME);
    QuietOutcome(now, Lookup(dev.tree, NAME), e, Lookup(dev.bases, NAME), got);
    OneStepTally(dev, blobs, Quiet(now));
  }

  lemma OtherNames(dev: Device, blobs: Blobs, now: int, file: bool, base: bool, e: Option<Entry>, p: Path)
    requires Holds(dev, file, base) && EntryIs(FetchEntries(blobs, "k"), e) && (file || e.Some?)
    requires p != NAME
    ensures var end := LoopEnd(dev, blobs, Quiet(now));
            && p !in end.files && p !in end.bases
            && (p != ConflictPath(NAME, "") ==> p !in end.tree)
  {
    QuietIsCalm(dev, blobs, now, file, base, e);
    PathUntouched(dev, blobs, Quiet(now), p);
  }

  lemma OneStepTally(dev: Device, blobs: Blobs, env: Env)
    requires |env.order| == 1
    ensures LoopEnd(dev, blobs, env).tally == LoopOutcomes(dev, blobs, env)[0].tally
  {
    var os := LoopOutcomes(dev, blobs, env);
    assert os == [os[0]] && os[..0] == [];
  }

  /** A device that has the file keeps it, one that does not does not get it. */
  lemma QuietSync(dev: Device, blobs: Blobs, now: int, file: bool, base: bool, e: Option<Entry>)
    requires Sound(dev, blobs) && Holds(dev, file, base) && EntryIs(FetchEntries(blobs, "k"), e)
    requires if file then base && (e.Some? ==> Live(e)) else e.Some? && (Live(e) ==> base)
    ensures var end := LoopEnd(dev, blobs, Quiet(now));
            && Holds(Device("k", end.tree, end.bases), file, file)
            && EntryIs(end.files, EntryAfter(now, Lookup(dev.tree, NAME), base, e))
            && end.tally.conflicts == 0
  {
    QuietName(dev, blobs, now, file, base, e);
    forall p | p != NAME
      ensures var end := LoopEnd(dev, blobs, Quiet(now)); p !in end.files && p !in end.bases
      ensures p != ConflictPath(NAME, "") ==> p !in LoopEnd(dev, blobs, Quiet(now)).tree
    {
      OtherNames(dev, blobs, now, file, base, e, p);
    }
    assert |ConflictPath(NAME, "")| > |NAME|;
    OnlyName(dev, LoopEnd(dev, blobs, Quiet(now)), file, EntryAfter(now, Lookup(dev.tree, NAME), base, e));
  }

  lemma OnlyName(dev: Device, end: Acc, file: bool, e: Option<Entry>)
    requires dev.tree.Keys == (if file then {NAME} else {})
    requires file ==> dev.tree[NAME].data == CONTENT
    requires e.Some? ==> e.value.h == ContentHash(CONTENT)
    requires Lookup(end.tree, NAME) == Lookup(dev.tree, NAME)
    requires BaseHash(end.bases, NAME) == (if file then Some(ContentHash(CONTENT)) else None)
    requires Lookup(end.files, NAME) == e
    requires forall p :: p != NAME ==> p !in end.files && p !in end.bases && p !in end.tree
    ensures Holds(Device("k", end.tree, end.bases), file, file) && EntryIs(end.files, e)
  {
    assert NAME in end.tree <==> Lookup(end.tree, NAME).Some?;
    assert NAME in end.files <==> Lookup(end.files, NAME).Some?;
  }

  // ---------------------------------------------------------------- the two rounds

  /** One device of the pair syncs. */
  lemma PairStep(w: World, i: nat, now: int, file: bool, base: bool, e: Option<Entry>) returns (a: Action)
    requires OneCollection(w, "k") && |w.devices| == 2 && i < 2 && EntryIs(Files(w, "k"), e)
    requires Holds(w.devices[i], file, base) && w.devices[1 - i].tree.Keys <= {NAME}
    requires if file then base && (e.Some? ==> Live(e)) else e.Some? && (Live(e) ==> base)
    ensures a == SyncNow(i, Quiet(now)) && CalmStep(w, a) && OneCollection(Next(w, a), "k")
    ensures LoopEnd(w.devices[i], w.blobs, Quiet(now)).tally.conflicts == 0
    ensures |Next(w, a).devices| == 2 && Next(w, a).devices[1 - i] == w.devices[1 - i]
    ensures Holds(Next(w, a).devices[i], file, file)
    ensures EntryIs(Files(Next(w, a), "k"), EntryAfter(now, Lookup(w.devices[i].tree, NAME), base, e))
  {
    a := SyncNow(i, Quiet(now));
    QuietIsCalm(w.devices[i], w.blobs, now, file, base, e);
    assert |ConflictPath(NAME, "")| > |NAME|;
    StepFacts(w, a, "k");
    QuietSync(w.devices[i], w.blobs, now, file, base, e);
  }

  lemma Prepended(w: World, a: Action, rest: seq<Action>)
    requires CalmStep(w, a) && LoopEnd(w.devices[a.i], w.blobs, a.env).tally.conflicts == 0
    requires CalmRun(Next(w, a), rest) && IsRun(Next(w, a), rest) && ConflictFree(Next(w, a), rest)
    ensures CalmRun(w, [a] + rest) && IsRun(w, [a] + rest) && ConflictFree(w, [a] + rest)
    ensures Run(w, [a] + rest) == Run(Next(w, a), rest)
  {
    assert ([a] + rest)[1..] == rest;
  }

  lemma TwoSteps(w: World, a: Action, b: Action) returns (r: seq<Action>)
    requires CalmStep(w, a) && CalmStep(Next(w, a), b)
    requires LoopEnd(w.devices[a.i], w.blobs, a.env).tally.conflicts == 0
    requires LoopEnd(Next(w, a).devices[b.i], Next(w, a).blobs, b.env).tally.conflicts == 0
    requires |w.devices| == 2 && a.i + b.i == 1
    ensures CalmRun(w, r) && IsRun(w, r) && ConflictFree(w, r) && IsRound(w, r)
    ensures Run(w, r) == Next(Next(w, a), b)
  {
    r := [a] + ([b] + []);
    Prepended(Next(w, a), b, []);
    Prepended(w, a, [b] + []);
    RoundOfTwo(w, a, b);
  }

  lemma RoundOfTwo(w: World, a: Action, b: Action)
    requires |w.devices| == 2 && a.i + b.i == 1
    ensures IsRound(w, [a] + ([b] + []))
  {
    var acts := [a] + ([b] + []);
    assert acts[0] == a && acts[1] == b;
    forall i | 0 <= i < 2 ensures i in Who(acts) {
      assert i == a.i || i == b.i;
    }
  }

  /** A file both devices have a base for, deleted on the first of them. */
  lemma DeletedOnOne() returns (w: World, e: Entry)
    ensures Pair(w, false, true, true, true, Some(e)) && !e.d
  {
    var h := ContentHash(CONTENT);
    e := Entry(h, 0, FileBlobId("k", NAME, h), false);
    var bases := map[NAME := Base(h, e.b)];
    var blobs := map[ManifestId("k") := Sealed(ManifestJson(0, map[NAME := e])), e.b := Sealed(CONTENT)];
    w := World(blobs, [Device("k", map[], bases), Device("k", map[NAME := File(CONTENT, 0)], bases)]);
    assert FetchEntries(blobs, "k") == map[NAME := e];
    forall key: string ensures EntriesStored(blobs, key) {
    }
  }

  /**
   Two rounds without conflicts are not enough when a tombstone is pruned: the device that deleted the file prunes its
   tombstone before the other one sees it, and the other one uploads the file again.
   */
  lemma TwoRoundsWithPruning() returns (w: World, r1: seq<Action>, r2: seq<Action>)
    ensures OneCollection(w, "k") && CalmRun(w, r1) && ConflictFree(w, r1) && IsRound(w, r1) && IsRun(w, r1)
    ensures var w1 := Run(w, r1);
            && CalmRun(w1, r2) && ConflictFree(w1, r2) && IsRound(w1, r2) && IsRun(w1, r2)
            && !Converged(Run(w1, r2), "k")
  {
    var e;
    w, e := DeletedOnOne();
    r1 := FirstRound(w, e);
    r2 := SecondRound(Run(w, r1), Entry(e.h, 0, e.b, true));
  }

  lemma FirstRound(w: World, e: Entry) returns (r: seq<Action>)
    requires Pair(w, false, true, true, true, Some(e)) && !e.d
    ensures CalmRun(w, r) && ConflictFree(w, r) && IsRound(w, r) && IsRun(w, r)
    ensures Pair(Run(w, r), false, false, true, true, Some(Entry(e.h, 0, e.b, true)))
  {
    var a1 := KeepStep(w, e);
    var a2 := BuryStep(Next(w, a1), e);
    r := TwoSteps(w, a1, a2);
  }

  lemma KeepStep(w: World, e: Entry) returns (a: Action)
    requires Pair(w, false, true, true, true, Some(e)) && !e.d
    ensures a.i == 1 && CalmStep(w, a) && Enabled(w, a)
    ensures LoopEnd(w.devices[a.i], w.blobs, a.env).tally.conflicts == 0
    ensures Pair(Next(w, a), false, true, true, true, Some(e))
  {
    a := PairStep(w, 1, 0, true, true, Some(e));
    StepFacts(w, a, "k");
    assert NAME in w.devices[1].tree;
  }

  lemma BuryStep(w: World, e: Entry) returns (a: Action)
    requires Pair(w, false, true, true, true, Some(e)) && !e.d
    ensures a.i == 0 && CalmStep(w, a) && Enabled(w, a)
    ensures LoopEnd(w.devices[a.i], w.blobs, a.env).tally.conflicts == 0
    ensures Pair(Next(w, a), false, false, true, true, Some(Entry(e.h, 0, e.b, true)))
  {
    a := PairStep(w, 0, 0, false, true, Some(e));
    StepFacts(w, a, "k");
  }

  lemma SecondRound(w: World, e: Entry) returns (r: seq<Action>)
    requires Pair(w, false, false, true, true, Some(e)) && e.d && e.m == 0
    ensures CalmRun(w, r) && ConflictFree(w, r) && IsRound(w, r) && IsRun(w, r) && !Converged(Run(w, r), "k")
  {
    var a1 := PruneStep(w, e);
    var a2 := UploadStep(Next(w, a1));
    r := TwoSteps(w, a1, a2);
  }

  lemma PruneStep(w: World, e: Entry) returns (a: Action)
    requires Pair(w, false, false, true, true, Some(e)) && e.d && e.m == 0
    ensures a.i == 0 && CalmStep(w, a) && Enabled(w, a)
    ensures LoopEnd(w.devices[a.i], w.blobs, a.env).tally.conflicts == 0
    ensures Pair(Next(w, a), false, false, true, true, None)
  {
    a := PairStep(w, 0, LATER, false, false, Some(e));
    StepFacts(w, a, "k");
  }

  lemma UploadStep(w: World) returns (a: Action)
    requires Pair(w, false, false, true, true, None)
    ensures a.i == 1 && CalmStep(w, a) && Enabled(w, a)
    ensures LoopEnd(w.devices[a.i], w.blobs, a.env).tally.conflicts == 0
    ensures !Converged(Next(w, a), "k")
  {
    a := PairStep(w, 1, LATER, true, true, None);
    StepFacts(w, a, "k");
    assert NAME in w.devices[1].tree;
    assert LocalHash(Next(w, a).devices[0].tree, NAME) != LiveHash(Files(Next(w, a), "k"), NAME);
  }
}
