/**
 What a sync reports, against what it has done: which paths are in its list of errors, what has become of the others,
 and what its counters count.
 */
module SyncReport {
  import opened Options
  import opened SyncModel
  import opened SyncSteps
  import opened SyncSafety
  import opened SyncConvergence
  import opened SyncMerge

  // ---------------------------------------------------------------- errors

  lemma {:induction false} ErrorsAreFailures(key: string, acc0: Acc, env: Env, os: seq<Outcome>, p: Path)
    requires |os| <= |env.order|
    ensures p in Replay(key, acc0, env, os).errors <==>
            p in acc0.errors || exists k :: 0 <= k < |os| && os[k].failed && env.order[k] == p
  {
    if os != [] {
      ErrorsAreFailures(key, acc0, env, os[..|os| - 1], p);
    }
  }

  lemma ReportedIff(dev: Device, blobs: Blobs, env: Env, p: Path) returns (o: Outcome, got: Option<Blob>)
    requires Enumerates(env, ViewOf(dev, blobs, env)) && Orderly(env) && Sound(dev, blobs) && p in env.order
    ensures var v, end := ViewOf(dev, blobs, env), LoopEnd(dev, blobs, env);
            var r := Lookup(v.remote, p);
            && o == Decide(dev.key, p, Lookup(v.locals, p), r, Lookup(dev.bases, p), got, env)
            && (r.Some? ==> got.Some? && got.value.Sealed? && ContentHash(got.value.plain) == r.value.h)
            && Lookup(end.files, p) == ChangedEntry(r, o.entry)
            && Lookup(end.bases, p) == o.base
            && Lookup(end.tree, p) == Changed(Lookup(dev.tree, p), o.file, WriteTime(env, p))
            && (p in end.errors <==> o.failed)
            && (forall k :: 0 <= k < |env.order| && env.order[k] == p ==> LoopOutcomes(dev, blobs, env)[k] == o)
  {
    var v := ViewOf(dev, blobs, env);
    o, got := PathResult(dev, blobs, env, p);
    ErrorsAreFailures(dev.key, Start(v, dev.tree, blobs), env, LoopOutcomes(dev, blobs, env), p);
  }

  /** How many I/O calls a plan makes when none of them fails. */
  function Calls(plan: Plan): nat {
    match plan
    case Push | PushOver | DropLocal => 1
    case Pull => 3
    case KeepBoth => 5
    case _ => 0
  }

  lemma OutcomeReported(key: string, p: Path, l: Option<File>, r: Option<Entry>, s: Option<Base>, got: Option<Blob>,
                        env: Env)
    requires r.Some? ==> got.Some? && got.value.Sealed? && ContentHash(got.value.plain) == r.value.h
    ensures var o, f := Decide(key, p, l, r, s, got, env), FaultFor(env, p);
            var e := ChangedEntry(r, o.entry);
            && (o.failed <==> f.FailsAt? && f.op < Calls(Classify(l, r, s, env.now)))
            && (o.failed ==> e == r && o.base == None)
            && (!o.failed ==>
                  && HashOf(Changed(l, o.file, WriteTime(env, p))) == EntryHash(e)
                  && o.base == (if Live(e) then Some(BaseOf(e.value)) else None)
                  && (e.Some? <==> (l.Some? || r.Some?) && !Outdated(l, r, env.now)))
  {
    var plan := Classify(l, r, s, env.now);
    assert plan == InSync ==> r.value.h == ContentHash(l.value.data);
  }

  /**
   A path is reported exactly if one of the calls made for it fails. A path that is not reported ends as in an
   error-free sync, whatever fails elsewhere; one that is keeps its entry and loses its base, so that it is retried.
   */
  lemma Reported(dev: Device, blobs: Blobs, env: Env, p: Path)
    requires Enumerates(env, ViewOf(dev, blobs, env)) && Orderly(env) && Sound(dev, blobs)
    requires p in env.order && p !in env.skipped
    ensures var files, end, f := FetchEntries(blobs, dev.key), LoopEnd(dev, blobs, env), FaultFor(env, p);
            var plan := Classify(Lookup(dev.tree, p), Lookup(files, p), Lookup(dev.bases, p), env.now);
            && (p in end.errors <==> f.FailsAt? && f.op < Calls(plan))
            && (p in end.errors ==> Lookup(end.files, p) == Lookup(files, p) && p !in end.bases)
            && (p !in end.errors ==>
                  && LocalHash(end.tree, p) == LiveHash(end.files, p) == BaseHash(end.bases, p)
                  && (p in end.files <==> !PrunedAt(dev.tree, files, env.now, p)))
  {
    var v := ViewOf(dev, blobs, env);
    var o, got := ReportedIff(dev, blobs, env, p);
    assert Lookup(v.locals, p) == Lookup(dev.tree, p);
    OutcomeReported(dev.key, p, Lookup(v.locals, p), Lookup(v.remote, p), Lookup(dev.bases, p), got, env);
  }

  lemma LeftOutOutcome(key: string, p: Path, r: Option<Entry>, s: Option<Base>, got: Option<Blob>, env: Env)
    requires Live(r)
    ensures var o := Decide(key, p, None, r, s, got, env);
            && (EntryHash(ChangedEntry(r, o.entry)).None? <==> s.Some? && s.value.h == r.value.h)
            && (EntryHash(ChangedEntry(r, o.entry)).None? ==> o.file == Keep)
  {
    var plan := Classify(None, r, s, env.now);
    assert plan in {Bury, Pull};
  }

  /**
   A file the walk leaves out counts as deleted here: if it is unchanged in the manifest since the last sync its entry
   becomes a tombstone, although the file stays.
   */
  lemma LeftOutIsBuriedIff(dev: Device, blobs: Blobs, env: Env, p: Path)
    requires Enumerates(env, ViewOf(dev, blobs, env)) && Orderly(env) && Sound(dev, blobs)
    requires p in dev.tree && p in env.skipped && LiveHash(FetchEntries(blobs, dev.key), p).Some?
    ensures var files, end := FetchEntries(blobs, dev.key), LoopEnd(dev, blobs, env);
            && (LiveHash(end.files, p).None? <==> LiveHash(files, p) == BaseHash(dev.bases, p))
            && (LiveHash(end.files, p).None? ==> Lookup(end.tree, p) == Lookup(dev.tree, p))
  {
    var v := ViewOf(dev, blobs, env);
    var o, got := ReportedIff(dev, blobs, env, p);
    LeftOutOutcome(dev.key, p, Lookup(v.remote, p), Lookup(dev.bases, p), got, env);
  }

  // ---------------------------------------------------------------- counters

  /** The paths each counter is to count. */
  datatype Counted = Counted(uploaded: set<Path>, downloaded: set<Path>, deletedLocal: set<Path>,
      deletedRemote: set<Path>, conflicts: set<Path>)

  function One(p: Path, s: set<Path>): nat {
    if p in s then 1 else 0
  }

  function TallyOf(c: Counted, p: Path): Tally {
    Tally(One(p, c.uploaded), One(p, c.downloaded), One(p, c.deletedLocal), One(p, c.deletedRemote),
          One(p, c.conflicts))
  }

  function CountsIn(c: Counted, order: seq<Path>): Tally {
    Tally(Count(order, c.uploaded), Count(order, c.downloaded), Count(order, c.deletedLocal),
          Count(order, c.deletedRemote), Count(order, c.conflicts))
  }

  lemma {:induction false} CountersAdd(key: string, acc0: Acc, env: Env, os: seq<Outcome>, c: Counted)
    requires |os| <= |env.order| && acc0.tally == ZERO
    requires forall k {:trigger os[k]} :: 0 <= k < |os| ==> os[k].tally == TallyOf(c, env.order[k])
    ensures Replay(key, acc0, env, os).tally == CountsIn(c, env.order[..|os|])
  {
    if os != [] {
      var n := |os| - 1;
      CountersAdd(key, acc0, env, os[..n], c);
      assert env.order[..n + 1][..n] == env.order[..n];
    }
  }

  /** What a path's file, entry and error tell about what was done with it. */
  ghost function Told(dev: Device, files: Entries, end: Acc, order: seq<Path>): Counted {
    Counted(set p | p in order && LiveHash(end.files, p) !in {None, LiveHash(files, p)},
            set p | p in order && p !in end.errors && LocalHash(end.tree, p) !in {None, LocalHash(dev.tree, p)},
            set p | p in order && p !in end.errors && p in dev.tree && p !in end.tree,
            set p | p in order && LiveHash(files, p).Some? && LiveHash(end.files, p).None?,
            set p | p in order && InConflict(dev, files, p))
  }

  lemma OutcomeCounted(key: string, p: Path, l: Option<File>, r: Option<Entry>, s: Option<Base>, got: Option<Blob>,
                       env: Env)
    requires r.Some? ==> got.Some? && got.value.Sealed? && ContentHash(got.value.plain) == r.value.h
    ensures var o := Decide(key, p, l, r, s, got, env);
            var h, h', f, f' := EntryHash(r), EntryHash(ChangedEntry(r, o.entry)),
                                HashOf(l), HashOf(Changed(l, o.file, WriteTime(env, p)));
            && o.tally.uploaded == (if h' !in {None, h} then 1 else 0)
            && o.tally.downloaded == (if !o.failed && f' !in {None, f} then 1 else 0)
            && o.tally.deletedLocal == (if !o.failed && f.Some? && f'.None? then 1 else 0)
            && o.tally.deletedRemote == (if h.Some? && h'.None? then 1 else 0)
            && o.tally.conflicts == if f.Some? && h.Some? && f != h && (s.None? || Some(s.value.h) !in {f, h})
                                    then 1 else 0
  {
    var plan := Classify(l, r, s, env.now);
    assert Applies(plan, l, r);
  }

  /**
   The counters of a sync are the numbers of paths whose live content in the manifest changed, that took another
   content here, that went here, that went from the live manifest, and that were in conflict; what failed half-way
   counts as a conflict only.
   */
  lemma CountersTell(dev: Device, blobs: Blobs, env: Env)
    requires Enumerates(env, ViewOf(dev, blobs, env)) && Orderly(env) && Sound(dev, blobs) && env.skipped == {}
    ensures var end := LoopEnd(dev, blobs, env);
            var c := Told(dev, FetchEntries(blobs, dev.key), end, env.order);
            end.tally == Tally(|c.uploaded|, |c.downloaded|, |c.deletedLocal|, |c.deletedRemote|, |c.conflicts|)
  {
    var v, end, os := ViewOf(dev, blobs, env), LoopEnd(dev, blobs, env), LoopOutcomes(dev, blobs, env);
    var c := Told(dev, FetchEntries(blobs, dev.key), end, env.order);
    forall k {:trigger os[k]} | 0 <= k < |os| ensures os[k].tally == TallyOf(c, env.order[k]) {
      StepCounted(dev, blobs, env, k);
    }
    CountersAdd(dev.key, Start(v, dev.tree, blobs), env, os, c);
    assert env.order[..|os|] == env.order;
    CountAll(env.order, c.uploaded);
    CountAll(env.order, c.downloaded);
    CountAll(env.order, c.deletedLocal);
    CountAll(env.order, c.deletedRemote);
    CountAll(env.order, c.conflicts);
  }

  /** One path's share of the counters, for any end of the loop that has its outcome. */
  lemma ShareTold(dev: Device, files: Entries, end: Acc, env: Env, p: Path, o: Outcome, got: Option<Blob>)
    requires o == Decide(dev.key, p, Lookup(dev.tree, p), Lookup(files, p), Lookup(dev.bases, p), got, env)
    requires p in files ==> got.Some? && got.value.Sealed? && ContentHash(got.value.plain) == files[p].h
    requires Lookup(end.files, p) == ChangedEntry(Lookup(files, p), o.entry)
    requires Lookup(end.tree, p) == Changed(Lookup(dev.tree, p), o.file, WriteTime(env, p))
    requires p in env.order && (p in end.errors <==> o.failed)
    ensures o.tally == TallyOf(Told(dev, files, end, env.order), p)
  {
    OutcomeCounted(dev.key, p, Lookup(dev.tree, p), Lookup(files, p), Lookup(dev.bases, p), got, env);
    assert p in end.tree <==> LocalHash(end.tree, p).Some?;
  }

  lemma StepCounted(dev: Device, blobs: Blobs, env: Env, k: nat)
    requires Enumerates(env, ViewOf(dev, blobs, env)) && Orderly(env) && Sound(dev, blobs) && env.skipped == {}
    requires k < |env.order|
    ensures LoopOutcomes(dev, blobs, env)[k].tally ==
            TallyOf(Told(dev, FetchEntries(blobs, dev.key), LoopEnd(dev, blobs, env), env.order), env.order[k])
  {
    var v, p := ViewOf(dev, blobs, env), env.order[k];
    assert v.locals == dev.tree;
    var o, got := ReportedIff(dev, blobs, env, p);
    ShareTold(dev, FetchEntries(blobs, dev.key), LoopEnd(dev, blobs, env), env, p, o, got);
  }
}
