/**
 Exactly when a file's content survives a sync, conflict copies onto names in use included: what is under any path
 afterwards is decided by the path's own step and by the one file whose conflict copy has that name, in loop order.
 */
module SyncSurvival {
  import opened Options
  import opened ConflictNames
  import opened SyncModel
  import opened SyncSteps
  import opened SyncSafety
  import opened SyncConvergence

  predicate DataIs(f: Option<File>, content: Content) {
    f.Some? && f.value.data == content
  }

  // ---------------------------------------------------------------- the loop, at one path

  lemma CopyIsElsewhere(rel: Path, stamp: string)
    ensures |ConflictPath(rel, stamp)| > |rel|
  {
    assert |Mark(stamp)| > 0;
  }

  /** What step `k` leaves at `x`. */
  lemma StepAt(key: string, acc0: Acc, env: Env, os: seq<Outcome>, k: nat, x: Path)
    requires k < |os| <= |env.order|
    ensures var before := Lookup(Replay(key, acc0, env, os[..k]).tree, x);
            Lookup(Replay(key, acc0, env, os[..k + 1]).tree, x) ==
            if env.order[k] == x then Changed(before, os[k].file, WriteTime(env, x))
            else if ConflictPath(env.order[k], env.stamp) == x && os[k].copy.Some?
            then Some(File(os[k].copy.value, WriteTime(env, x)))
            else before
  {
    assert os[..k + 1][..k] == os[..k];
    CopyIsElsewhere(env.order[k], env.stamp);
    ApplyFileAt(Replay(key, acc0, env, os[..k]).tree, env.order[k], os[k], env);
  }

  /** Step `k` does not write to `x`. */
  ghost predicate Passes(env: Env, os: seq<Outcome>, k: nat, x: Path)
    requires k < |os| <= |env.order|
  {
    && (env.order[k] == x ==> os[k].file == Keep)
    && (ConflictPath(env.order[k], env.stamp) == x ==> os[k].copy.None?)
  }

  lemma {:induction false} PassedBy(key: string, acc0: Acc, env: Env, os: seq<Outcome>, i: nat, j: nat, x: Path)
    requires i <= j <= |os| <= |env.order|
    requires forall k {:trigger Passes(env, os, k, x)} :: i <= k < j ==> Passes(env, os, k, x)
    ensures Lookup(Replay(key, acc0, env, os[..j]).tree, x) == Lookup(Replay(key, acc0, env, os[..i]).tree, x)
    decreases j
  {
    if i < j {
      PassedBy(key, acc0, env, os, i, j - 1, x);
      assert Passes(env, os, j - 1, x);
      StepAt(key, acc0, env, os, j - 1, x);
    }
  }

  lemma PassedToEnd(key: string, acc0: Acc, env: Env, os: seq<Outcome>, i: nat, x: Path)
    requires i <= |os| <= |env.order|
    requires forall k {:trigger Passes(env, os, k, x)} :: i <= k < |os| ==> Passes(env, os, k, x)
    ensures Lookup(Replay(key, acc0, env, os).tree, x) == Lookup(Replay(key, acc0, env, os[..i]).tree, x)
  {
    PassedBy(key, acc0, env, os, i, |os|, x);
    assert os[..|os|] == os;
  }

  /** `a` is processed after `b`. */
  ghost predicate After(order: seq<Path>, a: Path, b: Path) {
    exists i, j {:trigger order[i], order[j]} :: 0 <= i < j < |order| && order[i] == b && order[j] == a
  }

  /** After step `k` has copied onto `x`, no other step does. */
  lemma NoOtherCopy(env: Env, k: nat, x: Path)
    requires k < |env.order| && NoRepeats(env.order) && PlainStamp(env.stamp)
    requires ConflictPath(env.order[k], env.stamp) == x
    ensures env.order[k] != x
    ensures forall i :: 0 <= i < |env.order| && i != k ==> ConflictPath(env.order[i], env.stamp) != x
  {
    CopyIsElsewhere(env.order[k], env.stamp);
    forall i | 0 <= i < |env.order| && i != k ensures ConflictPath(env.order[i], env.stamp) != x {
      if ConflictPath(env.order[i], env.stamp) == x {
        ConflictPathInjective(env.order[i], env.order[k], env.stamp);
      }
    }
  }

  ghost function CopyFile(env: Env, o: Outcome, x: Path): Option<File>
    requires o.copy.Some?
  {
    Some(File(o.copy.value, WriteTime(env, x)))
  }

  /** Step `k` copies onto `x`, and `x` itself is not processed later: the copy stays. */
  lemma FinalCopy(key: string, acc0: Acc, env: Env, os: seq<Outcome>, k: nat, x: Path)
    requires k < |os| == |env.order| && NoRepeats(env.order) && PlainStamp(env.stamp)
    requires ConflictPath(env.order[k], env.stamp) == x && os[k].copy.Some?
    requires !After(env.order, x, env.order[k])
    ensures Lookup(Replay(key, acc0, env, os).tree, x) == CopyFile(env, os[k], x)
  {
    NoOtherCopy(env, k, x);
    forall i {:trigger Passes(env, os, i, x)} | k < i < |os| ensures Passes(env, os, i, x) {
      assert env.order[i] != x;
    }
    CopyUntil(key, acc0, env, os, k, |os|, x);
    assert os[..|os|] == os;
  }

  /** Step `k` copies onto `x`, and step `j` processes `x` later. */
  lemma FinalCopyThenOwn(key: string, acc0: Acc, env: Env, os: seq<Outcome>, k: nat, j: nat, x: Path)
    requires k < j < |os| == |env.order| && NoRepeats(env.order) && PlainStamp(env.stamp)
    requires ConflictPath(env.order[k], env.stamp) == x && os[k].copy.Some? && env.order[j] == x
    ensures Lookup(Replay(key, acc0, env, os).tree, x) ==
            Changed(CopyFile(env, os[k], x), os[j].file, WriteTime(env, x))
  {
    OnlyCopyAndOwn(env, os, k, j, x);
    PassedToEnd(key, acc0, env, os, j + 1, x);
    CopyUntil(key, acc0, env, os, k, j, x);
    StepAt(key, acc0, env, os, j, x);
  }

  lemma CopyUntil(key: string, acc0: Acc, env: Env, os: seq<Outcome>, k: nat, j: nat, x: Path)
    requires k < j <= |os| <= |env.order|
    requires ConflictPath(env.order[k], env.stamp) == x && os[k].copy.Some?
    requires forall i {:trigger Passes(env, os, i, x)} :: k < i < j ==> Passes(env, os, i, x)
    ensures Lookup(Replay(key, acc0, env, os[..j]).tree, x) == CopyFile(env, os[k], x)
  {
    CopyIsElsewhere(env.order[k], env.stamp);
    StepAt(key, acc0, env, os, k, x);
    PassedBy(key, acc0, env, os, k + 1, j, x);
  }

  lemma OnlyCopyAndOwn(env: Env, os: seq<Outcome>, k: nat, j: nat, x: Path)
    requires k < j < |os| == |env.order| && NoRepeats(env.order) && PlainStamp(env.stamp)
    requires ConflictPath(env.order[k], env.stamp) == x && env.order[j] == x
    ensures forall i {:trigger Passes(env, os, i, x)} :: 0 <= i < |os| && i != k && i != j ==> Passes(env, os, i, x)
    ensures ConflictPath(x, env.stamp) != x
  {
    NoOtherCopy(env, k, x);
    CopyIsElsewhere(x, env.stamp);
  }

  /** No step copies onto `x`: only its own step can change it. */
  lemma FinalWithoutCopy(key: string, acc0: Acc, env: Env, os: seq<Outcome>, x: Path)
    requires |os| == |env.order| && NoRepeats(env.order)
    requires forall k :: 0 <= k < |os| && ConflictPath(env.order[k], env.stamp) == x ==> os[k].copy.None?
    ensures var final := Lookup(Replay(key, acc0, env, os).tree, x);
            && (x !in env.order ==> final == Lookup(acc0.tree, x))
            && forall j :: 0 <= j < |os| && env.order[j] == x ==>
                 final == Changed(Lookup(acc0.tree, x), os[j].file, WriteTime(env, x))
  {
    assert os[..0] == [];
    if x !in env.order {
      PassedToEnd(key, acc0, env, os, 0, x);
    }
    forall j | 0 <= j < |os| && env.order[j] == x
      ensures Lookup(Replay(key, acc0, env, os).tree, x) ==
              Changed(Lookup(acc0.tree, x), os[j].file, WriteTime(env, x))
    {
      PassedBy(key, acc0, env, os, 0, j, x);
      StepAt(key, acc0, env, os, j, x);
      PassedToEnd(key, acc0, env, os, j + 1, x);
    }
  }

  // ---------------------------------------------------------------- the conditions, before the sync

  /** The content of `q` is copied to `x`: `q` is overtaken and the copy's write takes effect. */
  ghost predicate CopiedOnto(v: View, env: Env, q: Path, x: Path) {
    ConflictPath(q, env.stamp) == x && Overtaken(v, env, q) && TakesEffect(FaultFor(env, q), 1)
  }

  lemma CopyIff(key: string, q: Path, l: Option<File>, r: Option<Entry>, s: Option<Base>, got: Option<Blob>, env: Env)
    ensures var o := Decide(key, q, l, r, s, got, env);
            && (o.copy.Some? <==> Classify(l, r, s, env.now) == KeepBoth && TakesEffect(FaultFor(env, q), 1))
            && (o.copy.Some? ==> l.Some? && o.copy.value == l.value.data)
  {
    var plan := Classify(l, r, s, env.now);
    assert Applies(plan, l, r);
  }

  /** The step of an edited file writes to its own path only after its copy has been written. */
  lemma OwnStepKeeps(key: string, p: Path, l: File, r: Option<Entry>, s: Option<Base>, got: Option<Blob>, env: Env)
    requires s.None? || s.value.h != ContentHash(l.data)
    requires Classify(Some(l), r, s, env.now) != KeepBoth || !TakesEffect(FaultFor(env, p), 1)
    ensures Decide(key, p, Some(l), r, s, got, env).file == Keep
  {
    var plan := Classify(Some(l), r, s, env.now);
    assert plan in {InSync, Push, KeepBoth, PushOver};
  }

  /** Its own step leaves `content` at `x`, if `held` tells whether it was there before. */
  ghost predicate HoldsAfterOwn(v: View, env: Env, x: Path, held: bool, content: Content) {
    var f := FaultFor(env, x);
    match Classify(Lookup(v.locals, x), Lookup(v.remote, x), Lookup(v.saved, x), env.now)
    case Pull => if TakesEffect(f, 2) then v.remote[x].h == ContentHash(content) else held
    case KeepBoth =>
      if Succeeds(f, 1) && TakesEffect(f, 4) then v.remote[x].h == ContentHash(content) else held
    case DropLocal => !TakesEffect(f, 0) && held
    case _ => held
  }

  lemma OwnStepIff(v: View, x: Path, got: Option<Blob>, env: Env, before: Option<File>, content: Content)
    requires var r := Lookup(v.remote, x);
             r.Some? ==> got.Some? && got.value.Sealed? && ContentHash(got.value.plain) == r.value.h
    ensures var o := Decide(v.key, x, Lookup(v.locals, x), Lookup(v.remote, x), Lookup(v.saved, x), got, env);
            DataIs(Changed(before, o.file, WriteTime(env, x)), content) <==>
            HoldsAfterOwn(v, env, x, DataIs(before, content), content)
  {
    var plan := Classify(Lookup(v.locals, x), Lookup(v.remote, x), Lookup(v.saved, x), env.now);
    assert Applies(plan, Lookup(v.locals, x), Lookup(v.remote, x));
  }

  /**
   `content` is at `x` after the sync, told from what is there before it: if some file is copied onto `x`, its content
   counts, and the step of `x` only if it comes later; otherwise the old file and the step of `x`.
   */
  ghost predicate FinallyHolds(tree: Tree, v: View, env: Env, x: Path, content: Content) {
    if exists q :: q in env.order && CopiedOnto(v, env, q, x) then
      exists q :: q in env.order && CopiedOnto(v, env, q, x) &&
        var held := DataIs(Lookup(v.locals, q), content);
        if After(env.order, x, q) then HoldsAfterOwn(v, env, x, held, content) else held
    else HoldsAfterOwn(v, env, x, DataIs(Lookup(tree, x), content), content)
  }

  // ---------------------------------------------------------------- one sync

  /** What the loop did for a path, from its place in the order. */
  lemma OutcomeAt(dev: Device, blobs: Blobs, env: Env, k: nat) returns (got: Option<Blob>)
    requires Enumerates(env, ViewOf(dev, blobs, env)) && k < |env.order|
    ensures var v, p := ViewOf(dev, blobs, env), env.order[k];
            var r := Lookup(v.remote, p);
            && LoopOutcomes(dev, blobs, env)[k] ==
               Decide(v.key, p, Lookup(v.locals, p), r, Lookup(v.saved, p), got, env)
            && (r.Some? && r.value.b in blobs ==> got == Some(blobs[r.value.b]))
  {
    var o;
    o, got := PathResult(dev, blobs, env, env.order[k]);
  }

  lemma CopyAt(dev: Device, blobs: Blobs, env: Env, k: nat)
    requires Enumerates(env, ViewOf(dev, blobs, env)) && k < |env.order|
    ensures var v, p, o := ViewOf(dev, blobs, env), env.order[k], LoopOutcomes(dev, blobs, env)[k];
            && (o.copy.Some? <==> CopiedOnto(v, env, p, ConflictPath(p, env.stamp)))
            && (o.copy.Some? ==> Lookup(v.locals, p).Some? && o.copy.value == v.locals[p].data)
  {
    var got := OutcomeAt(dev, blobs, env, k);
    var v, p := ViewOf(dev, blobs, env), env.order[k];
    CopyIff(v.key, p, Lookup(v.locals, p), Lookup(v.remote, p), Lookup(v.saved, p), got, env);
  }

  /** The loop's own step for `x`, at place `j` of the order, leaves `content` there exactly as foretold. */
  lemma OwnStepAt(dev: Device, blobs: Blobs, env: Env, j: nat, before: Option<File>, content: Content)
    requires Enumerates(env, ViewOf(dev, blobs, env)) && j < |env.order|
    requires ContentAddressed(blobs) && EntriesStored(blobs, dev.key)
    ensures var v, x := ViewOf(dev, blobs, env), env.order[j];
            DataIs(Changed(before, LoopOutcomes(dev, blobs, env)[j].file, WriteTime(env, x)), content) <==>
            HoldsAfterOwn(v, env, x, DataIs(before, content), content)
  {
    var got := OutcomeAt(dev, blobs, env, j);
    OwnStepIff(ViewOf(dev, blobs, env), env.order[j], got, env, before, content);
  }

  lemma CopiedContentIff(dev: Device, blobs: Blobs, env: Env, q: Path, x: Path, content: Content)
    requires Enumerates(env, ViewOf(dev, blobs, env)) && PlainStamp(env.stamp)
    requires ContentAddressed(blobs) && EntriesStored(blobs, dev.key)
    requires CopiedOnto(ViewOf(dev, blobs, env), env, q, x)
    ensures var v := ViewOf(dev, blobs, env);
            var held := DataIs(Lookup(v.locals, q), content);
            DataIs(Lookup(LoopEnd(dev, blobs, env).tree, x), content) <==>
            if After(env.order, x, q) then HoldsAfterOwn(v, env, x, held, content) else held
  {
    var v, os := ViewOf(dev, blobs, env), LoopOutcomes(dev, blobs, env);
    var acc0 := Start(v, dev.tree, blobs);
    var k :| 0 <= k < |env.order| && env.order[k] == q;
    CopyAt(dev, blobs, env, k);
    if After(env.order, x, q) {
      var i, j :| 0 <= i < j < |env.order| && env.order[i] == q && env.order[j] == x;
      FinalCopyThenOwn(dev.key, acc0, env, os, k, j, x);
      OwnStepAt(dev, blobs, env, j, CopyFile(env, os[k], x), content);
    } else {
      FinalCopy(dev.key, acc0, env, os, k, x);
    }
  }

  lemma NothingCopied(dev: Device, blobs: Blobs, env: Env, x: Path)
    requires Enumerates(env, ViewOf(dev, blobs, env))
    requires forall q :: q in env.order ==> !CopiedOnto(ViewOf(dev, blobs, env), env, q, x)
    ensures forall k :: 0 <= k < |env.order| && ConflictPath(env.order[k], env.stamp) == x ==>
              LoopOutcomes(dev, blobs, env)[k].copy.None?
  {
    forall k | 0 <= k < |env.order| && ConflictPath(env.order[k], env.stamp) == x
      ensures LoopOutcomes(dev, blobs, env)[k].copy.None?
    {
      CopyAt(dev, blobs, env, k);
    }
  }

  lemma UncopiedContentIff(dev: Device, blobs: Blobs, env: Env, x: Path, content: Content)
    requires Enumerates(env, ViewOf(dev, blobs, env))
    requires ContentAddressed(blobs) && EntriesStored(blobs, dev.key)
    requires forall q :: q in env.order ==> !CopiedOnto(ViewOf(dev, blobs, env), env, q, x)
    ensures var v := ViewOf(dev, blobs, env);
            DataIs(Lookup(LoopEnd(dev, blobs, env).tree, x), content) <==>
            HoldsAfterOwn(v, env, x, DataIs(Lookup(dev.tree, x), content), content)
  {
    if x in env.order {
      var j :| 0 <= j < |env.order| && env.order[j] == x;
      UncopiedAt(dev, blobs, env, x);
      OwnStepAt(dev, blobs, env, j, Lookup(dev.tree, x), content);
    } else {
      UncopiedAt(dev, blobs, env, x);
      OwnStepUnknown(ViewOf(dev, blobs, env), env, x, DataIs(Lookup(dev.tree, x), content), content);
    }
  }

  /** Nothing is copied onto `x`: its own step decides, if it has one. */
  lemma UncopiedAt(dev: Device, blobs: Blobs, env: Env, x: Path)
    requires Enumerates(env, ViewOf(dev, blobs, env))
    requires forall q :: q in env.order ==> !CopiedOnto(ViewOf(dev, blobs, env), env, q, x)
    ensures var before, final := Lookup(dev.tree, x), Lookup(LoopEnd(dev, blobs, env).tree, x);
            && (x !in env.order ==> final == before)
            && forall j :: 0 <= j < |env.order| && env.order[j] == x ==>
                 final == Changed(before, LoopOutcomes(dev, blobs, env)[j].file, WriteTime(env, x))
  {
    NothingCopied(dev, blobs, env, x);
    FinalWithoutCopy(dev.key, Start(ViewOf(dev, blobs, env), dev.tree, blobs), env, LoopOutcomes(dev, blobs, env), x);
  }

  /** A path that is neither walked nor in the manifest has no step. */
  lemma OwnStepUnknown(v: View, env: Env, x: Path, held: bool, content: Content)
    requires x !in v.remote
    ensures HoldsAfterOwn(v, env, x, held, content) <==> held
  {
  }

  /**
   Under whatever names, faults and aborts: a content is under a path after a sync exactly if `FinallyHolds` says so
   before it.
   */
  lemma ContentAfterIff(dev: Device, blobs: Blobs, env: Env, x: Path, content: Content)
    requires Enumerates(env, ViewOf(dev, blobs, env)) && PlainStamp(env.stamp)
    requires ContentAddressed(blobs) && EntriesStored(blobs, dev.key)
    ensures DataIs(Lookup(Sync(dev, blobs, env).device.tree, x), content) <==>
            FinallyHolds(dev.tree, ViewOf(dev, blobs, env), env, x, content)
  {
    if q :| q in env.order && CopiedOnto(ViewOf(dev, blobs, env), env, q, x) {
      CopiedContentIff(dev, blobs, env, q, x, content);
      CopyDecides(dev.tree, ViewOf(dev, blobs, env), env, q, x, content);
    } else {
      UncopiedContentIff(dev, blobs, env, x, content);
    }
    TreeAfter(dev, blobs, env);
  }

  lemma CopyDecides(tree: Tree, v: View, env: Env, q: Path, x: Path, content: Content)
    requires PlainStamp(env.stamp) && q in env.order && CopiedOnto(v, env, q, x)
    ensures var held := DataIs(Lookup(v.locals, q), content);
            FinallyHolds(tree, v, env, x, content) <==>
            if After(env.order, x, q) then HoldsAfterOwn(v, env, x, held, content) else held
  {
    OneCopy(v, env, q, x);
  }

  lemma OneCopy(v: View, env: Env, q: Path, x: Path)
    requires PlainStamp(env.stamp) && CopiedOnto(v, env, q, x)
    ensures forall p :: CopiedOnto(v, env, p, x) ==> p == q
  {
    forall p | CopiedOnto(v, env, p, x) ensures p == q {
      ConflictPathInjective(p, q, env.stamp);
    }
  }

  /** An edited file's content is kept, at its path or at its conflict copy, exactly in the cases foretold. */
  lemma EditKeptIff(dev: Device, blobs: Blobs, env: Env, p: Path)
    requires Enumerates(env, ViewOf(dev, blobs, env)) && PlainStamp(env.stamp)
    requires ContentAddressed(blobs) && EntriesStored(blobs, dev.key) && p in dev.tree
    ensures var v, content := ViewOf(dev, blobs, env), dev.tree[p].data;
            Kept(Sync(dev, blobs, env).device.tree, p, env.stamp, content) <==>
            || FinallyHolds(dev.tree, v, env, p, content)
            || FinallyHolds(dev.tree, v, env, ConflictPath(p, env.stamp), content)
  {
    ContentAfterIff(dev, blobs, env, p, dev.tree[p].data);
    ContentAfterIff(dev, blobs, env, ConflictPath(p, env.stamp), dev.tree[p].data);
  }

  // ---------------------------------------------------------------- recorded bases

  lemma DataIsHash(f: Option<File>, content: Content)
    ensures DataIs(f, content) <==> HashOf(f) == Some(ContentHash(content))
  {
  }

  /**
   Whatever failed and whatever names are in use: a state entry of a sync matches the manifest, and the local file
   exactly if the content it stands for is under the path in the end, as it is when no copy name is in use.
   */
  lemma BasesMatchBothSidesIff(dev: Device, blobs: Blobs, env: Env, p: Path)
    requires Enumerates(env, ViewOf(dev, blobs, env)) && PlainStamp(env.stamp)
    requires ContentAddressed(blobs) && EntriesStored(blobs, dev.key)
    requires p in LoopEnd(dev, blobs, env).bases
    ensures var end := LoopEnd(dev, blobs, env);
            && p in end.files && !end.files[p].d && BaseOf(end.files[p]) == end.bases[p]
            && end.bases[p].h.ContentHash?
            && (LocalHash(end.tree, p) == Some(end.bases[p].h) <==>
                FinallyHolds(dev.tree, ViewOf(dev, blobs, env), env, p, end.bases[p].h.content))
    ensures Orderly(env) ==> LocalHash(LoopEnd(dev, blobs, env).tree, p) == Some(LoopEnd(dev, blobs, env).bases[p].h)
  {
    var v, end := ViewOf(dev, blobs, env), LoopEnd(dev, blobs, env);
    if p !in env.order {
      PathUntouched(dev, blobs, env, p);
    }
    var o, got := PathResult(dev, blobs, env, p);
    assert p in v.locals ==> v.locals[p] == dev.tree[p];
    BaseRecorded(v.key, p, Lookup(v.locals, p), Lookup(v.remote, p), Lookup(v.saved, p), got, env);
    ContentAfterIff(dev, blobs, env, p, end.bases[p].h.content);
    TreeAfter(dev, blobs, env);
    DataIsHash(Lookup(end.tree, p), end.bases[p].h.content);
  }

  // ---------------------------------------------------------------- edits

  /** A file the walk read that differs from its base or has none. */
  ghost predicate Edited(dev: Device, env: Env, p: Path) {
    && p in dev.tree && p !in env.skipped
    && (p in dev.bases ==> dev.bases[p].h != ContentHash(dev.tree[p].data))
  }

  /** Whatever is copied onto `x` has `content`. */
  ghost predicate OnlyCopied(v: View, env: Env, x: Path, content: Content) {
    forall q :: q in env.order && CopiedOnto(v, env, q, x) ==> DataIs(Lookup(v.locals, q), content)
  }

  lemma OnlyCopiedIff(v: View, env: Env, q: Path, x: Path, content: Content)
    requires PlainStamp(env.stamp) && q in env.order && CopiedOnto(v, env, q, x)
    ensures OnlyCopied(v, env, x, content) <==> DataIs(Lookup(v.locals, q), content)
  {
    OneCopy(v, env, q, x);
  }

  lemma TreeAfter(dev: Device, blobs: Blobs, env: Env)
    ensures Sync(dev, blobs, env).device.tree == LoopEnd(dev, blobs, env).tree
  {
  }

  /**
   An edited file that is not itself copied stays at its path exactly if no other content is copied onto it. What the
   relay holds does not matter.
   */
  lemma EditStaysIff(dev: Device, blobs: Blobs, env: Env, p: Path)
    requires Enumerates(env, ViewOf(dev, blobs, env)) && PlainStamp(env.stamp) && Edited(dev, env, p)
    requires !CopiedOnto(ViewOf(dev, blobs, env), env, p, ConflictPath(p, env.stamp))
    ensures DataIs(Lookup(Sync(dev, blobs, env).device.tree, p), dev.tree[p].data) <==>
            OnlyCopied(ViewOf(dev, blobs, env), env, p, dev.tree[p].data)
  {
    var j := EditedIsVisited(dev, blobs, env, p);
    EditedStepKeeps(dev, blobs, env, j);
    if q :| q in env.order && CopiedOnto(ViewOf(dev, blobs, env), env, q, p) {
      EditOverwrittenBy(dev, blobs, env, j, q, dev.tree[p].data);
      OnlyCopiedIff(ViewOf(dev, blobs, env), env, q, p, dev.tree[p].data);
    } else {
      UncopiedAt(dev, blobs, env, p);
    }
    TreeAfter(dev, blobs, env);
  }

  lemma EditedIsVisited(dev: Device, blobs: Blobs, env: Env, p: Path) returns (j: nat)
    requires Enumerates(env, ViewOf(dev, blobs, env)) && Edited(dev, env, p)
    ensures j < |env.order| && env.order[j] == p
  {
    assert p in ViewOf(dev, blobs, env).locals;
    j :| 0 <= j < |env.order| && env.order[j] == p;
  }

  lemma EditedStepKeeps(dev: Device, blobs: Blobs, env: Env, j: nat)
    requires Enumerates(env, ViewOf(dev, blobs, env)) && j < |env.order| && Edited(dev, env, env.order[j])
    requires !CopiedOnto(ViewOf(dev, blobs, env), env, env.order[j], ConflictPath(env.order[j], env.stamp))
    ensures LoopOutcomes(dev, blobs, env)[j].file == Keep
  {
    var v, p := ViewOf(dev, blobs, env), env.order[j];
    var got := OutcomeAt(dev, blobs, env, j);
    assert Lookup(v.locals, p) == Some(dev.tree[p]);
    OwnStepKeeps(v.key, p, dev.tree[p], Lookup(v.remote, p), Lookup(v.saved, p), got, env);
  }

  lemma EditOverwrittenBy(dev: Device, blobs: Blobs, env: Env, j: nat, q: Path, content: Content)
    requires Enumerates(env, ViewOf(dev, blobs, env)) && PlainStamp(env.stamp) && j < |env.order|
    requires CopiedOnto(ViewOf(dev, blobs, env), env, q, env.order[j])
    requires LoopOutcomes(dev, blobs, env)[j].file == Keep
    ensures DataIs(Lookup(LoopEnd(dev, blobs, env).tree, env.order[j]), content) <==>
            DataIs(Lookup(ViewOf(dev, blobs, env).locals, q), content)
  {
    var v, os, p := ViewOf(dev, blobs, env), LoopOutcomes(dev, blobs, env), env.order[j];
    var acc0 := Start(v, dev.tree, blobs);
    var k :| 0 <= k < |env.order| && env.order[k] == q;
    CopyAt(dev, blobs, env, k);
    CopyIsElsewhere(q, env.stamp);
    if After(env.order, p, q) {
      assert k < j;
      FinalCopyThenOwn(dev.key, acc0, env, os, k, j, p);
    } else {
      FinalCopy(dev.key, acc0, env, os, k, p);
    }
  }

  /**
   The copy of an overtaken file stays exactly if the path of the copy is not processed after the file, or its step
   leaves the same content there.
   */
  lemma CopyStaysIff(dev: Device, blobs: Blobs, env: Env, p: Path)
    requires Enumerates(env, ViewOf(dev, blobs, env)) && PlainStamp(env.stamp)
    requires ContentAddressed(blobs) && EntriesStored(blobs, dev.key)
    requires CopiedOnto(ViewOf(dev, blobs, env), env, p, ConflictPath(p, env.stamp))
    ensures var copy := ConflictPath(p, env.stamp);
            DataIs(Lookup(Sync(dev, blobs, env).device.tree, copy), dev.tree[p].data) <==>
            !After(env.order, copy, p) || HoldsAfterOwn(ViewOf(dev, blobs, env), env, copy, true, dev.tree[p].data)
  {
    assert Lookup(ViewOf(dev, blobs, env).locals, p) == Some(dev.tree[p]);
    CopiedContentIff(dev, blobs, env, p, ConflictPath(p, env.stamp), dev.tree[p].data);
    TreeAfter(dev, blobs, env);
  }

  /** Two new files `p` and `q`, where `p` has the name of the conflict copy of `q`, and `q` is overtaken. */
  lemma CopyNameInUse(stamp: string) returns (dev: Device, blobs: Blobs, env: Env, p: Path, q: Path)
    ensures env.stamp == stamp && Enumerates(env, ViewOf(dev, blobs, env)) && env.faults == map[]
    ensures ContentAddressed(blobs) && EntriesStored(blobs, dev.key)
    ensures env.order == [p, q] && p in dev.tree && q in dev.tree && dev.bases == map[] && env.skipped == {}
    ensures p == ConflictPath(q, stamp) && ConflictPath(p, stamp) !in dev.tree
    ensures dev.tree[p].data != dev.tree[q].data
    ensures Overtaken(ViewOf(dev, blobs, env), env, q) && !Overtaken(ViewOf(dev, blobs, env), env, p)
  {
    q := "a";
    p := ConflictPath(q, stamp);
    var mine, other, theirs := Raw([1]), Raw([2]), Raw([3]);
    var entry := Entry(ContentHash(theirs), 5, FileBlobId("k", q, ContentHash(theirs)), false);
    dev := Device("k", map[p := File(other, 1), q := File(mine, 1)], map[]);
    blobs := map[ManifestId("k") := Sealed(ManifestJson(0, map[q := entry])), entry.b := Sealed(theirs)];
    env := Env(9, stamp, [p, q], {}, map[], map[], {}, Finishes);
    CopyIsElsewhere(q, stamp);
    CopyIsElsewhere(p, stamp);
    var v := ViewOf(dev, blobs, env);
    assert v.locals == dev.tree && v.remote == map[q := entry];
    assert Classify(Lookup(v.locals, q), Lookup(v.remote, q), None, 9) == KeepBoth;
    assert Classify(Lookup(v.locals, p), None, None, 9) == Push;
  }

  /** For every plain stamp: a new file has the name of the copy of another file and is lost. */
  lemma UsedCopyNameLosesEdit(stamp: string) returns (dev: Device, blobs: Blobs, env: Env, p: Path)
    requires PlainStamp(stamp)
    ensures env.stamp == stamp && Enumerates(env, ViewOf(dev, blobs, env)) && env.faults == map[]
    ensures ContentAddressed(blobs) && EntriesStored(blobs, dev.key)
    ensures p in dev.tree && p !in dev.bases && p !in env.skipped
    ensures !Kept(Sync(dev, blobs, env).device.tree, p, stamp, dev.tree[p].data)
  {
    var q;
    dev, blobs, env, p, q := CopyNameInUse(stamp);
    EditGone(dev, blobs, env, p, q);
    NobodyCopies(dev, blobs, env, p, q);
    NowhereKept(Sync(dev, blobs, env).device.tree, p, stamp, dev.tree[p].data);
  }

  lemma EditGone(dev: Device, blobs: Blobs, env: Env, p: Path, q: Path)
    requires Enumerates(env, ViewOf(dev, blobs, env)) && env.faults == map[] && PlainStamp(env.stamp)
    requires Edited(dev, env, p) && !Overtaken(ViewOf(dev, blobs, env), env, p)
    requires Overtaken(ViewOf(dev, blobs, env), env, q)
    requires p == ConflictPath(q, env.stamp) && dev.tree[p].data != dev.tree[q].data
    ensures !DataIs(Lookup(Sync(dev, blobs, env).device.tree, p), dev.tree[p].data)
  {
    assert ViewOf(dev, blobs, env).locals[q] == dev.tree[q];
    OtherIsCopied(ViewOf(dev, blobs, env), env, q, p, dev.tree[p].data);
    EditStaysIff(dev, blobs, env, p);
  }

  lemma NowhereKept(tree: Tree, p: Path, stamp: string, content: Content)
    requires !DataIs(Lookup(tree, p), content) && ConflictPath(p, stamp) !in tree
    ensures !Kept(tree, p, stamp, content)
  {
  }

  lemma OtherIsCopied(v: View, env: Env, q: Path, p: Path, content: Content)
    requires env.faults == map[] && q in env.order && Overtaken(v, env, q) && p == ConflictPath(q, env.stamp)
    requires PlainStamp(env.stamp) && v.locals[q].data != content
    ensures !OnlyCopied(v, env, p, content)
  {
    OnlyCopiedIff(v, env, q, p, content);
  }

  /** Of two paths, `p` is not overtaken and `q` copies onto `p`: nothing is at the copy name of `p`. */
  lemma NobodyCopies(dev: Device, blobs: Blobs, env: Env, p: Path, q: Path)
    requires Enumerates(env, ViewOf(dev, blobs, env)) && env.order == [p, q] && ConflictPath(q, env.stamp) == p
    requires !Overtaken(ViewOf(dev, blobs, env), env, p) && ConflictPath(p, env.stamp) !in dev.tree
    ensures ConflictPath(p, env.stamp) !in Sync(dev, blobs, env).device.tree
  {
    var x := ConflictPath(p, env.stamp);
    CopyIsElsewhere(p, env.stamp);
    CopyIsElsewhere(q, env.stamp);
    UncopiedAt(dev, blobs, env, x);
    TreeAfter(dev, blobs, env);
  }

  /** For every plain stamp: a new file is uploaded and its base recorded, and then a copy overwrites it. */
  lemma UsedCopyNameSpoilsBase(stamp: string) returns (dev: Device, blobs: Blobs, env: Env, p: Path)
    requires PlainStamp(stamp)
    ensures env.stamp == stamp && Enumerates(env, ViewOf(dev, blobs, env)) && env.faults == map[]
    ensures ContentAddressed(blobs) && EntriesStored(blobs, dev.key)
    ensures p in LoopEnd(dev, blobs, env).bases
    ensures LocalHash(LoopEnd(dev, blobs, env).tree, p) != Some(LoopEnd(dev, blobs, env).bases[p].h)
  {
    var q;
    dev, blobs, env, p, q := CopyNameInUse(stamp);
    EditGone(dev, blobs, env, p, q);
    TreeAfter(dev, blobs, env);
    DataIsHash(Lookup(LoopEnd(dev, blobs, env).tree, p), dev.tree[p].data);
    EditRecorded(dev, blobs, env, p);
  }

  /** An edited file that is not overtaken has its own hash as base when nothing fails. */
  lemma EditRecorded(dev: Device, blobs: Blobs, env: Env, p: Path)
    requires Enumerates(env, ViewOf(dev, blobs, env)) && env.faults == map[]
    requires Edited(dev, env, p) && !Overtaken(ViewOf(dev, blobs, env), env, p)
    ensures BaseHash(LoopEnd(dev, blobs, env).bases, p) == Some(ContentHash(dev.tree[p].data))
  {
    var o, got := PathResult(dev, blobs, env, p);
    var v := ViewOf(dev, blobs, env);
    assert Lookup(v.locals, p) == Some(dev.tree[p]) && FaultFor(env, p) == NoFault;
    var plan := Classify(Lookup(v.locals, p), Lookup(v.remote, p), Lookup(v.saved, p), env.now);
    assert plan in {InSync, Push, PushOver};
  }
}
