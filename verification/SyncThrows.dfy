/**
 Every sync is possible on every storage: wherever the storage is in the way, a call throws that might have gone
 through otherwise.
 */
module SyncThrows {
  import opened Options
  import opened ConflictNames
  import opened SyncModel
  import opened SyncStorage

  /** The call throws at the latest. */
  function ThrowsBy(f: Fault, op: nat): Fault {
    if TakesEffect(f, op) then FailsAt(op, false) else f
  }

  /** The fault of a step, given the one it has for other reasons: the storage throws at the first call it refuses. */
  ghost function Thrown(tree: Tree, dirs: set<Path>, rel: Path, plan: Plan, stamp: string, f: Fault): Fault {
    match plan
    case Pull =>
      if FileAbove(tree, rel) then ThrowsBy(f, 1) else if rel in dirs then ThrowsBy(f, 2) else f
    case KeepBoth =>
      if FileAbove(tree, rel) then ThrowsBy(f, 0)
      else if ConflictPath(rel, stamp) in dirs then ThrowsBy(f, 1)
      else if rel in dirs then ThrowsBy(f, 4)
      else f
    case _ => f
  }

  lemma ThrownIsAllowed(tree: Tree, dirs: set<Path>, key: string, rel: Path, l: Option<File>, r: Option<Entry>,
                        s: Option<Base>, got: Option<Blob>, env: Env, f: Fault)
    requires FaultFor(env, rel) == Thrown(tree, dirs, rel, Classify(l, r, s, env.now), env.stamp, f)
    ensures Allowed(tree, dirs, rel, Classify(l, r, s, env.now), got, Decide(key, rel, l, r, s, got, env), env)
  {
    var plan := Classify(l, r, s, env.now);
    assert Applies(plan, l, r);
  }

  // ---------------------------------------------------------------- what the first steps depend on

  /** The two differ in nothing but faults of paths after the first `n`. */
  ghost predicate SameUpTo(e1: Env, e2: Env, n: nat) {
    && n <= |e1.order| && e2 == e1.(faults := e2.faults)
    && forall k :: 0 <= k < n ==> FaultFor(e1, e1.order[k]) == FaultFor(e2, e1.order[k])
  }

  lemma SameDecision(key: string, rel: Path, l: Option<File>, r: Option<Entry>, s: Option<Base>, got: Option<Blob>,
                     e1: Env, e2: Env)
    requires e1.now == e2.now && FaultFor(e1, rel) == FaultFor(e2, rel)
    ensures Decide(key, rel, l, r, s, got, e1) == Decide(key, rel, l, r, s, got, e2)
  {
    var plan := Classify(l, r, s, e1.now);
    assert Applies(plan, l, r);
  }

  lemma {:induction false} SameReplay(key: string, acc0: Acc, e1: Env, e2: Env, os: seq<Outcome>)
    requires SameUpTo(e1, e2, 0) && |os| <= |e1.order|
    ensures Replay(key, acc0, e1, os) == Replay(key, acc0, e2, os)
  {
    if os != [] {
      SameReplay(key, acc0, e1, e2, os[..|os| - 1]);
    }
  }

  lemma {:induction false} SameOutcomes(v: View, acc0: Acc, e1: Env, e2: Env, n: nat)
    requires SameUpTo(e1, e2, n)
    ensures Outcomes(v.key, Decider(v, e1), acc0, e1, n) == Outcomes(v.key, Decider(v, e2), acc0, e2, n)
  {
    if n > 0 {
      var m := n - 1;
      SameOutcomes(v, acc0, e1, e2, m);
      var os := Outcomes(v.key, Decider(v, e1), acc0, e1, m);
      SameReplay(v.key, acc0, e1, e2, os);
      SameDecider(v, Replay(v.key, acc0, e1, os), e1.order[m], e1, e2);
    }
  }

  lemma SameDecider(v: View, here: Acc, p: Path, e1: Env, e2: Env)
    requires e1.now == e2.now && FaultFor(e1, p) == FaultFor(e2, p)
    ensures Decider(v, e1)(here, p) == Decider(v, e2)(here, p)
  {
    var r := Lookup(v.remote, p);
    var got := if r.Some? then Lookup(here.blobs, r.value.b) else None;
    SameDecision(v.key, p, Lookup(v.locals, p), r, Lookup(v.saved, p), got, e1, e2);
  }

  lemma {:induction false} FirstOutcomes(key: string, decide: (Acc, Path) -> Outcome, acc0: Acc, env: Env, n: nat,
                                         k: nat)
    requires k <= n <= |env.order|
    ensures Outcomes(key, decide, acc0, env, n)[..k] == Outcomes(key, decide, acc0, env, k)
    decreases n
  {
    if k < n {
      var os := Outcomes(key, decide, acc0, env, n);
      FirstOutcomes(key, decide, acc0, env, n - 1, k);
      assert os[..k] == os[..n - 1][..k];
    }
  }

  lemma SameBefore(dev: Device, blobs: Blobs, e1: Env, e2: Env, n: nat, k: nat)
    requires SameUpTo(e1, e2, n) && k <= n
    ensures AccBefore(dev, blobs, e1, k) == AccBefore(dev, blobs, e2, k)
  {
    var v := ViewOf(dev, blobs, e1);
    var acc0 := Start(v, dev.tree, blobs);
    FirstOutcomes(dev.key, Decider(v, e1), acc0, e1, |e1.order|, k);
    FirstOutcomes(dev.key, Decider(v, e2), acc0, e2, |e1.order|, k);
    SameOutcomes(v, acc0, e1, e2, k);
    SameReplay(dev.key, acc0, e1, e2, LoopOutcomes(dev, blobs, e1)[..k]);
  }

  lemma {:induction false} SameDirsBefore(dev: Device, dirs: set<Path>, blobs: Blobs, e1: Env, e2: Env, n: nat, k: nat)
    requires SameUpTo(e1, e2, n) && k <= n
    ensures DirsBefore(dev, dirs, blobs, e1, k) == DirsBefore(dev, dirs, blobs, e2, k)
  {
    if k > 0 {
      var m := k - 1;
      SameDirsBefore(dev, dirs, blobs, e1, e2, n, m);
      DirsMade(dev, dirs, blobs, e1, m);
      DirsMade(dev, dirs, blobs, e2, m);
      SameMade(dev, blobs, e1, e2, n, m);
    }
  }

  /** The directories one step makes. */
  ghost function MadeBy(dev: Device, blobs: Blobs, env: Env, k: nat): set<Path>
    requires k < |env.order|
  {
    var p := env.order[k];
    Made(PlanFor(ViewOf(dev, blobs, env), env, p), p, GotBefore(dev, blobs, env, k), FaultFor(env, p))
  }

  lemma DirsMade(dev: Device, dirs: set<Path>, blobs: Blobs, env: Env, k: nat)
    requires k < |env.order|
    ensures DirsBefore(dev, dirs, blobs, env, k + 1) ==
            DirsBefore(dev, dirs, blobs, env, k) + MadeBy(dev, blobs, env, k)
  {
  }

  lemma SameMade(dev: Device, blobs: Blobs, e1: Env, e2: Env, n: nat, k: nat)
    requires SameUpTo(e1, e2, n) && k < n
    ensures MadeBy(dev, blobs, e1, k) == MadeBy(dev, blobs, e2, k)
  {
    SameBefore(dev, blobs, e1, e2, n, k);
  }

  // ---------------------------------------------------------------- every sync is possible

  /** What the storage makes of the fault that the path at `k` has in `outside`. */
  ghost function ThrownAt(dev: Device, dirs: set<Path>, blobs: Blobs, env: Env, outside: Env, k: nat): Fault
    requires k < |env.order|
  {
    var p := env.order[k];
    Thrown(AccBefore(dev, blobs, env, k).tree, DirsBefore(dev, dirs, blobs, env, k), p,
           PlanFor(ViewOf(dev, blobs, env), env, p), env.stamp, FaultFor(outside, p))
  }

  ghost predicate StorageThrows(dev: Device, dirs: set<Path>, blobs: Blobs, env: Env, outside: Env, k: nat)
    requires k < |env.order|
  {
    FaultFor(env, env.order[k]) == ThrownAt(dev, dirs, blobs, env, outside, k)
  }

  lemma SameThrown(dev: Device, dirs: set<Path>, blobs: Blobs, e1: Env, e2: Env, outside: Env, n: nat, k: nat)
    requires SameUpTo(e1, e2, n) && k <= n && k < |e1.order|
    ensures ThrownAt(dev, dirs, blobs, e1, outside, k) == ThrownAt(dev, dirs, blobs, e2, outside, k)
  {
    SameBefore(dev, blobs, e1, e2, n, k);
    SameDirsBefore(dev, dirs, blobs, e1, e2, n, k);
  }

  /** The storage has thrown for the first `n` paths; the others have their faults from outside. */
  ghost predicate ThrownUpTo(dev: Device, dirs: set<Path>, blobs: Blobs, env: Env, outside: Env, n: nat) {
    && n <= |outside.order| && env == outside.(faults := env.faults)
    && (forall k :: 0 <= k < n ==> StorageThrows(dev, dirs, blobs, env, outside, k))
    && forall k :: n <= k < |outside.order| ==> FaultFor(env, outside.order[k]) == FaultFor(outside, outside.order[k])
  }

  lemma OneMoreFault(dev: Device, dirs: set<Path>, blobs: Blobs, before: Env, outside: Env, m: nat)
      returns (env: Env)
    requires NoRepeats(outside.order) && m < |outside.order| && ThrownUpTo(dev, dirs, blobs, before, outside, m)
    ensures ThrownUpTo(dev, dirs, blobs, env, outside, m + 1)
  {
    var fault := ThrownAt(dev, dirs, blobs, before, outside, m);
    env := outside.(faults := before.faults[outside.order[m] := fault]);
    assert forall k :: 0 <= k < |outside.order| && k != m ==>
        FaultFor(env, outside.order[k]) == FaultFor(before, outside.order[k]);
    forall k | 0 <= k < m + 1 ensures StorageThrows(dev, dirs, blobs, env, outside, k) {
      assert k < m ==> StorageThrows(dev, dirs, blobs, before, outside, k);
      SameThrown(dev, dirs, blobs, before, env, outside, m, k);
    }
  }

  lemma {:induction false} FirstFaults(dev: Device, dirs: set<Path>, blobs: Blobs, outside: Env, n: nat)
      returns (env: Env)
    requires NoRepeats(outside.order) && n <= |outside.order|
    ensures ThrownUpTo(dev, dirs, blobs, env, outside, n)
  {
    if n == 0 {
      env := outside;
    } else {
      var before := FirstFaults(dev, dirs, blobs, outside, n - 1);
      env := OneMoreFault(dev, dirs, blobs, before, outside, n - 1);
    }
  }

  /**
   Whatever fails for other reasons, there is a run that the storage allows: it throws where it is in the way, and no
   other fault changes.
   */
  lemma EverySyncIsPossible(dev: Device, dirs: set<Path>, blobs: Blobs, outside: Env) returns (env: Env)
    requires NoRepeats(outside.order)
    ensures env == outside.(faults := env.faults) && Possible(dev, dirs, blobs, env)
    ensures forall k :: 0 <= k < |env.order| ==> StorageThrows(dev, dirs, blobs, env, outside, k)
  {
    env := FirstFaults(dev, dirs, blobs, outside, |outside.order|);
    forall k | 0 <= k < |env.order| ensures StepAllowed(dev, dirs, blobs, env, k) {
      var v, p := ViewOf(dev, blobs, env), env.order[k];
      assert StorageThrows(dev, dirs, blobs, env, outside, k);
      StepIs(dev, blobs, env, k);
      ThrownIsAllowed(AccBefore(dev, blobs, env, k).tree, DirsBefore(dev, dirs, blobs, env, k), dev.key, p,
                      Lookup(v.locals, p), Lookup(v.remote, p), Lookup(v.saved, p), GotBefore(dev, blobs, env, k), env,
                      FaultFor(outside, p));
    }
  }
}
