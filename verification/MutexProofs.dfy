/** Mutual exclusion, call order, progress and absence of leaks for the keyed lock, over all interleavings. */
module MutexProofs {
  import opened MutexModel

  ghost predicate Shares(a: Operation, b: Operation) {
    exists k :: k in a.keys && k in b.keys
  }

  /** Operation `i` is the last one before `j` that uses key `k`. */
  ghost predicate LastBefore(ops: seq<Operation>, k: string, i: int, j: int) {
    && 0 <= i < j <= |ops| && k in ops[i].keys
    && forall m :: i < m < j ==> k !in ops[m].keys
  }

  /** A chain entry holds the tail of the last operation on its key, until that one is cleaned up. */
  ghost predicate ChainsCurrent(s: State) {
    && (forall k :: k in s.chains ==> LastBefore(s.ops, k, s.chains[k], |s.ops|) && !s.ops[s.chains[k]].phase.Cleaned?)
    && (forall k, i :: LastBefore(s.ops, k, i, |s.ops|) && !s.ops[i].phase.Cleaned? ==>
        k in s.chains && s.chains[k] == i)
  }

  /** An operation waits for the last earlier user of each of its keys, unless that one was done already. */
  ghost predicate WaitsForPredecessors(s: State) {
    forall j, k, i :: 0 <= j < |s.ops| && k in s.ops[j].keys && LastBefore(s.ops, k, i, j) ==>
      i in s.ops[j].prior || TailSettled(s.ops[i])
  }

  /** Operations wait only for earlier ones that share a key with them. */
  ghost predicate WaitsForEarlier(s: State) {
    forall j, q :: 0 <= j < |s.ops| && 0 <= q < |s.ops[j].prior| ==>
      s.ops[j].prior[q] < j && Shares(s.ops[s.ops[j].prior[q]], s.ops[j])
  }

  /** When an operation has started, every earlier one that shares a key with it is done. */
  ghost predicate InCallOrder(s: State) {
    forall i, j :: 0 <= i < j < |s.ops| && Started(s.ops[j]) && Shares(s.ops[i], s.ops[j]) ==> TailSettled(s.ops[i])
  }

  /** No tail is ever rejected, whatever the callbacks did. */
  ghost predicate TailsFulfilled(s: State) {
    forall i :: 0 <= i < |s.ops| ==> !s.ops[i].tailRejected
  }

  ghost predicate Inv(s: State) {
    TailsFulfilled(s) && ChainsCurrent(s) && WaitsForPredecessors(s) && WaitsForEarlier(s) && InCallOrder(s)
  }

  // ---------------------------------------------------------------- the three loops over the keys

  lemma {:induction false} PriorTailsContents(chains: map<string, nat>, keys: seq<string>)
    ensures forall i :: i in PriorTails(chains, keys) <==> exists k :: k in keys && k in chains && chains[k] == i
  {
    if keys != [] {
      var n := |keys| - 1;
      PriorTailsContents(chains, keys[..n]);
      assert keys == keys[..n] + [keys[n]];
    }
  }

  lemma {:induction false} SetAllContents(chains: map<string, nat>, keys: seq<string>, tail: nat)
    ensures var c := SetAll(chains, keys, tail);
            forall k :: if k in keys then k in c && c[k] == tail
                        else (k in c <==> k in chains) && (k in c ==> c[k] == chains[k])
  {
    if keys != [] {
      var n := |keys| - 1;
      SetAllContents(chains, keys[..n], tail);
      assert keys == keys[..n] + [keys[n]];
    }
  }

  lemma {:induction false} DropOwnContents(chains: map<string, nat>, keys: seq<string>, tail: nat)
    ensures var c := DropOwn(chains, keys, tail);
            && (forall k :: k in c <==> k in chains && !(k in keys && chains[k] == tail))
            && (forall k :: k in c ==> c[k] == chains[k])
  {
    if keys != [] {
      var n := |keys| - 1;
      DropOwnContents(chains, keys[..n], tail);
      assert keys == keys[..n] + [keys[n]];
    }
  }

  // ---------------------------------------------------------------- the invariant

  /** The last earlier user of a key, found by going back from `j`. */
  lemma {:induction false} FindLast(ops: seq<Operation>, k: string, i: int, j: int) returns (last: int)
    requires 0 <= i < j <= |ops| && k in ops[i].keys
    ensures i <= last && LastBefore(ops, k, last, j)
    decreases j
  {
    if k in ops[j - 1].keys {
      last := j - 1;
    } else {
      last := FindLast(ops, k, i, j - 1);
    }
  }

  lemma LastBeforeGrows(ops: seq<Operation>, o: Operation, k: string, i: int, j: int)
    requires j <= |ops|
    ensures LastBefore(ops + [o], k, i, j) <==> LastBefore(ops, k, i, j)
  {
    if 0 <= i < j {
      assert (ops + [o])[i] == ops[i];
      if LastBefore(ops + [o], k, i, j) {
        forall m | i < m < j ensures k !in ops[m].keys {
          assert (ops + [o])[m] == ops[m];
        }
      }
    }
  }

  lemma LastBeforeEnd(ops: seq<Operation>, o: Operation, k: string, i: int)
    ensures LastBefore(ops + [o], k, i, |ops| + 1) <==>
            if k in o.keys then i == |ops| else LastBefore(ops, k, i, |ops|)
  {
    var next := ops + [o];
    assert next[|ops|] == o;
    LastBeforeGrows(ops, o, k, i, |ops|);
    if 0 <= i < |ops| && LastBefore(ops, k, i, |ops|) && k !in o.keys {
      assert forall m :: i < m < |ops| + 1 ==> k !in next[m].keys;
    }
  }

  lemma CallKeepsChains(s: State, keys: seq<string>)
    requires ChainsCurrent(s)
    ensures ChainsCurrent(Next(s, Call(keys)))
  {
    var next, n := Next(s, Call(keys)), |s.ops|;
    SetAllContents(s.chains, keys, n);
    forall k, i {
      LastBeforeEnd(s.ops, next.ops[n], k, i);
    }
  }

  lemma CallKeepsWaits(s: State, keys: seq<string>)
    requires ChainsCurrent(s) && WaitsForPredecessors(s)
    ensures WaitsForPredecessors(Next(s, Call(keys)))
  {
    var next, n := Next(s, Call(keys)), |s.ops|;
    PriorTailsContents(s.chains, keys);
    forall j, k, i | 0 <= j <= n && k in next.ops[j].keys && LastBefore(next.ops, k, i, j)
      ensures i in next.ops[j].prior || TailSettled(next.ops[i])
    {
      LastBeforeGrows(s.ops, next.ops[n], k, i, j);
    }
  }

  lemma CallKeepsEarlier(s: State, keys: seq<string>)
    requires ChainsCurrent(s) && WaitsForEarlier(s)
    ensures WaitsForEarlier(Next(s, Call(keys)))
  {
    var next, n := Next(s, Call(keys)), |s.ops|;
    PriorTailsContents(s.chains, keys);
    forall j, q | 0 <= j <= n && 0 <= q < |next.ops[j].prior|
      ensures next.ops[j].prior[q] < j && Shares(next.ops[next.ops[j].prior[q]], next.ops[j])
    {
      var p := next.ops[j].prior[q];
      if j == n {
        assert p in next.ops[n].prior;
        var k :| k in keys && k in s.chains && s.chains[k] == p;
        assert LastBefore(s.ops, k, p, n);
        assert k in next.ops[p].keys && k in next.ops[n].keys;
      } else {
        assert next.ops[j] == s.ops[j] && next.ops[p] == s.ops[p];
      }
    }
  }

  /** A step that changes one operation's phase, never back to waiting and never out of a settled tail. */
  ghost predicate Advances(s: State, next: State, i: nat) {
    && i < |s.ops| == |next.ops|
    && (forall j :: 0 <= j < |s.ops| ==> next.ops[j].keys == s.ops[j].keys && next.ops[j].prior == s.ops[j].prior)
    && (forall j :: 0 <= j < |s.ops| && j != i ==> next.ops[j] == s.ops[j])
    && (TailSettled(s.ops[i]) ==> TailSettled(next.ops[i]))
  }

  lemma AdvanceKeepsStructure(s: State, next: State, i: nat)
    requires Advances(s, next, i) && WaitsForPredecessors(s) && WaitsForEarlier(s)
    ensures WaitsForPredecessors(next) && WaitsForEarlier(next)
    ensures forall k, a, b :: LastBefore(next.ops, k, a, b) <==> LastBefore(s.ops, k, a, b)
  {
    forall k, a, b ensures LastBefore(next.ops, k, a, b) <==> LastBefore(s.ops, k, a, b) {
    }
    forall j, q | 0 <= j < |s.ops| && 0 <= q < |next.ops[j].prior|
      ensures next.ops[j].prior[q] < j && Shares(next.ops[next.ops[j].prior[q]], next.ops[j])
    {
      assert Shares(s.ops[s.ops[j].prior[q]], s.ops[j]);
    }
  }

  /** The start condition is enough: all earlier operations on its keys are done, not only the last ones. */
  lemma EarlierUsersDone(s: State, i: int, j: nat)
    requires Inv(s) && 0 <= i < j < |s.ops| && Shares(s.ops[i], s.ops[j])
    requires Enabled(s, Start(j)) || Started(s.ops[j])
    ensures TailSettled(s.ops[i])
  {
    if !Started(s.ops[j]) {
      var k :| k in s.ops[i].keys && k in s.ops[j].keys;
      var last := FindLast(s.ops, k, i, j);
      assert last in s.ops[j].prior || TailSettled(s.ops[last]);
      assert TailSettled(s.ops[last]);
      if i < last {
        assert Shares(s.ops[i], s.ops[last]);
      }
    }
  }

  lemma AdvanceKeepsOrder(s: State, next: State, i: nat)
    requires Inv(s) && Advances(s, next, i)
    requires Started(next.ops[i]) ==> Started(s.ops[i]) || Enabled(s, Start(i))
    ensures InCallOrder(next)
  {
    forall a, b | 0 <= a < b < |next.ops| && Started(next.ops[b]) && Shares(next.ops[a], next.ops[b])
      ensures TailSettled(next.ops[a])
    {
      assert Shares(s.ops[a], s.ops[b]);
      EarlierUsersDone(s, a, b);
    }
  }

  lemma CleanUpKeepsChains(s: State, i: nat)
    requires Inv(s) && Enabled(s, CleanUp(i))
    ensures ChainsCurrent(Next(s, CleanUp(i)))
  {
    var next := Next(s, CleanUp(i));
    DropOwnContents(s.chains, s.ops[i].keys, i);
    AdvanceKeepsStructure(s, next, i);
    forall k | k in next.chains
      ensures LastBefore(next.ops, k, next.chains[k], |next.ops|) && !next.ops[next.chains[k]].phase.Cleaned?
    {
      assert LastBefore(s.ops, k, s.chains[k], |s.ops|);
    }
  }

  lemma InvStep(s: State, e: Event)
    requires Inv(s) && Enabled(s, e)
    ensures Inv(Next(s, e))
  {
    match e
    case Call(keys) =>
      CallKeepsChains(s, keys);
      CallKeepsWaits(s, keys);
      CallKeepsEarlier(s, keys);
    case Start(i) => AdvanceKeeps(s, e, i);
    case Finish(i, _) => AdvanceKeeps(s, e, i);
    case Release(i) => AdvanceKeeps(s, e, i);
    case CleanUp(i) =>
      CleanUpKeepsChains(s, i);
      AdvanceKeepsStructure(s, Next(s, e), i);
      AdvanceKeepsOrder(s, Next(s, e), i);
  }

  lemma AdvanceKeeps(s: State, e: Event, i: nat)
    requires Inv(s) && Enabled(s, e) && !e.Call? && !e.CleanUp? && e.op == i
    ensures Inv(Next(s, e))
  {
    var next := Next(s, e);
    AdvanceKeepsStructure(s, next, i);
    AdvanceKeepsOrder(s, next, i);
  }

  lemma {:induction false} InvRun(s: State, events: seq<Event>)
    requires Inv(s) && IsRun(s, events)
    ensures Inv(Run(s, events))
    decreases |events|
  {
    if events != [] {
      InvStep(s, events[0]);
      InvRun(Next(s, events[0]), events[1..]);
    }
  }

  // ---------------------------------------------------------------- the events tell the state

  /** The keys of each call, in call order. */
  function CallsIn(events: seq<Event>): seq<seq<string>>
    decreases |events|
  {
    if events == [] then []
    else (if events[0].Call? then [events[0].keys] else []) + CallsIn(events[1..])
  }

  predicate FinishedIn(events: seq<Event>, i: nat) {
    Finish(i, true) in events || Finish(i, false) in events
  }

  /** The callback has been started and its promise has not settled. */
  predicate InProgress(events: seq<Event>, i: nat) {
    Start(i) in events && !FinishedIn(events, i)
  }

  ghost predicate CallsShare(events: seq<Event>, i: nat, j: nat)
    requires i < |CallsIn(events)| && j < |CallsIn(events)|
  {
    exists k :: k in CallsIn(events)[i] && k in CallsIn(events)[j]
  }

  /** What `o`, the operation numbered `i`, is after `events`, when it was `was` before. */
  predicate Told(was: Operation, o: Operation, events: seq<Event>, i: nat) {
    && o.keys == was.keys
    && (Started(o) <==> Started(was) || Start(i) in events)
    && (o.phase in {Finished, Released, Cleaned} <==>
        was.phase in {Finished, Released, Cleaned} || FinishedIn(events, i))
    && (TailSettled(o) <==> TailSettled(was) || Release(i) in events)
    && (o.phase.Cleaned? <==> was.phase.Cleaned? || CleanUp(i) in events)
    && (o.failed <==> was.failed || Finish(i, false) in events)
  }

  function NewOperation(keys: seq<string>): Operation {
    Operation(keys, [], Waiting, false, false)
  }

  /** One event does to an operation what it is named for. */
  lemma ToldStep(s: State, e: Event, i: nat)
    requires Enabled(s, e) && i < |s.ops| && (s.ops[i].failed ==> s.ops[i].phase in {Finished, Released, Cleaned})
    ensures |Next(s, e).ops| == |s.ops| + (if e.Call? then 1 else 0) && Told(s.ops[i], Next(s, e).ops[i], [e], i)
    ensures Next(s, e).ops[i].failed ==> Next(s, e).ops[i].phase in {Finished, Released, Cleaned}
  {
    assert forall x :: x in [e] <==> x == e;
  }

  lemma ToldTwice(a: Operation, b: Operation, c: Operation, e: Event, rest: seq<Event>, i: nat)
    requires Told(a, b, [e], i) && Told(b, c, rest, i)
    ensures Told(a, c, [e] + rest, i)
  {
    assert forall x :: x in [e] + rest <==> x in [e] || x in rest;
  }

  lemma {:induction false} OldToldBy(s: State, events: seq<Event>, i: nat)
    requires IsRun(s, events) && i < |s.ops| && (s.ops[i].failed ==> s.ops[i].phase in {Finished, Released, Cleaned})
    ensures i < |Run(s, events).ops| && Told(s.ops[i], Run(s, events).ops[i], events, i)
    decreases |events|
  {
    if events != [] {
      var next := Next(s, events[0]);
      ToldStep(s, events[0], i);
      OldToldBy(next, events[1..], i);
      ToldTwice(s.ops[i], next.ops[i], Run(s, events).ops[i], events[0], events[1..], i);
      assert events == [events[0]] + events[1..];
    }
  }

  /** Nothing happens to an operation that has not been called. */
  lemma NotYetCalled(s: State, e: Event, i: nat)
    requires Enabled(s, e) && i >= |s.ops|
    ensures e != Start(i) && e != Release(i) && e != CleanUp(i) && e != Finish(i, true) && e != Finish(i, false)
  {
  }

  lemma {:induction false} NewToldBy(s: State, events: seq<Event>, i: nat)
    requires IsRun(s, events) && |s.ops| <= i < |Run(s, events).ops|
    ensures i - |s.ops| < |CallsIn(events)|
    ensures Told(NewOperation(CallsIn(events)[i - |s.ops|]), Run(s, events).ops[i], events, i)
    decreases |events|
  {
    if events != [] {
      var e, rest := events[0], events[1..];
      var next := Next(s, e);
      NotYetCalled(s, e, i);
      assert events == [e] + rest && forall x :: x in [e] <==> x == e;
      if i < |next.ops| {
        OldToldBy(next, rest, i);
      } else {
        NewToldBy(next, rest, i);
      }
    }
  }

  lemma {:induction false} AllCalls(s: State, events: seq<Event>)
    requires IsRun(s, events)
    ensures |Run(s, events).ops| == |s.ops| + |CallsIn(events)|
    decreases |events|
  {
    if events != [] {
      AllCalls(Next(s, events[0]), events[1..]);
    }
  }

  /**
   In every run there is one operation for each call, with exactly its keys, and the events tell how far it has come:
   its promise is rejected exactly if its callback failed.
   */
  lemma OperationsAreCalls(events: seq<Event>)
    requires IsRun(INITIAL, events)
    ensures |Run(INITIAL, events).ops| == |CallsIn(events)|
    ensures forall i :: 0 <= i < |CallsIn(events)| ==>
              var o := Run(INITIAL, events).ops[i];
              && o.keys == CallsIn(events)[i]
              && (Started(o) <==> Start(i) in events) && (o.phase.Running? <==> InProgress(events, i))
              && (TailSettled(o) <==> Release(i) in events) && (o.phase.Cleaned? <==> CleanUp(i) in events)
              && (o.failed <==> Finish(i, false) in events)
  {
    AllCalls(INITIAL, events);
    forall i | 0 <= i < |CallsIn(events)|
      ensures Told(NewOperation(CallsIn(events)[i]), Run(INITIAL, events).ops[i], events, i)
    {
      NewToldBy(INITIAL, events, i);
    }
  }

  lemma SharedKeys(events: seq<Event>, i: nat, j: nat)
    requires IsRun(INITIAL, events) && i < |CallsIn(events)| && j < |CallsIn(events)|
    ensures i < |Run(INITIAL, events).ops| && j < |Run(INITIAL, events).ops|
    ensures Shares(Run(INITIAL, events).ops[i], Run(INITIAL, events).ops[j]) <==> CallsShare(events, i, j)
  {
    OperationsAreCalls(events);
  }

  // ---------------------------------------------------------------- what the lock promises

  /** In every interleaving no two calls that share a key are in progress. */
  lemma MutualExclusion(events: seq<Event>, i: nat, j: nat)
    requires IsRun(INITIAL, events) && i < j < |CallsIn(events)|
    requires InProgress(events, i) && InProgress(events, j)
    ensures !CallsShare(events, i, j)
  {
    InvRun(INITIAL, events);
    OperationsAreCalls(events);
    SharedKeys(events, i, j);
  }

  /** Calls that share a key start in call order, each after the earlier ones are done. */
  lemma StartsInCallOrder(events: seq<Event>, i: nat, j: nat)
    requires IsRun(INITIAL, events) && i < j < |CallsIn(events)|
    requires CallsShare(events, i, j) && Start(j) in events
    ensures FinishedIn(events, i) && Release(i) in events
  {
    InvRun(INITIAL, events);
    OperationsAreCalls(events);
    SharedKeys(events, i, j);
    NewToldBy(INITIAL, events, i);
  }

  /**
   A call may start exactly when it has not yet and every earlier call that shares a key with it is done, whatever
   happened to the chain entries in between.
   */
  lemma StartsIffEarlierUsersDone(events: seq<Event>, j: nat)
    requires IsRun(INITIAL, events) && j < |CallsIn(events)|
    ensures Enabled(Run(INITIAL, events), Start(j)) <==>
            && Start(j) !in events
            && forall i :: 0 <= i < j && CallsShare(events, i, j) ==> Release(i) in events
  {
    InvRun(INITIAL, events);
    OperationsAreCalls(events);
    var s := Run(INITIAL, events);
    forall i | 0 <= i < j ensures Shares(s.ops[i], s.ops[j]) <==> CallsShare(events, i, j) {
      SharedKeys(events, i, j);
    }
    if Enabled(s, Start(j)) {
      forall i | 0 <= i < j && Shares(s.ops[i], s.ops[j]) ensures TailSettled(s.ops[i]) {
        EarlierUsersDone(s, i, j);
      }
    }
  }

  // ---------------------------------------------------------------- progress

  /** Steps an operation still has before it. */
  function StepsLeft(o: Operation): nat {
    match o.phase
    case Waiting => 4
    case Running => 3
    case Finished => 2
    case Released => 1
    case Cleaned => 0
  }

  /** Steps the first `n` operations still have before them. */
  function Remaining(ops: seq<Operation>, n: nat): nat
    requires n <= |ops|
  {
    if n == 0 then 0 else Remaining(ops, n - 1) + StepsLeft(ops[n - 1])
  }

  lemma {:induction false} RemainingUpdate(ops: seq<Operation>, i: nat, o: Operation, n: nat)
    requires i < |ops| && n <= |ops|
    ensures Remaining(ops[i := o], n) == Remaining(ops, n) + if i < n then StepsLeft(o) - StepsLeft(ops[i]) else 0
  {
    if n > 0 {
      RemainingUpdate(ops, i, o, n - 1);
    }
  }

  lemma {:induction false} RemainingGrows(ops: seq<Operation>, o: Operation, n: nat)
    requires n <= |ops|
    ensures Remaining(ops + [o], n) == Remaining(ops, n)
  {
    if n > 0 {
      RemainingGrows(ops, o, n - 1);
    }
  }

  /**
   The steps the first `n` operations have left go down by one with each of their own steps and are not
   touched by any other step: later calls, whatever their keys, cannot delay them.
   */
  lemma OnlyOwnStepsCount(s: State, e: Event, n: nat)
    requires Enabled(s, e) && n <= |s.ops|
    ensures n <= |Next(s, e).ops|
    ensures Remaining(Next(s, e).ops, n) == Remaining(s.ops, n) - if !e.Call? && e.op < n then 1 else 0
  {
    if e.Call? {
      RemainingGrows(s.ops, Next(s, e).ops[|s.ops|], n);
    } else {
      RemainingUpdate(s.ops, e.op, Next(s, e).ops[e.op], n);
    }
  }

  /**
   As long as an operation is not done, the first operation that is not done can take a step: nothing an
   operation waits for ever waits for it, so there is no deadlock.
   */
  lemma {:induction false} SomeEarlierCanStep(s: State, n: nat) returns (e: Event)
    requires Inv(s) && n < |s.ops| && !TailSettled(s.ops[n])
    ensures Enabled(s, e) && !e.Call? && e.op <= n
    decreases n
  {
    if m: nat :| m < n && !TailSettled(s.ops[m]) {
      e := SomeEarlierCanStep(s, m);
    } else {
      e := match s.ops[n].phase
           case Waiting => Start(n)
           case Running => Finish(n, true)
           case _ => Release(n);
    }
  }

  /** The steps in `events` that belong to the first `n` operations. */
  function OwnSteps(events: seq<Event>, n: nat): nat
    decreases |events|
  {
    if events == [] then 0
    else OwnSteps(events[1..], n) + if !events[0].Call? && events[0].op < n then 1 else 0
  }

  lemma {:induction false} OwnStepsUsedUp(s: State, events: seq<Event>, n: nat)
    requires IsRun(s, events) && n <= |s.ops|
    ensures n <= |Run(s, events).ops|
    ensures Remaining(Run(s, events).ops, n) == Remaining(s.ops, n) - OwnSteps(events, n)
    decreases |events|
  {
    if events != [] {
      OnlyOwnStepsCount(s, events[0], n);
      OwnStepsUsedUp(Next(s, events[0]), events[1..], n);
    }
  }

  lemma {:induction false} RemainingAtLeast(ops: seq<Operation>, i: nat, n: nat)
    requires i < n <= |ops|
    ensures Remaining(ops, n) >= StepsLeft(ops[i])
  {
    if i < n - 1 {
      RemainingAtLeast(ops, i, n - 1);
    }
  }

  /**
   Progress: once the operations up to `i` have taken the steps they had left, `i` has started and is
   cleaned up; any number of other calls and steps may be interleaved.
   */
  lemma EveryOperationRuns(s: State, events: seq<Event>, i: nat)
    requires IsRun(s, events) && i < |s.ops|
    requires OwnSteps(events, i + 1) >= Remaining(s.ops, i + 1)
    ensures i < |Run(s, events).ops| && Run(s, events).ops[i].phase.Cleaned?
  {
    OwnStepsUsedUp(s, events, i + 1);
    RemainingAtLeast(Run(s, events).ops, i, i + 1);
  }

  /** A run that cannot go on without a new call has run every operation and left no chain entry behind. */
  lemma QuietMeansCleanedUp(events: seq<Event>)
    requires IsRun(INITIAL, events)
    requires forall e :: Enabled(Run(INITIAL, events), e) ==> e.Call?
    ensures var s := Run(INITIAL, events);
            (forall i :: 0 <= i < |s.ops| ==> s.ops[i].phase.Cleaned?) && s.chains == map[]
    ensures forall i :: 0 <= i < |CallsIn(events)| ==> Start(i) in events && CleanUp(i) in events
  {
    InvRun(INITIAL, events);
    OperationsAreCalls(events);
    var s := Run(INITIAL, events);
    forall i | 0 <= i < |s.ops| ensures s.ops[i].phase.Cleaned? {
      if !TailSettled(s.ops[i]) {
        var e := SomeEarlierCanStep(s, i);
      }
      assert !Enabled(s, CleanUp(i));
    }
    assert forall k :: k in s.chains ==> LastBefore(s.ops, k, s.chains[k], |s.ops|);
  }

  ghost predicate SameButFailures(s: State, t: State) {
    && s.chains == t.chains && |s.ops| == |t.ops|
    && forall i :: 0 <= i < |s.ops| ==> t.ops[i] == s.ops[i].(failed := t.ops[i].failed)
  }

  /** Whether a callback succeeds or fails makes no difference to what can happen afterwards. */
  lemma {:induction false} FailuresDoNotBlock(s: State, t: State, events: seq<Event>)
    requires SameButFailures(s, t) && IsRun(s, events)
    ensures IsRun(t, events) && SameButFailures(Run(s, events), Run(t, events))
    decreases |events|
  {
    if events != [] {
      assert Enabled(t, events[0]);
      FailuresDoNotBlock(Next(s, events[0]), Next(t, events[0]), events[1..]);
    }
  }
}
