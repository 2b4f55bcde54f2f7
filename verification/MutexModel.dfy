/**
 The keyed lock (packages/storage/src/mutex.ts) as a transition system: calls, and the steps of the
 promises each call creates, interleaved in any order.
 */
module MutexModel {

  /** How far the promises of one call have come. */
  datatype Phase =
    | Waiting   // for the tails it found when called
    | Running   // its callback has been started
    | Finished  // its callback has settled, with a value or an error
    | Released  // its tail has settled
    | Cleaned   // its cleanup has run

  /**
   `failed` tells whether the callback's promise was rejected, `tailRejected` whether the tail derived from it was.
   */
  datatype Operation = Operation(keys: seq<string>, prior: seq<nat>, phase: Phase, failed: bool, tailRejected: bool)

  /** Whether `p.then(...)` is rejected when its handlers return normally: a rejection passes unless it is handled. */
  predicate ThenRejected(rejected: bool, handlesRejection: bool) {
    rejected && !handlesRejection
  }

  /** The `chains` map from a key to the operation whose tail it holds, and all operations in call order. */
  datatype State = State(chains: map<string, nat>, ops: seq<Operation>)

  datatype Event =
    | Call(keys: seq<string>)
    | Start(op: nat)
    | Finish(op: nat, ok: bool)
    | Release(op: nat)
    | CleanUp(op: nat)

  const INITIAL := State(map[], [])

  predicate TailSettled(o: Operation) {
    o.phase.Released? || o.phase.Cleaned?
  }

  predicate Started(o: Operation) {
    !o.phase.Waiting?
  }

  /** The chain tails found for `keys`, in order, absent ones left out. */
  function PriorTails(chains: map<string, nat>, keys: seq<string>): seq<nat> {
    if keys == [] then []
    else
      var n := |keys| - 1;
      PriorTails(chains, keys[..n]) + if keys[n] in chains then [chains[keys[n]]] else []
  }

  /** Every key's entry becomes the new tail. */
  function SetAll(chains: map<string, nat>, keys: seq<string>, tail: nat): map<string, nat> {
    if keys == [] then chains
    else SetAll(chains, keys[..|keys| - 1], tail)[keys[|keys| - 1] := tail]
  }

  /** Removes the keys' entries that still hold `tail`. */
  function DropOwn(chains: map<string, nat>, keys: seq<string>, tail: nat): map<string, nat> {
    if keys == [] then chains
    else
      var key, rest := keys[|keys| - 1], DropOwn(chains, keys[..|keys| - 1], tail);
      if key in rest && rest[key] == tail then rest - {key} else rest
  }

  predicate Settled(s: State, i: nat) {
    i < |s.ops| && TailSettled(s.ops[i])
  }

  predicate Enabled(s: State, e: Event) {
    match e
    case Call(_) => true
    case Start(i) =>
      && i < |s.ops| && s.ops[i].phase.Waiting?
      && forall q :: 0 <= q < |s.ops[i].prior| ==> Settled(s, s.ops[i].prior[q])
    case Finish(i, _) => i < |s.ops| && s.ops[i].phase.Running?
    case Release(i) => i < |s.ops| && s.ops[i].phase.Finished?
    case CleanUp(i) => i < |s.ops| && s.ops[i].phase.Released? && !s.ops[i].tailRejected // only on fulfilment
  }

  function SetPhase(s: State, i: nat, phase: Phase): State
    requires i < |s.ops|
  {
    s.(ops := s.ops[i := s.ops[i].(phase := phase)])
  }

  function Next(s: State, e: Event): State
    requires Enabled(s, e)
  {
    match e
    case Call(keys) =>
      State(SetAll(s.chains, keys, |s.ops|),
            s.ops + [Operation(keys, PriorTails(s.chains, keys), Waiting, false, false)])
    case Start(i) => SetPhase(s, i, Running)
    case Finish(i, ok) => s.(ops := s.ops[i := s.ops[i].(phase := Finished, failed := !ok)])
    case Release(i) =>
      s.(ops := s.ops[i := s.ops[i].(phase := Released, tailRejected := ThenRejected(s.ops[i].failed, true))])
    case CleanUp(i) =>
      var freed := SetPhase(s, i, Cleaned);
      freed.(chains := DropOwn(s.chains, s.ops[i].keys, i))
  }

  ghost predicate IsRun(s: State, events: seq<Event>)
    decreases |events|
  {
    events == [] || (Enabled(s, events[0]) && IsRun(Next(s, events[0]), events[1..]))
  }

  ghost function Run(s: State, events: seq<Event>): State
    requires IsRun(s, events)
    decreases |events|
  {
    if events == [] then s else Run(Next(s, events[0]), events[1..])
  }
}
