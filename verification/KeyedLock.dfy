/** The lock object itself: `runExclusive` and the promise callbacks, updating `chains` in place. */
module KeyedLock {
  import opened MutexModel
  import opened MutexProofs

  // ---------------------------------------------------------------- sorting the keys

  /** Character by character, a prefix before its extensions. */
  predicate AtMost(a: string, b: string) {
    a == "" || (b != "" && (a[0] < b[0] || (a[0] == b[0] && AtMost(a[1..], b[1..]))))
  }

  predicate Ordered(keys: seq<string>) {
    forall i, j :: 0 <= i < j < |keys| ==> AtMost(keys[i], keys[j])
  }

  lemma {:induction false} AtMostTotal(a: string, b: string)
    ensures AtMost(a, b) || AtMost(b, a)
  {
    if a != "" && b != "" && a[0] == b[0] {
      AtMostTotal(a[1..], b[1..]);
    }
  }

  lemma {:induction false} AtMostTransitive(a: string, b: string, c: string)
    requires AtMost(a, b) && AtMost(b, c)
    ensures AtMost(a, c)
  {
    if a != "" && a[0] == b[0] == c[0] {
      AtMostTransitive(a[1..], b[1..], c[1..]);
    }
  }

  method SortKeys(keys: seq<string>) returns (sorted: seq<string>)
    ensures multiset(sorted) == multiset(keys) && Ordered(sorted)
  {
    sorted := [];
    for i := 0 to |keys|
      invariant multiset(sorted) == multiset(keys[..i]) && Ordered(sorted)
    {
      sorted := Insert(sorted, keys[i]);
      assert keys[..i + 1] == keys[..i] + [keys[i]];
    }
    assert keys[..|keys|] == keys;
  }

  method Insert(sorted: seq<string>, key: string) returns (r: seq<string>)
    requires Ordered(sorted)
    ensures multiset(r) == multiset(sorted) + multiset{key} && Ordered(r)
  {
    var n := |sorted|;
    while n > 0 && !AtMost(sorted[n - 1], key)
      invariant 0 <= n <= |sorted| && forall k :: n <= k < |sorted| ==> AtMost(key, sorted[k])
    {
      AtMostTotal(sorted[n - 1], key);
      n := n - 1;
    }
    assert sorted == sorted[..n] + sorted[n..];
    forall k | 0 <= k < n ensures AtMost(sorted[k], key) {
      if k < n - 1 {
        AtMostTransitive(sorted[k], sorted[n - 1], key);
      }
    }
    InsertedOrdered(sorted[..n], key, sorted[n..]);
    r := sorted[..n] + [key] + sorted[n..];
  }

  lemma InsertedOrdered(a: seq<string>, key: string, b: seq<string>)
    requires Ordered(a + b) && (forall k :: 0 <= k < |a| ==> AtMost(a[k], key))
    requires forall k :: 0 <= k < |b| ==> AtMost(key, b[k])
    ensures Ordered(a + [key] + b)
  {
    var r := a + [key] + b;
    forall i, j | 0 <= i < j < |r| ensures AtMost(r[i], r[j]) {
      if i != |a| && j != |a| {
        assert r[i] == (a + b)[if i < |a| then i else i - 1] && r[j] == (a + b)[if j < |a| then j else j - 1];
      }
    }
  }

  lemma SameMembers(a: seq<string>, b: seq<string>)
    requires multiset(a) == multiset(b)
    ensures forall k :: k in a <==> k in b
  {
    forall k ensures k in a <==> k in b {
      assert k in a <==> k in multiset(a);
      assert k in b <==> k in multiset(b);
    }
  }

  class KeyedMutex {
    /** Key to the operation whose tail promise is registered. */
    var chains: map<string, nat>
    /** The promises of all calls so far; a tail is named by the index of its operation. */
    var ops: seq<Operation>

    ghost function Current(): State
      reads this
    {
      State(chains, ops)
    }

    constructor ()
      ensures Current() == INITIAL
    {
      chains, ops := map[], [];
    }

    /** The synchronous part of `runExclusive`: sort the keys, look up the tails to wait for, register the own one. */
    method RunExclusive(keys: seq<string>) returns (op: nat, sorted: seq<string>)
      modifies this
      ensures op == |old(ops)| && multiset(sorted) == multiset(keys) && Ordered(sorted)
      ensures forall k :: k in keys ==> k in chains && chains[k] == op
      ensures forall k :: k !in keys ==>
                (k in chains <==> k in old(chains)) && (k in chains ==> chains[k] == old(chains)[k])
      ensures |ops| == op + 1 && ops[..op] == old(ops)
      ensures ops[op].keys == sorted && ops[op].phase.Waiting?
      ensures forall i :: i in ops[op].prior <==> exists k :: k in keys && k in old(chains) && old(chains)[k] == i
      ensures Current() == Next(old(Current()), Call(sorted))
    {
      sorted := SortKeys(keys);
      op := |ops|;
      var prior: seq<nat> := [];
      for i := 0 to |sorted|
        invariant prior == PriorTails(chains, sorted[..i]) && Current() == old(Current())
      {
        assert sorted[..i + 1][..i] == sorted[..i];
        if sorted[i] in chains {
          prior := prior + [chains[sorted[i]]];
        }
      }
      assert sorted[..|sorted|] == sorted;
      ops := ops + [Operation(sorted, prior, Waiting, false, false)];
      for i := 0 to |sorted|
        invariant chains == SetAll(old(chains), sorted[..i], op)
        invariant ops == old(ops) + [Operation(sorted, prior, Waiting, false, false)]
      {
        assert sorted[..i + 1][..i] == sorted[..i];
        chains := chains[sorted[i] := op];
      }
      PriorTailsContents(old(chains), sorted);
      SetAllContents(old(chains), sorted, op);
      SameMembers(sorted, keys);
    }

    /** All prior tails have settled: the callback is started. */
    method StartCallback(op: nat)
      requires Enabled(Current(), Start(op))
      modifies this`ops
      ensures Current() == Next(old(Current()), Start(op))
    {
      ops := ops[op := ops[op].(phase := Running)];
    }

    /** The callback's promise settles, with a value or an error. */
    method SettleResult(op: nat, ok: bool)
      requires Enabled(Current(), Finish(op, ok))
      modifies this`ops
      ensures Current() == Next(old(Current()), Finish(op, ok))
    {
      ops := ops[op := ops[op].(phase := Finished, failed := !ok)];
    }

    /** The tail: both outcomes of the callback have a handler, so it is fulfilled either way. */
    method SettleTail(op: nat)
      requires Enabled(Current(), Release(op))
      modifies this`ops
      ensures Current() == Next(old(Current()), Release(op)) && !ops[op].tailRejected
    {
      ops := ops[op := ops[op].(phase := Released, tailRejected := ThenRejected(ops[op].failed, true))];
    }

    /** Releases the keys nobody has queued behind. */
    method ReleaseKeys(op: nat)
      requires Enabled(Current(), CleanUp(op))
      modifies this
      ensures forall k :: k in chains <==> k in old(chains) && !(k in old(ops)[op].keys && old(chains)[k] == op)
      ensures forall k :: k in chains ==> chains[k] == old(chains)[k]
      ensures Current() == Next(old(Current()), CleanUp(op))
    {
      var keys := ops[op].keys;
      for i := 0 to |keys|
        invariant chains == DropOwn(old(chains), keys[..i], op) && ops == old(ops)
      {
        assert keys[..i + 1][..i] == keys[..i];
        if keys[i] in chains && chains[keys[i]] == op {
          chains := chains - {keys[i]};
        }
      }
      assert keys[..|keys|] == keys;
      DropOwnContents(old(chains), keys, op);
      ops := ops[op := ops[op].(phase := Cleaned)];
    }
  }
}
