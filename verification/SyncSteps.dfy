/**
 What the loop of one sync has done after any number of paths: the effect on a path is the effect of
 the one step that processed it, whatever the order of the paths.
 */
module SyncSteps {
  import opened Options
  import opened ConflictNames
  import opened SyncModel

  /** The paths are enumerated without repetition and no two of them clash over conflict copies. */
  ghost predicate Orderly(env: Env) {
    && PlainStamp(env.stamp)
    && NoRepeats(env.order)
    && (forall i, j :: 0 <= i < |env.order| && 0 <= j < |env.order| ==>
          ConflictPath(env.order[i], env.stamp) != env.order[j])
  }

  function Changed(before: Option<File>, change: Change, mtime: int): Option<File> {
    match change
    case Keep => before
    case Write(data) => Some(File(data, mtime))
    case Delete => None
  }

  function ChangedEntry(before: Option<Entry>, change: EntryChange): Option<Entry> {
    match change
    case KeepEntry => before
    case SetEntry(e) => Some(e)
    case DropEntry => None
  }

  lemma ApplyFileAt(tree: Tree, rel: Path, o: Outcome, env: Env)
    ensures var next, cp := ApplyFile(tree, rel, o, env), ConflictPath(rel, env.stamp);
            && (rel != cp ==> Lookup(next, rel) == Changed(Lookup(tree, rel), o.file, WriteTime(env, rel)))
            && (rel != cp ==>
                  Lookup(next, cp) ==
                  if o.copy.Some? then Some(File(o.copy.value, WriteTime(env, cp))) else Lookup(tree, cp))
            && (forall p :: p != rel && p != cp ==> Lookup(next, p) == Lookup(tree, p))
  {
  }

  // ---------------------------------------------------------------- files

  lemma {:induction false} TreeUntouched(key: string, acc0: Acc, env: Env, os: seq<Outcome>, p: Path)
    requires |os| <= |env.order|
    requires forall k :: 0 <= k < |os| ==> p != env.order[k] && p != ConflictPath(env.order[k], env.stamp)
    ensures Lookup(Replay(key, acc0, env, os).tree, p) == Lookup(acc0.tree, p)
  {
    if os != [] {
      var n := |os| - 1;
      TreeUntouched(key, acc0, env, os[..n], p);
      ApplyFileAt(Replay(key, acc0, env, os[..n]).tree, env.order[n], os[n], env);
    }
  }

  /** A path and its conflict copy hold what the path's own step left there. */
  lemma {:induction false} TreeAt(key: string, acc0: Acc, env: Env, os: seq<Outcome>, k: nat)
    requires k < |os| <= |env.order| && Orderly(env)
    ensures var rel, tree := env.order[k], Replay(key, acc0, env, os).tree;
            var cp := ConflictPath(rel, env.stamp);
            && Lookup(tree, rel) == Changed(Lookup(acc0.tree, rel), os[k].file, WriteTime(env, rel))
            && Lookup(tree, cp) == if os[k].copy.Some? then Some(File(os[k].copy.value, WriteTime(env, cp)))
                                   else Lookup(acc0.tree, cp)
  {
    var rel, n := env.order[k], |os| - 1;
    var cp := ConflictPath(rel, env.stamp);
    forall j | 0 <= j < |os| && j != k
      ensures ConflictPath(env.order[j], env.stamp) != cp && env.order[j] != rel
    {
      if ConflictPath(env.order[j], env.stamp) == cp {
        ConflictPathInjective(env.order[j], rel, env.stamp);
      }
    }
    if k < n {
      TreeAt(key, acc0, env, os[..n], k);
    } else {
      TreeUntouched(key, acc0, env, os[..n], rel);
      TreeUntouched(key, acc0, env, os[..n], cp);
    }
    ApplyFileAt(Replay(key, acc0, env, os[..n]).tree, env.order[n], os[n], env);
  }

  // ---------------------------------------------------------------- manifest and saved state

  lemma {:induction false} EntriesUntouched(key: string, acc0: Acc, env: Env, os: seq<Outcome>, p: Path)
    requires |os| <= |env.order| && p !in env.order[..|os|]
    ensures Lookup(Replay(key, acc0, env, os).files, p) == Lookup(acc0.files, p)
    ensures Lookup(Replay(key, acc0, env, os).bases, p) == Lookup(acc0.bases, p)
  {
    if os != [] {
      var n := |os| - 1;
      assert env.order[n] in env.order[..|os|];
      EntriesUntouched(key, acc0, env, os[..n], p);
    }
  }

  lemma {:induction false} EntriesAt(key: string, acc0: Acc, env: Env, os: seq<Outcome>, k: nat)
    requires k < |os| <= |env.order|
    requires NoRepeats(env.order)
    ensures var rel, acc := env.order[k], Replay(key, acc0, env, os);
            && Lookup(acc.files, rel) == ChangedEntry(Lookup(acc0.files, rel), os[k].entry)
            && Lookup(acc.bases, rel) == if os[k].base.Some? then os[k].base else Lookup(acc0.bases, rel)
  {
    var n := |os| - 1;
    if k < n {
      EntriesAt(key, acc0, env, os[..n], k);
    } else {
      EntriesUntouched(key, acc0, env, os[..n], env.order[k]);
    }
  }

  // ---------------------------------------------------------------- relay

  /** A blob whose id was derived from the content sealed in it, for the collection `key`. */
  ghost predicate FromUpload(key: string, id: Digest, blob: Blob) {
    && id.FileBlobId? && id.key == key
    && blob.Sealed? && id.hash == ContentHash(blob.plain)
  }

  /** The loop never overwrites or removes a blob, and every blob it adds is an upload of its own. */
  lemma {:induction false} BlobsAfter(key: string, acc0: Acc, env: Env, os: seq<Outcome>)
    requires |os| <= |env.order|
    ensures var blobs := Replay(key, acc0, env, os).blobs;
            && (forall id :: id in acc0.blobs ==> id in blobs && blobs[id] == acc0.blobs[id])
            && (forall id :: id in blobs && id !in acc0.blobs ==> FromUpload(key, id, blobs[id]))
  {
    if os != [] {
      BlobsAfter(key, acc0, env, os[..|os| - 1]);
    }
  }

  /** An uploaded content is on the relay from its step on. */
  lemma {:induction false} UploadStored(key: string, acc0: Acc, env: Env, os: seq<Outcome>, k: nat)
    requires k < |os| <= |env.order|
    requires os[k].put.Some?
    ensures FileBlobId(key, env.order[k], ContentHash(os[k].put.value)) in Replay(key, acc0, env, os).blobs
  {
    if k < |os| - 1 {
      UploadStored(key, acc0, env, os[..|os| - 1], k);
    }
  }

  // ---------------------------------------------------------------- failures and counters

  lemma {:induction false} ErrorsAfter(key: string, acc0: Acc, env: Env, os: seq<Outcome>)
    requires |os| <= |env.order|
    ensures var errors := Replay(key, acc0, env, os).errors;
            && |errors| >= |acc0.errors|
            && (|errors| == |acc0.errors| <==> forall k :: 0 <= k < |os| ==> !os[k].failed)
  {
    if os != [] {
      ErrorsAfter(key, acc0, env, os[..|os| - 1]);
    }
  }

  /** No counter falls below what one step added to it. */
  lemma {:induction false} TallyAtLeast(key: string, acc0: Acc, env: Env, os: seq<Outcome>, k: nat)
    requires k < |os| <= |env.order|
    ensures Replay(key, acc0, env, os).tally.conflicts >= os[k].tally.conflicts
  {
    if k < |os| - 1 {
      TallyAtLeast(key, acc0, env, os[..|os| - 1], k);
    }
  }

  function Count(order: seq<Path>, sent: set<Path>): nat {
    if order == [] then 0
    else Count(order[..|order| - 1], sent) + if order[|order| - 1] in sent then 1 else 0
  }

  lemma {:induction false} CountIsSize(order: seq<Path>, sent: set<Path>)
    requires NoRepeats(order)
    ensures Count(order, sent) == |set p | p in order && p in sent|
  {
    var now := set p | p in order && p in sent;
    if order == [] {
      assert now == {};
    } else {
      var n := |order| - 1;
      CountIsSize(order[..n], sent);
      var before := set p | p in order[..n] && p in sent;
      assert order == order[..n] + [order[n]];
      assert now == if order[n] in sent then before + {order[n]} else before;
    }
  }

  lemma CountAll(order: seq<Path>, sent: set<Path>)
    requires NoRepeats(order)
    requires forall p :: p in sent ==> p in order
    ensures Count(order, sent) == |sent|
  {
    CountIsSize(order, sent);
    assert sent == set p | p in order && p in sent;
  }

  /** If exactly the paths in `sent` are counted as uploads and nothing else is counted, that is the total. */
  lemma {:induction false} UploadsCounted(key: string, acc0: Acc, env: Env, os: seq<Outcome>, sent: set<Path>)
    requires |os| <= |env.order|
    requires forall k :: 0 <= k < |os| ==>
      os[k].tally == if env.order[k] in sent then Tally(1, 0, 0, 0, 0) else ZERO
    ensures Replay(key, acc0, env, os).tally ==
            acc0.tally.(uploaded := acc0.tally.uploaded + Count(env.order[..|os|], sent))
  {
    if os != [] {
      var n := |os| - 1;
      UploadsCounted(key, acc0, env, os[..n], sent);
      assert env.order[..n + 1][..n] == env.order[..n];
    }
  }

  /** The steps of a run are decided one after the other. */
  lemma {:induction false} OutcomeIs(key: string, decide: (Acc, Path) -> Outcome, acc0: Acc, env: Env, n: nat, k: nat)
    requires k < n <= |env.order|
    ensures var os := Outcomes(key, decide, acc0, env, n);
            os[k] == decide(Replay(key, acc0, env, os[..k]), env.order[k])
  {
    var os := Outcomes(key, decide, acc0, env, n);
    if k < n - 1 {
      OutcomeIs(key, decide, acc0, env, n - 1, k);
      assert os[..k] == Outcomes(key, decide, acc0, env, n - 1)[..k];
    } else {
      assert os[..k] == Outcomes(key, decide, acc0, env, k);
    }
  }
}
