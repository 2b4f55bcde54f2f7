/**
 What a node's operations say about a site, told from the operations alone, and that the node is what they say: its
 sites, its current deploys and the manifests it keeps
 (publish/internal/server/api.go, publish/internal/store/fs.go).
 */
module PublishHistory {
  import opened Options
  import opened PublishSpec

  /**
   A site's past since it was created: the deploys committed to it, oldest first, whether one was since the start, and
   the deploy named last, by a commit or a rollback.
   */
  datatype Past = Past(log: seq<string>, grown: bool, named: string)

  /** The deploys that stay: once there was a commit, the newest ones up to the limit. */
  function Staying(past: Past, keep: int): seq<string> {
    if past.grown && 0 <= keep < |past.log| then past.log[|past.log| - keep..] else past.log
  }

  /** The commit writes both records of a deploy of the site. */
  predicate Commits(op: Op, keep: int, slug: string) {
    op.OpCommit? && op.slug == slug && op.io.wroteDeploy && op.io.wroteSite && keep >= 0
  }

  predicate RollsBack(op: Op, past: Past, keep: int, slug: string) {
    op.OpRollback? && op.slug == slug && op.wroteSite && op.id in Staying(past, keep)
  }

  predicate Unlinks(op: Op, slug: string) {
    op.OpDelete? && op.slug == slug && op.unlinked
  }

  /** The past of a site after a run; none if there is no such site. */
  ghost function PastOf(n: Node, keep: int, ops: seq<Op>, slug: string): Option<Past> {
    if ops == [] then
      if slug in n.sites then Some(Past(n.sites[slug].deploys, false, n.sites[slug].current)) else None
    else
      var op := ops[|ops| - 1];
      match PastOf(n, keep, ops[..|ops| - 1], slug)
      case None => if op == OpCreate(slug) then Some(Past([], false, "")) else None
      case Some(past) =>
        if Unlinks(op, slug) then None
        else if Commits(op, keep, slug) then Some(Past(past.log + [op.id], true, op.id))
        else if RollsBack(op, past, keep, slug) then Some(Past(past.log, past.grown, op.id))
        else Some(past)
  }

  /** A site is there with exactly the deploys and the current one that its past tells, in every run. */
  lemma {:induction false} SiteIsItsPast(n: Node, keep: int, ops: seq<Op>, slug: string)
    ensures match PastOf(n, keep, ops, slug)
            case None => slug !in Run(n, keep, ops).sites
            case Some(past) =>
              slug in Run(n, keep, ops).sites &&
              Run(n, keep, ops).sites[slug] == Site(Staying(past, keep), past.named)
  {
    if ops != [] {
      var front, op := ops[..|ops| - 1], ops[|ops| - 1];
      SiteIsItsPast(n, keep, front, slug);
      var before := PastOf(n, keep, front, slug);
      if before.Some? && Commits(op, keep, slug) {
        TrimmedAgain(before.value, op.id, keep);
      }
    }
  }

  lemma TrimmedAgain(past: Past, id: string, keep: int)
    requires keep >= 0
    ensures Kept(Staying(past, keep) + [id], keep) == Staying(Past(past.log + [id], true, id), keep)
  {
    var all := past.log + [id];
    if past.grown && keep < |past.log| {
      assert Staying(past, keep) + [id] == all[|past.log| - keep..];
    }
  }

  /** Step `i` names `id` as the deploy of the site: a commit that writes both records, or an effective rollback. */
  ghost predicate Names(n: Node, keep: int, ops: seq<Op>, i: nat, slug: string, id: string)
    requires i < |ops|
  {
    var past := PastOf(n, keep, ops[..i], slug);
    && past.Some?
    && ((Commits(ops[i], keep, slug) && ops[i].id == id)
        || (RollsBack(ops[i], past.value, keep, slug) && ops[i].id == id))
  }

  /** The current deploy is the one named last, by a commit or a rollback, until the site is unlinked. */
  lemma CurrentIsNamedLast(n: Node, keep: int, ops: seq<Op>, slug: string, i: nat, id: string)
    requires i < |ops| && Names(n, keep, ops, i, slug, id)
    requires forall k, other :: i < k < |ops| ==> !Names(n, keep, ops, k, slug, other)
    requires forall k :: i < k < |ops| ==> !Unlinks(ops[k], slug)
    ensures slug in Run(n, keep, ops).sites && Run(n, keep, ops).sites[slug].current == id
  {
    NamedLast(n, keep, ops, slug, i, id);
    SiteIsItsPast(n, keep, ops, slug);
  }

  lemma {:induction false} NamedLast(n: Node, keep: int, ops: seq<Op>, slug: string, i: nat, id: string)
    requires i < |ops| && Names(n, keep, ops, i, slug, id)
    requires forall k, other :: i < k < |ops| ==> !Names(n, keep, ops, k, slug, other)
    requires forall k :: i < k < |ops| ==> !Unlinks(ops[k], slug)
    ensures PastOf(n, keep, ops, slug).Some? && PastOf(n, keep, ops, slug).value.named == id
    decreases |ops|
  {
    var m := |ops| - 1;
    var front := ops[..m];
    if i < m {
      assert forall k: nat :: k < m ==> front[k] == ops[k] && front[..k] == ops[..k];
      forall k, other | i < k < m ensures !Names(n, keep, front, k, slug, other) {
        assert !Names(n, keep, ops, k, slug, other);
      }
      NamedLast(n, keep, front, slug, i, id);
      if ops[m].OpCommit? || ops[m].OpRollback? {
        assert !Names(n, keep, ops, m, slug, ops[m].id);
      }
    }
  }

  /**
   A rollback to a retained deploy makes it current and changes nothing else; rolling back to the deploy that was
   current, if that is retained, restores the node.
   */
  lemma RollbackAndBack(n: Node, slug: string, id: string)
    requires slug in n.sites && id in n.sites[slug].deploys
    ensures var after, site := Rollback(n, slug, id, true), n.sites[slug];
            && after == Node(n.objects, n.sites[slug := Site(site.deploys, id)], n.manifests, n.marked)
            && after.sites.Keys == n.sites.Keys
            && (site.current in site.deploys ==> Rollback(after, slug, site.current, true) == n)
  {
    var site := n.sites[slug];
    assert n.sites[slug := Site(site.deploys, id)][slug := site] == n.sites;
  }

  // ---------------------------------------------------------------- manifests

  /** Every manifest belongs to a retained deploy. */
  ghost predicate NoLeftovers(n: Node) {
    forall key {:trigger key in n.manifests} ::
      key in n.manifests ==> key.slug in n.sites && key.id in n.sites[key.slug].deploys
  }

  /** Every record can be written and every manifest removed. */
  ghost predicate NothingFails(keep: int, ops: seq<Op>) {
    && (forall i :: 0 <= i < |ops| && ops[i].OpCommit? && ops[i].io.wroteDeploy ==>
          SavesSite(keep, ops[i].io) && ops[i].io.stuck == {})
    && (forall i :: 0 <= i < |ops| && ops[i].OpDelete? ==> ops[i].left == {})
  }

  /** When no write and no removal fails, no manifest outlives its deploy, in every run. */
  lemma {:induction false} ManifestsOnlyOfRetained(n: Node, keep: int, ops: seq<Op>)
    requires NoLeftovers(n) && NothingFails(keep, ops)
    ensures NoLeftovers(Run(n, keep, ops))
    decreases |ops|
  {
    if ops != [] {
      var before, op := Run(n, keep, ops[..|ops| - 1]), ops[|ops| - 1];
      ManifestsOnlyOfRetained(n, keep, ops[..|ops| - 1]);
      if op.OpCommit? && op.slug in before.sites && op.io.wroteDeploy {
        CommitLeavesNothing(before, keep, op.slug, op.id, op.files);
      }
    }
  }

  lemma CommitLeavesNothing(n: Node, keep: int, slug: string, id: string, files: seq<Hash>)
    requires NoLeftovers(n) && slug in n.sites && keep >= 0
    ensures NoLeftovers(Commit(n, keep, slug, id, files, CommitIo(true, true, {})))
  {
    var after := Commit(n, keep, slug, id, files, CommitIo(true, true, {}));
    var all := n.sites[slug].deploys + [id];
    assert all == Dropped(all, keep) + Kept(all, keep);
    forall key {:trigger key in after.manifests} | key in after.manifests
      ensures key.slug in after.sites && key.id in after.sites[key.slug].deploys
    {
      if key.slug == slug {
        assert key.id in all;
        assert key.id in Dropped(all, keep) ==> key in KeysOf(slug, Dropped(all, keep), {});
      }
    }
  }

  /** Step `i` writes the manifest of `key`. */
  ghost predicate Writes(n: Node, keep: int, ops: seq<Op>, i: nat, key: DeployKey)
    requires i < |ops|
  {
    && ops[i].OpCommit? && DeployKey(ops[i].slug, ops[i].id) == key && ops[i].io.wroteDeploy
    && PastOf(n, keep, ops[..i], key.slug).Some?
  }

  lemma ManifestStep(n: Node, keep: int, op: Op, key: DeployKey)
    requires key in Next(n, keep, op).manifests
    requires op.OpCommit? && DeployKey(op.slug, op.id) == key ==> key.slug !in n.sites || !op.io.wroteDeploy
    ensures key in n.manifests && n.manifests[key] == Next(n, keep, op).manifests[key]
  {
  }

  /** A manifest lists the files of the last commit that wrote it. */
  lemma {:induction false} ManifestIsWrittenLast(n: Node, keep: int, ops: seq<Op>, i: nat, key: DeployKey)
    requires i < |ops| && Writes(n, keep, ops, i, key)
    requires forall k :: i < k < |ops| ==> !Writes(n, keep, ops, k, key)
    requires key in Run(n, keep, ops).manifests
    ensures Run(n, keep, ops).manifests[key] == ops[i].files
    decreases |ops|
  {
    var m := |ops| - 1;
    var front := ops[..m];
    assert forall k: nat :: k < m ==> front[k] == ops[k] && front[..k] == ops[..k];
    SiteIsItsPast(n, keep, front, key.slug);
    if i < m {
      forall k | i < k < m ensures !Writes(n, keep, front, k, key) {
        assert !Writes(n, keep, ops, k, key);
      }
      assert !Writes(n, keep, ops, m, key);
      ManifestStep(Run(n, keep, front), keep, ops[m], key);
      ManifestIsWrittenLast(n, keep, front, i, key);
    }
  }
}
