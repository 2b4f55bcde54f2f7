/**
 The publish node's object store, deploy handlers and orphan sweeper
 (publish/internal/store/fs.go, publish/internal/server/api.go, publish/internal/server/server.go).
 */
module PublishServer {
  import opened Options
  import opened Bytes
  import opened PublishSpec

  // ---------------------------------------------------------------- accounting

  ghost function TotalSize(objects: set<Hash>): nat {
    if objects == {} then 0
    else
      var h :| h in objects;
      |h.data| + TotalSize(objects - {h})
  }

  lemma {:induction false} TotalSizeRemove(objects: set<Hash>, h: Hash)
    requires h in objects
    ensures TotalSize(objects) == |h.data| + TotalSize(objects - {h})
    decreases |objects|
  {
    var c :| c in objects && TotalSize(objects) == |c.data| + TotalSize(objects - {c});
    if c != h {
      TotalSizeRemove(objects - {c}, h);
      TotalSizeRemove(objects - {h}, c);
      assert objects - {c} - {h} == objects - {h} - {c};
    }
  }

  lemma TotalSizeAdd(objects: set<Hash>, h: Hash)
    requires h !in objects
    ensures TotalSize(objects + {h}) == TotalSize(objects) + |h.data|
  {
    TotalSizeRemove(objects + {h}, h);
    assert objects + {h} - {h} == objects;
  }

  // ---------------------------------------------------------------- the store

  class Store {
    var files: map<Hash, seq<byte>>
    var objIndex: map<Hash, int>
    var totalBytes: int
    var sites: map<string, Site>
    var manifests: map<DeployKey, seq<Hash>>

    /** Every indexed object has its file, every file has the data its name says, and the total is exact. */
    ghost predicate Valid()
      reads this
    {
      && (forall h {:trigger h in files} :: h in files ==> files[h] == h.data)
      && (forall h {:trigger h in objIndex} :: h in objIndex ==> h in files && objIndex[h] == |h.data|)
      && totalBytes == TotalSize(objIndex.Keys)
    }

    constructor ()
      ensures Valid() && objIndex == map[] && sites == map[] && manifests == map[]
    {
      files, objIndex, totalBytes, sites, manifests := map[], map[], 0, map[], map[];
      new;
      assert objIndex.Keys == {};
    }

    /** `PutObject`; `io` tells whether the file can be written. */
    method PutObject(hash: Hash, data: seq<byte>, io: bool) returns (ok: bool)
      requires Valid() && hash == HashOf(data)
      modifies this`files, this`objIndex, this`totalBytes
      ensures Valid() && ok == (io || hash in old(objIndex))
      ensures objIndex.Keys == if ok then old(objIndex.Keys) + {hash} else old(objIndex.Keys)
    {
      if hash in objIndex && hash in files {
        return true;
      }
      if !io {
        return false;
      }
      files := files[hash := data];
      TotalSizeAdd(objIndex.Keys, hash);
      assert objIndex[hash := |data|].Keys == objIndex.Keys + {hash};
      objIndex := objIndex[hash := |data|];
      totalBytes := totalBytes + |data|;
      ok := true;
    }

    /** `OpenObject`: whatever is served under a hash has that hash. */
    method OpenObject(hash: Hash) returns (r: Option<seq<byte>>)
      requires Valid()
      ensures r == if hash in objIndex then Some(hash.data) else None
    {
      if hash !in objIndex {
        return None;
      }
      r := Some(files[hash]);
    }

    /** `DeleteObject`: the index entry goes even when the file cannot be removed. */
    method DeleteObject(hash: Hash, stuck: bool)
      requires Valid()
      modifies this`files, this`objIndex, this`totalBytes
      ensures Valid() && objIndex.Keys == old(objIndex.Keys) - {hash}
    {
      if hash in objIndex {
        TotalSizeRemove(objIndex.Keys, hash);
        assert (objIndex - {hash}).Keys == objIndex.Keys - {hash};
        totalBytes := totalBytes - objIndex[hash];
        objIndex := objIndex - {hash};
      }
      if !stuck {
        files := files - {hash};
      }
    }
  }

  // ---------------------------------------------------------------- the server

  class Server {
    const store: Store
    const keepDeploys: int
    var marked: set<Hash>

    constructor (s: Store, keep: int)
      ensures store == s && keepDeploys == keep && marked == {}
    {
      store, keepDeploys, marked := s, keep, {};
    }

    ghost function State(): Node
      reads this, store
    {
      Node(store.objIndex.Keys, store.sites, store.manifests, marked)
    }

    /** What the sweeper finds referenced: the files of every manifest of a retained deploy. */
    method CollectRefs() returns (refs: set<Hash>)
      ensures forall h {:trigger h in refs} {:trigger Needed(State(), h)} :: h in refs <==> Needed(State(), h)
    {
      refs := {};
      var slugs := store.sites.Keys;
      while slugs != {}
        invariant slugs <= store.sites.Keys
        invariant forall h {:trigger h in refs} :: h in refs <==> Found(store.sites, store.manifests, slugs, h)
        decreases slugs
      {
        var slug :| slug in slugs;
        var deploys := store.sites[slug].deploys;
        var here: set<Hash> := {};
        for i := 0 to |deploys|
          invariant forall h {:trigger h in here} :: h in here <==> FoundIn(store.manifests, slug, deploys[..i], h)
        {
          var key := DeployKey(slug, deploys[i]);
          assert deploys[..i + 1] == deploys[..i] + [deploys[i]];
          if key in store.manifests {
            here := here + FilesOf(store.manifests[key]);
          }
        }
        assert deploys[..|deploys|] == deploys;
        refs := refs + here;
        slugs := slugs - {slug};
      }
      forall h {:trigger Needed(State(), h)} ensures h in refs <==> Needed(State(), h) {
        FoundAll(store.sites, store.manifests, h);
      }
    }

    /** `sweepOrphans`. */
    method SweepOrphans(stuck: set<Hash>)
      requires store.Valid()
      modifies this, store`files, store`objIndex, store`totalBytes
      ensures store.Valid() && State() == Sweep(old(State()))
    {
      ghost var before := State();
      var refs := CollectRefs();
      var freshMarks := {};
      var objs := store.objIndex.Keys;
      while objs != {}
        invariant objs <= before.objects && freshMarks == Orphans(before, before.objects - objs)
        decreases objs
      {
        var h :| h in objs;
        if h !in refs {
          freshMarks := freshMarks + {h};
        }
        objs := objs - {h};
        assert Needed(before, h) <==> h in refs;
      }
      assert before.objects - {} == before.objects;
      var left := marked;
      while left != {}
        invariant store.Valid() && left <= marked == before.marked
        invariant store.objIndex.Keys == before.objects - Orphans(before, before.marked - left)
        invariant freshMarks == Orphans(before, before.objects) - Orphans(before, before.marked - left)
        invariant store.sites == before.sites && store.manifests == before.manifests
        decreases left
      {
        var h :| h in left;
        assert Needed(before, h) <==> h in refs;
        if h !in refs {
          store.DeleteObject(h, h in stuck);
          freshMarks := freshMarks - {h};
        }
        left := left - {h};
      }
      assert before.marked - {} == before.marked;
      marked := freshMarks;
    }

    /**
     The end of `handleDeploy`: the manifest, the trimming loop, the site record. The loop may ask for the oldest of no
     deploys, which ends the request.
     */
    method CommitDeploy(slug: string, id: string, files: seq<Hash>, io: CommitIo) returns (panicked: bool)
      requires slug in store.sites
      modifies store`sites, store`manifests
      ensures State() == Commit(old(State()), keepDeploys, slug, id, files, io)
      ensures panicked <==> io.wroteDeploy && keepDeploys < 0
    {
      panicked := false;
      if !io.wroteDeploy {
        return;
      }
      store.manifests := store.manifests[DeployKey(slug, id) := files];
      var deploys := store.sites[slug].deploys + [id];
      ghost var all, written := deploys, store.manifests;
      while |deploys| > keepDeploys
        invariant |deploys| <= |all| && deploys == all[|all| - |deploys|..]
        invariant |all| <= keepDeploys ==> deploys == all
        invariant |all| > keepDeploys ==> |deploys| >= keepDeploys
        invariant store.manifests == written - KeysOf(slug, all[..|all| - |deploys|], io.stuck)
        invariant store.sites == old(store.sites)
        decreases |deploys|
      {
        if deploys == [] {
          assert all[..|all|] == all;
          return true;
        }
        var oldest := deploys[0];
        deploys := deploys[1..];
        if oldest !in io.stuck {
          store.manifests := store.manifests - {DeployKey(slug, oldest)};
        }
      }
      assert deploys == Kept(all, keepDeploys) && all[..|all| - |deploys|] == Dropped(all, keepDeploys);
      if io.wroteSite {
        store.sites := store.sites[slug := Site(deploys, id)];
      }
    }

    /** `handleRollback`: only to a deploy that is retained. */
    method HandleRollback(slug: string, id: string, wroteSite: bool) returns (found: bool)
      modifies store`sites
      ensures State() == Rollback(old(State()), slug, id, wroteSite)
      ensures found <==> slug in old(store.sites) && id in old(store.sites)[slug].deploys
      ensures var before := old(store.sites);
              store.sites ==
              if found && wroteSite then before[slug := Site(before[slug].deploys, id)] else before
    {
      if slug !in store.sites {
        return false;
      }
      var deploys := store.sites[slug].deploys;
      found := false;
      for i := 0 to |deploys|
        invariant found <==> id in deploys[..i]
      {
        assert deploys[..i + 1] == deploys[..i] + [deploys[i]];
        if deploys[i] == id {
          found := true;
        }
      }
      assert deploys[..|deploys|] == deploys;
      if found && wroteSite {
        store.sites := store.sites[slug := Site(deploys, id)];
      }
    }

    /**
     `handleDeleteSite`: a failure to unlink the site record is ignored, and the manifests in `left` could not be
     removed. The objects stay, as orphans for the sweeper.
     */
    method HandleDeleteSite(slug: string, unlinked: bool, left: set<string>)
      modifies store`sites, store`manifests
      ensures State() == DeleteSite(old(State()), slug, unlinked, left)
      ensures store.objIndex == old(store.objIndex) && marked == old(marked)
      ensures old(Retained(State())) ==> Retained(State())
      ensures old(HasManifests(State())) && unlinked ==> HasManifests(State())
    {
      ghost var before := State();
      if slug !in store.sites {
        return;
      }
      if unlinked {
        store.sites := store.sites - {slug};
      }
      store.manifests :=
        map key | key in store.manifests && (key.slug != slug || key.id in left) :: store.manifests[key];
      if Retained(before) {
        OtherKeepsRetained(before, keepDeploys, OpDelete(slug, unlinked, left));
      }
      if HasManifests(before) {
        DeleteKeepsManifestsIff(before, slug, unlinked, left);
      }
    }

    /** An operation of another request, or of the sweeper. */
    method Serve(op: Op)
      requires store.Valid()
      modifies this, store
      ensures store.Valid() && State() == Next(old(State()), keepDeploys, op)
    {
      match op
      case OpUpload(h) =>
        var stored := store.PutObject(h, h.data, true);
      case OpCommit(slug, id, files, io) =>
        if slug in store.sites {
          var panicked := CommitDeploy(slug, id, files, io);
        }
      case OpRollback(slug, id, wroteSite) =>
        var found := HandleRollback(slug, id, wroteSite);
      case OpDelete(slug, unlinked, left) => HandleDeleteSite(slug, unlinked, left);
      case OpCreate(slug) =>
        if slug !in store.sites {
          store.sites := store.sites[slug := Site([], "")];
        }
      case OpSweep => SweepOrphans({});
    }

    method ServeAll(ops: seq<Op>)
      requires store.Valid()
      modifies this, store
      ensures store.Valid() && State() == Run(old(State()), keepDeploys, ops)
    {
      for i := 0 to |ops|
        invariant store.Valid() && State() == Run(old(State()), keepDeploys, ops[..i])
      {
        assert ops[..i + 1][..i] == ops[..i];
        Serve(ops[i]);
      }
      assert ops[..|ops|] == ops;
    }

    /**
     `handleDeploy`: objects are stored one by one until the bundle ends, is bad, or one is neither stored already nor
     writable; then the deploy commits. What other requests and the sweeper do before each file, and before the
     commit, is `between`. The bundle is bad from file `good` on; the objects in `unwritable` cannot be written;
     `stored` files are uploaded.
     */
    method HandleDeploy(slug: string, id: string, bundle: seq<seq<byte>>, good: nat, unwritable: set<Hash>,
                        io: CommitIo, between: seq<seq<Op>>)
      returns (stored: nat)
      requires store.Valid() && |between| == |bundle| + 1
      modifies this, store
      ensures store.Valid() && stored <= |bundle|
      ensures slug !in old(store.sites) ==> State() == old(State())
      ensures slug in old(store.sites) ==>
                var n := Run(old(State()), keepDeploys, DeployOps(Hashes(bundle)[..stored], between[..stored + 1]));
                State() == if stored < |bundle| then n else Commit(n, keepDeploys, slug, id, Hashes(bundle), io)
      ensures slug in old(store.sites) && stored < |bundle| ==>
                stored == good || (HashOf(bundle[stored]) in unwritable && HashOf(bundle[stored]) !in store.objIndex)
    {
      stored := 0;
      if slug !in store.sites {
        return;
      }
      ghost var before, hashes := State(), Hashes(bundle);
      ServeAll(between[0]);
      OpsBeforeFirst(between[..1]);
      while stored < |bundle|
        invariant stored <= |bundle| && store.Valid()
        invariant State() == Run(before, keepDeploys, DeployOps(hashes[..stored], between[..stored + 1]))
      {
        if stored == good {
          return;
        }
        var ok := store.PutObject(HashOf(bundle[stored]), bundle[stored], HashOf(bundle[stored]) !in unwritable);
        if !ok {
          return;
        }
        ServeAll(between[stored + 1]);
        OpsGrow(before, keepDeploys, hashes, between, stored);
        stored := stored + 1;
      }
      assert hashes[..stored] == hashes;
      if slug in store.sites {
        var panicked := CommitDeploy(slug, id, Hashes(bundle), io);
      }
    }
  }

  function FilesOf(files: seq<Hash>): set<Hash> {
    set h | h in files
  }

  function Hashes(bundle: seq<seq<byte>>): (hashes: seq<Hash>)
    ensures |hashes| == |bundle|
  {
    seq(|bundle|, i requires 0 <= i < |bundle| => HashOf(bundle[i]))
  }

  /** One of these deploys of a site has a manifest that lists `h`. */
  ghost predicate FoundIn(manifests: map<DeployKey, seq<Hash>>, slug: string, deploys: seq<string>, h: Hash) {
    exists id {:trigger DeployKey(slug, id)} :: id in deploys && DeployKey(slug, id) in manifests
        && h in manifests[DeployKey(slug, id)]
  }

  /** Some site outside `todo` has a retained deploy that lists `h`. */
  ghost predicate Found(sites: map<string, Site>, manifests: map<DeployKey, seq<Hash>>, todo: set<string>, h: Hash) {
    exists slug {:trigger sites[slug]} :: slug in sites && slug !in todo
        && FoundIn(manifests, slug, sites[slug].deploys, h)
  }

  lemma FoundAll(sites: map<string, Site>, manifests: map<DeployKey, seq<Hash>>, h: Hash)
    ensures Found(sites, manifests, {}, h) <==> Referenced(sites, manifests, h)
  {
    if Referenced(sites, manifests, h) {
      var slug, id :| Refers(sites, manifests, slug, id, h);
      assert FoundIn(manifests, slug, sites[slug].deploys, h);
    }
    if Found(sites, manifests, {}, h) {
      var slug :| slug in sites && FoundIn(manifests, slug, sites[slug].deploys, h);
      var id :| id in sites[slug].deploys && DeployKey(slug, id) in manifests && h in manifests[DeployKey(slug, id)];
      assert Refers(sites, manifests, slug, id, h);
    }
  }

  /** The operations of a deploy that uploads these files, with what happens before each of them and afterwards. */
  function DeployOps(files: seq<Hash>, between: seq<seq<Op>>): (ops: seq<Op>)
    requires |between| == |files| + 1
  {
    if files == [] then between[0]
    else
      var n := |files| - 1;
      DeployOps(files[..n], between[..n + 1]) + [OpUpload(files[n])] + between[n + 1]
  }

  lemma OpsBeforeFirst(between: seq<seq<Op>>)
    requires |between| == 1
    ensures DeployOps([], between) == between[0]
  {
  }

  lemma {:induction false} RunAppend(n: Node, keep: int, a: seq<Op>, b: seq<Op>)
    ensures Run(n, keep, a + b) == Run(Run(n, keep, a), keep, b)
    decreases |b|
  {
    if b == [] {
      assert a + b == a;
    } else {
      assert (a + b)[..|a + b| - 1] == a + b[..|b| - 1];
      RunAppend(n, keep, a, b[..|b| - 1]);
    }
  }

  lemma OpsGrow(n: Node, keep: int, files: seq<Hash>, between: seq<seq<Op>>, k: nat)
    requires k < |files| && |between| == |files| + 1
    ensures var before := Run(n, keep, DeployOps(files[..k], between[..k + 1]));
            Run(Upload(before, files[k]), keep, between[k + 1]) ==
            Run(n, keep, DeployOps(files[..k + 1], between[..k + 2]))
  {
    var ops := DeployOps(files[..k], between[..k + 1]);
    assert files[..k + 1][..k] == files[..k] && between[..k + 2][..k + 1] == between[..k + 1];
    RunAppend(n, keep, ops + [OpUpload(files[k])], between[k + 1]);
    assert (ops + [OpUpload(files[k])])[..|ops|] == ops;
  }

  lemma {:induction false} NothingBetween(files: seq<Hash>, between: seq<seq<Op>>)
    requires |between| == |files| + 1 && forall i :: 0 <= i < |between| ==> between[i] == []
    ensures DeployOps(files, between) == Uploads(files)
    decreases |files|
  {
    if files != [] {
      var n := |files| - 1;
      NothingBetween(files[..n], between[..n + 1]);
      assert between[n + 1] == [];
      assert Uploads(files) == Uploads(files[..n]) + [OpUpload(files[n])];
    }
  }

  /** With nothing in between the handler does what the specification says of a deploy that runs alone. */
  lemma AloneIsHandled(n: Node, keep: int, slug: string, id: string, files: seq<Hash>, stored: nat, io: CommitIo,
                       between: seq<seq<Op>>)
    requires slug in n.sites && stored <= |files| && |between| == |files| + 1
    requires forall i :: 0 <= i < |between| ==> between[i] == []
    ensures var after := Run(n, keep, DeployOps(files[..stored], between[..stored + 1]));
            Handle(n, keep, Deploy(slug, id, files, stored, io)) ==
            if stored < |files| then after else Commit(after, keep, slug, id, files, io)
  {
    NothingBetween(files[..stored], between[..stored + 1]);
    if stored == |files| {
      assert files[..stored] == files;
    }
  }
}
