/**
 The publish node as a state machine: objects stored by content hash, deploy manifests, sites with their retained
 deploys, and the marks of the two-pass sweeper
 (publish/internal/server/server.go, publish/internal/server/api.go, publish/internal/store/fs.go).
 */
module PublishSpec {
  import opened Options
  import opened Bytes

  /** The hash of an object's data; a constructor, so different data have different hashes. */
  datatype Hash = HashOf(data: seq<byte>)

  /** `current` is empty before the first deploy. */
  datatype Site = Site(deploys: seq<string>, current: string)

  datatype DeployKey = DeployKey(slug: string, id: string)

  datatype Node = Node(objects: set<Hash>, sites: map<string, Site>, manifests: map<DeployKey, seq<Hash>>,
      marked: set<Hash>)

  // ---------------------------------------------------------------- references

  /** Deploy `id` of site `slug` is retained, has a manifest, and lists `h`. */
  ghost predicate Refers(sites: map<string, Site>, manifests: map<DeployKey, seq<Hash>>, slug: string, id: string,
                         h: Hash) {
    && slug in sites && id in sites[slug].deploys
    && DeployKey(slug, id) in manifests && h in manifests[DeployKey(slug, id)]
  }

  ghost predicate Referenced(sites: map<string, Site>, manifests: map<DeployKey, seq<Hash>>, h: Hash) {
    exists slug, id {:trigger Refers(sites, manifests, slug, id, h)} :: Refers(sites, manifests, slug, id, h)
  }

  ghost predicate Needed(n: Node, h: Hash) {
    Referenced(n.sites, n.manifests, h)
  }

  /** Every object a retained deploy lists is stored. */
  ghost predicate Retained(n: Node) {
    forall h {:trigger Needed(n, h)} :: Needed(n, h) ==> h in n.objects
  }

  /** The current deploy of every site is one of its retained deploys. */
  ghost predicate CurrentRetained(n: Node) {
    forall slug {:trigger slug in n.sites} :: slug in n.sites ==>
      n.sites[slug].current == "" || n.sites[slug].current in n.sites[slug].deploys
  }

  /** Every retained deploy has its manifest. */
  ghost predicate HasManifests(n: Node) {
    forall slug, id {:trigger DeployKey(slug, id)} ::
      slug in n.sites && id in n.sites[slug].deploys ==> DeployKey(slug, id) in n.manifests
  }

  // ---------------------------------------------------------------- the operations

  /** Which of the two writes of a commit succeed, and the dropped deploys whose manifest cannot be removed. */
  datatype CommitIo = CommitIo(wroteDeploy: bool, wroteSite: bool, stuck: set<string>)

  function Upload(n: Node, h: Hash): Node {
    Node(n.objects + {h}, n.sites, n.manifests, n.marked)
  }

  /** `for len(deploys) > keep`: the oldest deploys that are dropped, and the ones that stay. */
  function Dropped(deploys: seq<string>, keep: int): seq<string> {
    if keep < 0 then deploys
    else if |deploys| > keep then deploys[..|deploys| - keep]
    else []
  }

  function Kept(deploys: seq<string>, keep: int): seq<string> {
    if keep < 0 then []
    else if |deploys| > keep then deploys[|deploys| - keep..]
    else deploys
  }

  function KeysOf(slug: string, ids: seq<string>, stuck: set<string>): set<DeployKey> {
    set id | id in ids && id !in stuck :: DeployKey(slug, id)
  }

  /**
   The site record is written. The limit is a flag nobody checks: with a negative one the trimming loop goes on when no
   deploy is left, and the request ends there.
   */
  predicate SavesSite(keep: int, io: CommitIo) {
    io.wroteSite && keep >= 0
  }

  /**
   The end of `handleDeploy`: the manifest is written, the oldest deploys are dropped, the site record is written.
   Failures to remove the manifest of a dropped deploy are ignored.
   */
  function Commit(n: Node, keep: int, slug: string, id: string, files: seq<Hash>, io: CommitIo): Node {
    if slug !in n.sites || !io.wroteDeploy then n
    else
      var deploys := n.sites[slug].deploys + [id];
      Node(n.objects,
           if SavesSite(keep, io) then n.sites[slug := Site(Kept(deploys, keep), id)] else n.sites,
           n.manifests[DeployKey(slug, id) := files] - KeysOf(slug, Dropped(deploys, keep), io.stuck),
           n.marked)
  }

  /** `handleRollback`. */
  function Rollback(n: Node, slug: string, id: string, wroteSite: bool): Node {
    if slug !in n.sites || id !in n.sites[slug].deploys || !wroteSite then n
    else Node(n.objects, n.sites[slug := Site(n.sites[slug].deploys, id)], n.manifests, n.marked)
  }

  /**
   `handleDeleteSite`: the site record is unlinked, a failure being ignored, and the manifests are removed; those in
   `left` stay when that fails half-way.
   */
  function DeleteSite(n: Node, slug: string, unlinked: bool, left: set<string>): Node {
    if slug !in n.sites then n
    else
      Node(n.objects, if unlinked then n.sites - {slug} else n.sites,
           map key | key in n.manifests && (key.slug != slug || key.id in left) :: n.manifests[key], n.marked)
  }

  function CreateSite(n: Node, slug: string): Node {
    if slug in n.sites then n else Node(n.objects, n.sites[slug := Site([], "")], n.manifests, n.marked)
  }

  /** `sweepOrphans`: what was marked and is still unreferenced goes; what is seen unreferenced first is marked. */
  ghost function Sweep(n: Node): Node {
    Node(n.objects - Orphans(n, n.marked), n.sites, n.manifests, Orphans(n, n.objects) - n.marked)
  }

  ghost function Orphans(n: Node, among: set<Hash>): set<Hash> {
    set h | h in among && !Needed(n, h)
  }

  datatype Op =
    | OpUpload(h: Hash)
    | OpCommit(slug: string, id: string, files: seq<Hash>, io: CommitIo)
    | OpRollback(slug: string, id: string, wroteSite: bool)
    | OpDelete(slug: string, unlinked: bool, left: set<string>)
    | OpCreate(slug: string)
    | OpSweep

  ghost function Next(n: Node, keep: int, op: Op): Node {
    match op
    case OpUpload(h) => Upload(n, h)
    case OpCommit(slug, id, files, io) => Commit(n, keep, slug, id, files, io)
    case OpRollback(slug, id, wroteSite) => Rollback(n, slug, id, wroteSite)
    case OpDelete(slug, unlinked, left) => DeleteSite(n, slug, unlinked, left)
    case OpCreate(slug) => CreateSite(n, slug)
    case OpSweep => Sweep(n)
  }

  ghost function Run(n: Node, keep: int, ops: seq<Op>): Node {
    if ops == [] then n else Next(Run(n, keep, ops[..|ops| - 1]), keep, ops[|ops| - 1])
  }

  // ---------------------------------------------------------------- retention

  /**
   A commit that takes effect: the site exists, both records are written, and the new deploy is not dropped at once.
   */
  predicate TakesEffect(n: Node, keep: int, slug: string, io: CommitIo) {
    slug in n.sites && io.wroteDeploy && SavesSite(keep, io) && keep > 0
  }

  /** Trimming keeps or drops every deploy, and keeps the newest if it keeps any. */
  lemma KeptOrDropped(deploys: seq<string>, id: string, keep: int, x: string)
    requires id !in deploys
    ensures var all := deploys + [id];
            && (x in Kept(all, keep) ==> x in deploys || x == id)
            && (id in Kept(all, keep) <==> keep > 0)
            && (id in Dropped(all, keep) <==> keep <= 0)
  {
    var all := deploys + [id];
    assert all[|all| - 1] == id && forall k :: 0 <= k < |deploys| ==> all[k] == deploys[k];
    if keep > 0 {
      assert Kept(all, keep)[|Kept(all, keep)| - 1] == id;
    } else {
      assert Dropped(all, keep) == all;
    }
  }

  /** Whatever a commit leaves referenced was referenced before, or is in the new deploy. */
  lemma CommitReferences(n: Node, keep: int, slug: string, id: string, files: seq<Hash>, io: CommitIo, s: string,
                         d: string, h: Hash)
    requires var after := Commit(n, keep, slug, id, files, io);
             Refers(after.sites, after.manifests, s, d, h)
    requires slug in n.sites ==> id !in n.sites[slug].deploys
    ensures Needed(n, h) || (h in files && TakesEffect(n, keep, slug, io))
  {
    if slug in n.sites && io.wroteDeploy && s == slug {
      KeptOrDropped(n.sites[slug].deploys, id, keep, d);
      if d != id {
        assert Refers(n.sites, n.manifests, s, d, h);
      }
    } else {
      assert Refers(n.sites, n.manifests, s, d, h);
    }
  }

  /** A commit keeps every retained object stored exactly when the files of an effective deploy are stored by then. */
  lemma CommitKeepsRetainedIff(n: Node, keep: int, slug: string, id: string, files: seq<Hash>, io: CommitIo)
    requires Retained(n) && (slug in n.sites ==> id !in n.sites[slug].deploys)
    ensures Retained(Commit(n, keep, slug, id, files, io)) <==>
            (TakesEffect(n, keep, slug, io) ==> forall h :: h in files ==> h in n.objects)
  {
    var after := Commit(n, keep, slug, id, files, io);
    if TakesEffect(n, keep, slug, io) {
      KeptOrDropped(n.sites[slug].deploys, id, keep, id);
      assert id !in Dropped(n.sites[slug].deploys + [id], keep);
      forall h | h in files ensures Needed(after, h) {
        assert Refers(after.sites, after.manifests, slug, id, h);
      }
    }
    forall h {:trigger Needed(after, h)} | Needed(after, h)
      ensures Needed(n, h) || (h in files && TakesEffect(n, keep, slug, io))
    {
      var s, d :| Refers(after.sites, after.manifests, s, d, h);
      CommitReferences(n, keep, slug, id, files, io, s, d, h);
    }
  }

  /** A sweep never removes an object a retained deploy lists. */
  lemma SweepKeepsRetained(n: Node)
    requires Retained(n)
    ensures Retained(Sweep(n))
  {
    forall h {:trigger Needed(Sweep(n), h)} | Needed(Sweep(n), h) ensures h in Sweep(n).objects {
      assert Needed(n, h);
    }
  }

  /** Every operation but a commit only drops references. */
  lemma OtherReferences(n: Node, keep: int, op: Op, h: Hash)
    requires !op.OpCommit? && Needed(Next(n, keep, op), h)
    ensures Needed(n, h)
  {
    var after := Next(n, keep, op);
    var s, id :| Refers(after.sites, after.manifests, s, id, h);
    assert Refers(n.sites, n.manifests, s, id, h);
  }

  lemma OtherKeepsRetained(n: Node, keep: int, op: Op)
    requires Retained(n) && !op.OpCommit?
    ensures Retained(Next(n, keep, op))
  {
    if op.OpSweep? {
      SweepKeepsRetained(n);
    } else {
      var next := Next(n, keep, op);
      forall h {:trigger Needed(next, h)} | Needed(next, h) ensures h in next.objects {
        OtherReferences(n, keep, op, h);
      }
    }
  }

  /** What a commit needs: an identifier the site does not retain, and, if it takes effect, its files stored. */
  ghost predicate SoundCommit(n: Node, keep: int, op: Op) {
    op.OpCommit? ==>
      && (op.slug in n.sites ==> op.id !in n.sites[op.slug].deploys)
      && (TakesEffect(n, keep, op.slug, op.io) ==> forall h :: h in op.files ==> h in n.objects)
  }

  ghost predicate SoundRun(n: Node, keep: int, ops: seq<Op>) {
    forall i {:trigger ops[i]} :: 0 <= i < |ops| ==> SoundCommit(Run(n, keep, ops[..i]), keep, ops[i])
  }

  lemma SoundPrefix(n: Node, keep: int, ops: seq<Op>)
    requires ops != [] && SoundRun(n, keep, ops)
    ensures SoundRun(n, keep, ops[..|ops| - 1]) && SoundCommit(Run(n, keep, ops[..|ops| - 1]), keep, ops[|ops| - 1])
  {
    var front := ops[..|ops| - 1];
    forall i {:trigger front[i]} | 0 <= i < |front| ensures SoundCommit(Run(n, keep, front[..i]), keep, front[i]) {
      assert front[..i] == ops[..i] && front[i] == ops[i];
    }
  }

  /** In every interleaving of uploads, commits, rollbacks, deletions and sweeps, retained objects stay stored. */
  lemma {:induction false} RetainedInEveryRun(n: Node, keep: int, ops: seq<Op>)
    requires Retained(n) && SoundRun(n, keep, ops)
    ensures Retained(Run(n, keep, ops))
    decreases |ops|
  {
    if ops != [] {
      var front, op := ops[..|ops| - 1], ops[|ops| - 1];
      SoundPrefix(n, keep, ops);
      RetainedInEveryRun(n, keep, front);
      if op.OpCommit? {
        CommitKeepsRetainedIff(Run(n, keep, front), keep, op.slug, op.id, op.files, op.io);
      } else {
        OtherKeepsRetained(Run(n, keep, front), keep, op);
      }
    }
  }

  // ---------------------------------------------------------------- deploys at once

  /** A deploy nothing else happens in: its files are uploaded one by one, then it commits. */
  function Uploads(files: seq<Hash>): (ops: seq<Op>)
    ensures |ops| == |files|
  {
    seq(|files|, i requires 0 <= i < |files| => OpUpload(files[i]))
  }

  lemma {:induction false} UploadedAll(n: Node, keep: int, files: seq<Hash>)
    ensures var after := Run(n, keep, Uploads(files));
            && after.sites == n.sites && after.manifests == n.manifests && after.marked == n.marked
            && after.objects == n.objects + set h | h in files
    decreases |files|
  {
    if files != [] {
      var front := files[..|files| - 1];
      UploadedAll(n, keep, front);
      assert Uploads(files)[..|files| - 1] == Uploads(front);
      assert files == front + [files[|files| - 1]];
    }
  }

  /**
   One request handled without anything in between. A deploy stops after `uploaded` files if its bundle is bad;
   one refused for its quota is one whose manifest is not written.
   */
  datatype Request =
    | Deploy(slug: string, id: string, files: seq<Hash>, uploaded: nat, io: CommitIo)
    | Other(op: Op)

  ghost function Handle(n: Node, keep: int, r: Request): Node {
    match r
    case Deploy(slug, id, files, uploaded, io) =>
      if slug !in n.sites then n
      else if uploaded < |files| then Run(n, keep, Uploads(files[..uploaded]))
      else Commit(Run(n, keep, Uploads(files)), keep, slug, id, files, io)
    case Other(op) => Next(n, keep, op)
  }

  ghost function HandleAll(n: Node, keep: int, rs: seq<Request>): Node {
    if rs == [] then n else Handle(HandleAll(n, keep, rs[..|rs| - 1]), keep, rs[|rs| - 1])
  }

  /** Deploys commit only as a whole, under identifiers the site does not retain. */
  ghost predicate Proper(n: Node, r: Request) {
    match r
    case Deploy(slug, id, _, _, _) => slug in n.sites ==> id !in n.sites[slug].deploys
    case Other(op) => !op.OpCommit?
  }

  ghost predicate AllProper(n: Node, keep: int, rs: seq<Request>) {
    rs != [] ==>
      && AllProper(n, keep, rs[..|rs| - 1])
      && Proper(HandleAll(n, keep, rs[..|rs| - 1]), rs[|rs| - 1])
  }

  lemma HandleKeepsRetained(n: Node, keep: int, r: Request)
    requires Retained(n) && Proper(n, r)
    ensures Retained(Handle(n, keep, r))
  {
    match r
    case Deploy(slug, id, files, uploaded, io) =>
      var sent := if uploaded < |files| then files[..uploaded] else files;
      var mid := Run(n, keep, Uploads(sent));
      UploadedAll(n, keep, sent);
      forall h {:trigger Needed(mid, h)} | Needed(mid, h) ensures h in mid.objects {
        assert Needed(n, h);
      }
      if uploaded >= |files| {
        CommitKeepsRetainedIff(mid, keep, slug, id, files, io);
      }
    case Other(op) => OtherKeepsRetained(n, keep, op);
  }

  /** With each deploy atomic, every object of a retained deploy stays stored over every run. */
  lemma {:induction false} AtomicDeploysStayStored(n: Node, keep: int, rs: seq<Request>)
    requires Retained(n) && AllProper(n, keep, rs)
    ensures Retained(HandleAll(n, keep, rs))
    decreases |rs|
  {
    if rs != [] {
      AtomicDeploysStayStored(n, keep, rs[..|rs| - 1]);
      HandleKeepsRetained(HandleAll(n, keep, rs[..|rs| - 1]), keep, rs[|rs| - 1]);
    }
  }

  // ---------------------------------------------------------------- what the sweeper takes, and when

  lemma MarksStay(n: Node, keep: int, op: Op)
    requires !op.OpSweep?
    ensures Next(n, keep, op).marked == n.marked && n.objects <= Next(n, keep, op).objects
    ensures !op.OpUpload? ==> Next(n, keep, op).objects == n.objects
  {
  }

  ghost predicate NoSweep(ops: seq<Op>) {
    forall i :: 0 <= i < |ops| ==> !ops[i].OpSweep?
  }

  lemma {:induction false} BetweenSweeps(n: Node, keep: int, ops: seq<Op>)
    requires NoSweep(ops)
    ensures Run(n, keep, ops).marked == n.marked && n.objects <= Run(n, keep, ops).objects
    decreases |ops|
  {
    if ops != [] {
      BetweenSweeps(n, keep, ops[..|ops| - 1]);
      MarksStay(Run(n, keep, ops[..|ops| - 1]), keep, ops[|ops| - 1]);
    }
  }

  /** An object that is absent at one sweep survives the next. */
  lemma AbsentAtOneSurvivesNext(n: Node, keep: int, ops: seq<Op>, h: Hash)
    requires NoSweep(ops) && h !in n.objects
    ensures var later := Run(Sweep(n), keep, ops);
            h in later.objects ==> h in Sweep(later).objects
  {
    BetweenSweeps(Sweep(n), keep, ops);
  }

  /**
   An object that no retained deploy lists at two consecutive sweeps is gone after the second,
   unless it was absent after the first and stored again in between.
   */
  lemma UnneededTwiceIsGoneIff(n: Node, keep: int, ops: seq<Op>, h: Hash)
    requires NoSweep(ops) && !Needed(n, h) && !Needed(Run(Sweep(n), keep, ops), h)
    ensures var later := Run(Sweep(n), keep, ops);
            h !in Sweep(later).objects <==> h in Sweep(n).objects || h !in later.objects
  {
    BetweenSweeps(Sweep(n), keep, ops);
  }

  // ---------------------------------------------------------------- deploys in flight

  /** Step `i` is a sweep that finds no retained deploy listing `h`. */
  ghost predicate UnneededSweep(n: Node, keep: int, ops: seq<Op>, i: nat, h: Hash) {
    i < |ops| && ops[i].OpSweep? && !Needed(Run(n, keep, ops[..i]), h)
  }

  predicate NoSweepIn(ops: seq<Op>, from: nat, to: nat)
    requires to <= |ops|
  {
    forall k {:trigger ops[k]} :: from <= k < to ==> !ops[k].OpSweep?
  }

  /**
   The sweeper has `h` on its list before step `i`: the last sweep after step `j` found it unneeded, or there was none
   and it was on the list at step `j`.
   */
  ghost predicate ListedBefore(n: Node, keep: int, ops: seq<Op>, j: nat, i: nat, h: Hash)
    requires j <= i <= |ops|
  {
    || (NoSweepIn(ops, j, i) && h in Run(n, keep, ops[..j]).marked)
    || exists k: nat {:trigger UnneededSweep(n, keep, ops, k, h)} ::
         j < k < i && UnneededSweep(n, keep, ops, k, h) && NoSweepIn(ops, k + 1, i)
  }

  /** After step `j` some sweep finds `h` on the sweeper's list and still unneeded. */
  ghost predicate LostSince(n: Node, keep: int, ops: seq<Op>, j: nat, h: Hash) {
    exists i: nat {:trigger UnneededSweep(n, keep, ops, i, h)} ::
      j < i < |ops| && UnneededSweep(n, keep, ops, i, h) && ListedBefore(n, keep, ops, j, i, h)
  }

  lemma SameInFront(n: Node, keep: int, ops: seq<Op>, m: nat, i: nat, h: Hash)
    requires i < m <= |ops|
    ensures UnneededSweep(n, keep, ops[..m], i, h) <==> UnneededSweep(n, keep, ops, i, h)
  {
    assert ops[..m][..i] == ops[..i];
  }

  lemma ListedInFront(n: Node, keep: int, ops: seq<Op>, m: nat, j: nat, i: nat, h: Hash)
    requires j <= i <= m <= |ops|
    ensures ListedBefore(n, keep, ops[..m], j, i, h) <==> ListedBefore(n, keep, ops, j, i, h)
  {
    assert ops[..m][..j] == ops[..j];
    forall from: nat | from <= i ensures NoSweepIn(ops[..m], from, i) <==> NoSweepIn(ops, from, i) {
      assert forall k :: from <= k < i ==> ops[..m][k] == ops[k];
    }
    forall k: nat | k < i ensures UnneededSweep(n, keep, ops[..m], k, h) <==> UnneededSweep(n, keep, ops, k, h) {
      SameInFront(n, keep, ops, m, k, h);
    }
  }

  /** One more step: the list changes only at a sweep, and then holds what the sweep finds unneeded. */
  lemma ListedStep(n: Node, keep: int, ops: seq<Op>, j: nat, m: nat, h: Hash)
    requires j < m < |ops|
    ensures ListedBefore(n, keep, ops, j, m + 1, h) <==>
            if ops[m].OpSweep? then UnneededSweep(n, keep, ops, m, h) else ListedBefore(n, keep, ops, j, m, h)
  {
    if ops[m].OpSweep? {
      if UnneededSweep(n, keep, ops, m, h) {
        assert NoSweepIn(ops, m + 1, m + 1);
      }
    } else {
      forall from: nat | from <= m ensures NoSweepIn(ops, from, m + 1) <==> NoSweepIn(ops, from, m) {
      }
    }
  }

  lemma LostStep(n: Node, keep: int, ops: seq<Op>, j: nat, m: nat, h: Hash)
    requires j < m == |ops| - 1
    ensures LostSince(n, keep, ops, j, h) <==>
            LostSince(n, keep, ops[..m], j, h) ||
            (UnneededSweep(n, keep, ops, m, h) && ListedBefore(n, keep, ops, j, m, h))
  {
    forall i: nat | j < i < m
      ensures UnneededSweep(n, keep, ops[..m], i, h) <==> UnneededSweep(n, keep, ops, i, h)
      ensures ListedBefore(n, keep, ops[..m], j, i, h) <==> ListedBefore(n, keep, ops, j, i, h)
    {
      SameInFront(n, keep, ops, m, i, h);
      ListedInFront(n, keep, ops, m, j, i, h);
    }
  }

  /** What one step does to an object that it does not upload. */
  lemma ObjectStep(n: Node, keep: int, op: Op, h: Hash)
    requires op != OpUpload(h)
    ensures var next := Next(n, keep, op);
            && (h in next.objects <==> h in n.objects && !(op.OpSweep? && h in n.marked && !Needed(n, h)))
            && (h in next.objects ==>
                  (h in next.marked <==> if op.OpSweep? then !Needed(n, h) else h in n.marked))
  {
  }

  /** An object is stored since its last upload exactly as long as no sweep takes it. */
  lemma {:induction false} StoredSince(n: Node, keep: int, ops: seq<Op>, j: nat, h: Hash)
    requires j < |ops| && ops[j] == OpUpload(h) && forall k :: j < k < |ops| ==> ops[k] != OpUpload(h)
    ensures h in Run(n, keep, ops).objects <==> !LostSince(n, keep, ops, j, h)
    ensures h in Run(n, keep, ops).objects ==>
              (h in Run(n, keep, ops).marked <==> ListedBefore(n, keep, ops, j, |ops|, h))
    decreases |ops|
  {
    var m := |ops| - 1;
    if j == m {
      assert Run(n, keep, ops) == Upload(Run(n, keep, ops[..j]), h);
    } else {
      StoredSince(n, keep, ops[..m], j, h);
      ListedInFront(n, keep, ops, m, j, m, h);
      ListedStep(n, keep, ops, j, m, h);
      LostStep(n, keep, ops, j, m, h);
      ObjectStep(Run(n, keep, ops[..m]), keep, ops[m], h);
    }
  }

  function LastUpload(ops: seq<Op>, h: Hash): (j: nat)
    requires OpUpload(h) in ops
    ensures j < |ops| && ops[j] == OpUpload(h) && forall k :: j < k < |ops| ==> ops[k] != OpUpload(h)
  {
    if ops[|ops| - 1] == OpUpload(h) then |ops| - 1
    else
      assert ops == ops[..|ops| - 1] + [ops[|ops| - 1]];
      LastUpload(ops[..|ops| - 1], h)
  }

  /**
   A deploy in flight, with any uploads, commits, rollbacks, deletions and any number of sweeps in between: its commit
   keeps every retained object stored exactly when, after the last upload of each of its files, no sweep finds the
   file unneeded that the sweep before had found unneeded too, or that was on the sweeper's list when it was uploaded.
   */
  lemma InFlightDeploySafeIff(n: Node, keep: int, ops: seq<Op>, slug: string, id: string, files: seq<Hash>,
                              io: CommitIo)
    requires Retained(n) && SoundRun(n, keep, ops) && forall h :: h in files ==> OpUpload(h) in ops
    requires var before := Run(n, keep, ops);
             TakesEffect(before, keep, slug, io) && id !in before.sites[slug].deploys
    ensures Retained(Commit(Run(n, keep, ops), keep, slug, id, files, io)) <==>
            forall h :: h in files ==> !LostSince(n, keep, ops, LastUpload(ops, h), h)
  {
    RetainedInEveryRun(n, keep, ops);
    CommitKeepsRetainedIff(Run(n, keep, ops), keep, slug, id, files, io);
    forall h | h in files ensures h in Run(n, keep, ops).objects <==> !LostSince(n, keep, ops, LastUpload(ops, h), h) {
      StoredSince(n, keep, ops, LastUpload(ops, h), h);
    }
  }

  /** A new upload survives one sweep but not two: a deploy that takes longer loses it. */
  lemma TwoSweepsTakeNewUpload(h: Hash)
    ensures var n := Node({}, map["s" := Site([], "")], map[], {});
            var ops := [OpUpload(h), OpSweep, OpSweep];
            && Retained(n) && h !in Run(n, 1, ops).objects
            && !Retained(Commit(Run(n, 1, ops), 1, "s", "d", [h], CommitIo(true, true, {})))
  {
    var n := Node({}, map["s" := Site([], "")], map[], {});
    var ops := [OpUpload(h), OpSweep, OpSweep];
    var io := CommitIo(true, true, {});
    assert ops[..2] == [OpUpload(h), OpSweep] && ops[..2][..1] == [OpUpload(h)] && [OpUpload(h)][..0] == [];
    var uploaded := Upload(n, h);
    assert Run(n, 1, []) == n && Run(n, 1, [OpUpload(h)]) == uploaded;
    assert Run(n, 1, ops[..2]) == Sweep(uploaded);
    assert !Needed(uploaded, h) && h in Orphans(uploaded, uploaded.objects) && h in Sweep(uploaded).marked;
    assert !Needed(Sweep(uploaded), h) && h in Orphans(Sweep(uploaded), Sweep(uploaded).marked);
    var swept := Sweep(Sweep(uploaded));
    assert Run(n, 1, ops) == swept;
    CommitKeepsRetainedIff(swept, 1, "s", "d", [h], io);
    assert h in [h];
  }

  /**
   An orphan marked before the upload is swept mid-deploy: the committed deploy lists an object that is not stored.
   */
  lemma MarkedOrphanIsSweptMidDeploy(h: Hash)
    ensures var n := Node({h}, map["s" := Site([], "")], map[], {h});
            var ops := [OpUpload(h), OpSweep, OpCommit("s", "d", [h], CommitIo(true, true, {}))];
            Retained(n) && !Retained(Run(n, 1, ops))
  {
    var n := Node({h}, map["s" := Site([], "")], map[], {h});
    var ops := [OpUpload(h), OpSweep, OpCommit("s", "d", [h], CommitIo(true, true, {}))];
    assert !Needed(n, h) && h in Orphans(n, n.marked);
    assert ops[..2] == [OpUpload(h), OpSweep] && ops[..2][..1] == [OpUpload(h)] && [OpUpload(h)][..0] == [];
    var swept := Sweep(n);
    assert {h} + {h} == {h};
    assert Upload(n, h) == n;
    assert Run(n, 1, []) == n && Run(n, 1, [OpUpload(h)]) == n;
    assert Run(n, 1, ops[..2]) == swept && h !in swept.objects;
    CommitKeepsRetainedIff(swept, 1, "s", "d", [h], CommitIo(true, true, {}));
    assert h in [h];
  }

  // ---------------------------------------------------------------- the current deploy and the manifests

  /**
   A commit that can write the site record makes the new deploy current, and it is retained, unless the limit is zero.
   With a negative one the site record is not reached.
   */
  lemma CommitKeepsCurrentIff(n: Node, keep: int, slug: string, id: string, files: seq<Hash>, stuck: set<string>)
    requires CurrentRetained(n) && slug in n.sites && id != "" && id !in n.sites[slug].deploys
    ensures CurrentRetained(Commit(n, keep, slug, id, files, CommitIo(true, true, stuck))) <==> keep != 0
  {
    var after := Commit(n, keep, slug, id, files, CommitIo(true, true, stuck));
    if keep >= 1 {
      KeptOrDropped(n.sites[slug].deploys, id, keep, id);
    } else if keep == 0 {
      assert slug in after.sites && after.sites[slug] == Site([], id);
    }
  }

  /** The failure at an input: with no deploys kept a site's current deploy is not retained. */
  lemma NoneKeptLosesCurrent(files: seq<Hash>)
    ensures var n := Node({}, map["s" := Site([], "")], map[], {});
            var after := Commit(n, 0, "s", "d", files, CommitIo(true, true, {}));
            CurrentRetained(n) && after.sites["s"].current == "d" && !CurrentRetained(after)
  {
    CommitKeepsCurrentIff(Node({}, map["s" := Site([], "")], map[], {}), 0, "s", "d", files, {});
  }

  lemma StepKeepsCurrent(n: Node, keep: int, op: Op)
    requires CurrentRetained(n) && keep != 0
    requires op.OpCommit? ==> op.id != "" && (op.slug in n.sites ==> op.id !in n.sites[op.slug].deploys)
    ensures CurrentRetained(Next(n, keep, op))
  {
    if op.OpCommit? && op.slug in n.sites {
      CommitKeepsCurrentIff(n, keep, op.slug, op.id, op.files, op.io.stuck);
    }
  }

  ghost predicate FreshIds(n: Node, keep: int, ops: seq<Op>) {
    ops != [] ==>
      var before, op := Run(n, keep, ops[..|ops| - 1]), ops[|ops| - 1];
      && FreshIds(n, keep, ops[..|ops| - 1])
      && (op.OpCommit? ==> op.id != "" && (op.slug in before.sites ==> op.id !in before.sites[op.slug].deploys))
  }

  /** Unless no deploys are kept, every site's current deploy is empty or retained, in every run. */
  lemma {:induction false} CurrentAlwaysRetained(n: Node, keep: int, ops: seq<Op>)
    requires CurrentRetained(n) && keep != 0 && FreshIds(n, keep, ops)
    ensures CurrentRetained(Run(n, keep, ops))
    decreases |ops|
  {
    if ops != [] {
      CurrentAlwaysRetained(n, keep, ops[..|ops| - 1]);
      StepKeepsCurrent(Run(n, keep, ops[..|ops| - 1]), keep, ops[|ops| - 1]);
    }
  }

  /**
   When the manifest is written but the site record is not, because that fails or is not reached, the retained deploys
   keep their manifests exactly when no manifest of theirs was trimmed away: there was room for one more deploy, or the
   removals failed as well.
   */
  lemma FailedSiteWriteIff(n: Node, keep: int, slug: string, id: string, files: seq<Hash>, wroteSite: bool,
                           stuck: set<string>)
    requires HasManifests(n) && slug in n.sites
    requires !SavesSite(keep, CommitIo(true, wroteSite, stuck))
    ensures var deploys := n.sites[slug].deploys;
            HasManifests(Commit(n, keep, slug, id, files, CommitIo(true, wroteSite, stuck))) <==>
            forall d :: d in deploys && d in Dropped(deploys + [id], keep) ==> d in stuck
    ensures HasManifests(Commit(n, keep, slug, id, files, CommitIo(true, wroteSite, {}))) <==>
            n.sites[slug].deploys == [] || |n.sites[slug].deploys| < keep
  {
    FailedSiteWrite(n, keep, slug, id, files, wroteSite, stuck);
    FailedSiteWrite(n, keep, slug, id, files, wroteSite, {});
    var deploys := n.sites[slug].deploys;
    if deploys != [] && |deploys| >= keep {
      assert Dropped(deploys + [id], keep)[0] == deploys[0];
      assert deploys[0] in deploys && deploys[0] in Dropped(deploys + [id], keep);
    } else {
      assert forall x :: x in Dropped(deploys + [id], keep) ==> x == id;
    }
  }

  lemma FailedSiteWrite(n: Node, keep: int, slug: string, id: string, files: seq<Hash>, wroteSite: bool,
                        stuck: set<string>)
    requires HasManifests(n) && slug in n.sites
    requires !SavesSite(keep, CommitIo(true, wroteSite, stuck))
    ensures var deploys := n.sites[slug].deploys;
            HasManifests(Commit(n, keep, slug, id, files, CommitIo(true, wroteSite, stuck))) <==>
            forall d :: d in deploys && d in Dropped(deploys + [id], keep) ==> d in stuck
  {
    var deploys := n.sites[slug].deploys;
    var after := Commit(n, keep, slug, id, files, CommitIo(true, wroteSite, stuck));
    if d :| d in deploys && d in Dropped(deploys + [id], keep) && d !in stuck {
      assert DeployKey(slug, d) !in after.manifests && d in after.sites[slug].deploys;
    }
  }

  /** Two deploys retained of one allowed, or two of two: the new commit trims the first and then fails. */
  lemma FailedSiteWriteLosesManifest(files: seq<Hash>)
    ensures var n := Node({}, map["s" := Site(["a", "b"], "b")],
                          map[DeployKey("s", "a") := [], DeployKey("s", "b") := []], {});
            && HasManifests(n) && CurrentRetained(n)
            && !HasManifests(Commit(n, 2, "s", "c", files, CommitIo(true, false, {})))
            && DeployKey("s", "b") !in Commit(n, 1, "s", "c", files, CommitIo(true, false, {})).manifests
            && Commit(n, 1, "s", "c", files, CommitIo(true, false, {})).sites["s"].current == "b"
  {
    var n := Node({}, map["s" := Site(["a", "b"], "b")],
                  map[DeployKey("s", "a") := [], DeployKey("s", "b") := []], {});
    FailedSiteWriteIff(n, 2, "s", "c", files, false, {});
    assert Dropped(["a", "b"] + ["c"], 1)[1] == "b";
  }

  /** With a negative limit nothing has to fail: the next deploy removes the manifest of the only one. */
  lemma NegativeLimitLosesManifest(files: seq<Hash>)
    ensures var n := Node({}, map["s" := Site(["a"], "a")], map[DeployKey("s", "a") := []], {});
            var after := Commit(n, -1, "s", "b", files, CommitIo(true, true, {}));
            HasManifests(n) && after.sites == n.sites && after.manifests == map[]
  {
    var n := Node({}, map["s" := Site(["a"], "a")], map[DeployKey("s", "a") := []], {});
    assert Dropped(["a"] + ["b"], -1) == ["a", "b"];
    assert DeployKey("s", "a") in KeysOf("s", ["a", "b"], {}) && DeployKey("s", "b") in KeysOf("s", ["a", "b"], {}) by {
      assert "a" in ["a", "b"] && "b" in ["a", "b"];
    }
  }

  /**
   Deleting a site keeps the manifest of every deploy still listed exactly when the site record was unlinked, or
   there was no such site, or none of its manifests was removed.
   */
  lemma DeleteKeepsManifestsIff(n: Node, slug: string, unlinked: bool, left: set<string>)
    requires HasManifests(n)
    ensures HasManifests(DeleteSite(n, slug, unlinked, left)) <==>
            unlinked || slug !in n.sites || forall d :: d in n.sites[slug].deploys ==> d in left
  {
    var after := DeleteSite(n, slug, unlinked, left);
    if !unlinked && slug in n.sites {
      if d :| d in n.sites[slug].deploys && d !in left {
        assert DeployKey(slug, d) !in after.manifests && d in after.sites[slug].deploys;
      }
    }
  }

  /** The record of a site with one deploy stays, its manifest goes. */
  lemma FailedUnlinkLosesManifest(files: seq<Hash>)
    ensures var n := Node({}, map["s" := Site(["d"], "d")], map[DeployKey("s", "d") := files], {});
            HasManifests(n) && !HasManifests(DeleteSite(n, "s", false, {}))
  {
    var n := Node({}, map["s" := Site(["d"], "d")], map[DeployKey("s", "d") := files], {});
    DeleteKeepsManifestsIff(n, "s", false, {});
    assert "d" in n.sites["s"].deploys;
  }

  ghost predicate Distinct(n: Node) {
    forall slug {:trigger n.sites[slug]} :: slug in n.sites ==> NoRepeats(n.sites[slug].deploys)
  }

  /** A commit that reaches the site record keeps the manifest of every deploy it retains. */
  lemma CommitKeepsManifests(n: Node, keep: int, slug: string, id: string, files: seq<Hash>, stuck: set<string>)
    requires HasManifests(n) && Distinct(n) && slug in n.sites && id !in n.sites[slug].deploys && keep >= 0
    ensures HasManifests(Commit(n, keep, slug, id, files, CommitIo(true, true, stuck)))
    ensures Distinct(Commit(n, keep, slug, id, files, CommitIo(true, true, stuck)))
  {
    var after := Commit(n, keep, slug, id, files, CommitIo(true, true, stuck));
    assert NoRepeats(n.sites[slug].deploys);
    KeptApart(n.sites[slug].deploys, id, keep);
    forall s {:trigger after.sites[s]} | s in after.sites ensures NoRepeats(after.sites[s].deploys) {
      assert s != slug ==> NoRepeats(n.sites[s].deploys);
    }
  }

  lemma KeptApart(deploys: seq<string>, id: string, keep: int)
    requires NoRepeats(deploys) && id !in deploys
    ensures NoRepeats(Kept(deploys + [id], keep))
    ensures forall x :: x in Kept(deploys + [id], keep) ==>
        (x in deploys || x == id) && x !in Dropped(deploys + [id], keep)
  {
    var all := deploys + [id];
    assert NoRepeats(all);
  }

  /** No commit writes its manifest and then fails to write the site record; every deletion unlinks the site record. */
  ghost predicate SiteRecordsChange(keep: int, ops: seq<Op>) {
    && (forall i :: 0 <= i < |ops| && ops[i].OpCommit? && ops[i].io.wroteDeploy ==> SavesSite(keep, ops[i].io))
    && (forall i :: 0 <= i < |ops| && ops[i].OpDelete? ==> ops[i].unlinked)
  }

  /** When site records can be written and unlinked, every retained deploy has its manifest, in every run. */
  lemma {:induction false} ManifestsAlwaysThere(n: Node, keep: int, ops: seq<Op>)
    requires HasManifests(n) && Distinct(n) && FreshIds(n, keep, ops) && SiteRecordsChange(keep, ops)
    ensures HasManifests(Run(n, keep, ops)) && Distinct(Run(n, keep, ops))
    decreases |ops|
  {
    if ops != [] {
      var before, op := Run(n, keep, ops[..|ops| - 1]), ops[|ops| - 1];
      ManifestsAlwaysThere(n, keep, ops[..|ops| - 1]);
      if op.OpCommit? && op.slug in before.sites && op.io.wroteDeploy {
        CommitKeepsManifests(before, keep, op.slug, op.id, op.files, op.io.stuck);
      }
      if op.OpDelete? {
        DeleteKeepsManifestsIff(before, op.slug, op.unlinked, op.left);
      }
    }
  }
}
