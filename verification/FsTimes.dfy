/**
 The times of files and directories: what each call does to the creation time and to the modification time of every
 path (packages/storage/src/idbfs.ts).
 */
module FsTimes {
  import opened Options
  import opened Paths
  import opened DirTree
  import opened FlatTable

  /** When what is under a path was created, and when it was written or moved last. */
  datatype Times = Times(born: int, changed: int)

  function TimesAt(t: Table, q: seq<string>): Option<Times> {
    if PathOf(q) in t then Some(Times(t[PathOf(q)].ctime, t[PathOf(q)].mtime)) else None
  }

  /** A write renews the modification time; a file that was there keeps its creation time. */
  lemma WriteTimes(t: Table, tree: Node, segs: seq<string>, data: Payload, now: int, q: seq<string>)
    requires Represents(t, tree) && AreNames(segs) && segs != [] && AreNames(q)
    ensures var done := FlatWrite(t, PathOf(segs), data, now);
            TimesAt(done.table, q) ==
            if done.error.None? && q == segs then
              Some(Times(if TimesAt(t, q).Some? then TimesAt(t, q).value.born else now, now))
            else TimesAt(t, q)
  {
    if PathOf(q) == PathOf(segs) {
      PathOfInjective(q, segs);
    }
  }

  lemma {:induction false} MadeNow(t: Table, segs: seq<string>, n: nat, now: int)
    requires n <= |segs|
    ensures forall p :: p in t ==>
              p in MakePrefixes(t, segs, n, now).table && MakePrefixes(t, segs, n, now).table[p] == t[p]
    ensures forall p :: p in MakePrefixes(t, segs, n, now).table && p !in t ==>
              var r := MakePrefixes(t, segs, n, now).table[p]; r.ctime == r.mtime == now
  {
    if n > 0 {
      MadeNow(t, segs, n - 1, now);
    }
  }

  /** A new directory is created now, one that was there is left alone, and so is everything else. */
  lemma MkdirTimes(t: Table, tree: Node, segs: seq<string>, recursive: bool, now: int, q: seq<string>)
    requires Represents(t, tree) && AreNames(segs) && AreNames(q)
    ensures var done := FlatMkdir(t, PathOf(segs), recursive, now);
            TimesAt(done.table, q) ==
            if done.error.None? && q != [] && TimesAt(t, q).None? && (q == segs || (recursive && q <= segs))
            then Some(Times(now, now))
            else TimesAt(t, q)
  {
    if segs != [] {
      ProperPath(segs);
      if recursive {
        MkdirRecursiveRefines(t, tree, segs, now);
        MadeNow(t, segs, |segs|, now);
        NewOnTheWay(t, tree, segs, now, q);
      } else if PathOf(q) == PathOf(segs) {
        PathOfInjective(q, segs);
      }
    }
  }

  lemma NewOnTheWay(t: Table, tree: Node, segs: seq<string>, now: int, q: seq<string>)
    requires Represents(t, tree) && AreNames(segs) && AreNames(q) && segs != []
    ensures var done := FlatMkdir(t, PathOf(segs), true, now);
            && (done.error.Some? ==> done.table == t)
            && (PathOf(q) in done.table && PathOf(q) !in t ==> q <= segs && q != [])
            && (done.error.None? && q != [] && q <= segs ==> PathOf(q) in done.table)
  {
    ProperPath(segs);
    MakePrefixesEffect(t, tree, segs, |segs|, now);
    assert segs[..|segs|] == segs;
    if !FileInTheWay(tree, segs, |segs|) {
      var next := FlatMkdir(t, PathOf(segs), true, now).table;
      if q != [] {
        assert PrefixMade(t, next, segs, q);
      } else if "/" in next {
        assert ProperKey("/");
        var root :| IsPathOf("/", root);
        ProperPath(root);
      }
    }
  }

  /** A rename takes the creation times along and renews the modification times of all that is moved. */
  lemma RenameTimes(t: Table, tree: Node, ss: seq<string>, ds: seq<string>, now: int, q: seq<string>)
    requires Represents(t, tree) && AreNames(ss) && AreNames(ds) && ds != [] && AreNames(q) && q != []
    ensures var done := FlatRename(t, PathOf(ss), PathOf(ds), now);
            TimesAt(done.table, q) ==
            if done.error.Some? || ss == ds then TimesAt(t, q)
            else if ds <= q then
              (match TimesAt(t, ss + q[|ds|..]) case Some(times) => Some(Times(times.born, now)) case None => None)
            else if ss <= q then None
            else TimesAt(t, q)
  {
    if ss != [] {
      RenameProblemIff(t, tree, ss, ds);
      if RenameProblem(t, PathOf(ss), PathOf(ds)).None? && ss != ds {
        if ds <= q {
          var r := q[|ds|..];
          assert q == ds + r;
          assert AreNames(r);
          MovedMatches(t, tree, ss, ds, now, r);
          assert Matches(t, tree, ss + r);
        } else {
          UnmovedMatches(t, tree, ss, ds, now, q);
        }
      }
    }
  }

  /** The keys a removal takes. */
  function Gone(t: Table, path: string): set<string>
    requires path in t
  {
    if t[path].isDir then Affected(t, path) else {path}
  }

  lemma GoneIff(t: Table, tree: Node, segs: seq<string>, q: seq<string>)
    requires Represents(t, tree) && AreNames(segs) && segs != [] && AreNames(q) && q != [] && PathOf(segs) in t
    ensures PathOf(q) in Gone(t, PathOf(segs)) <==> segs <= q && PathOf(q) in t
  {
    PresentIff(t, tree, q);
    if t[PathOf(segs)].isDir {
      AffectedIff(t, tree, segs, q);
    } else {
      FileAlone(t, tree, segs, q);
    }
  }

  /** At or below a file there is only the file. */
  lemma FileAlone(t: Table, tree: Node, segs: seq<string>, q: seq<string>)
    requires Represents(t, tree) && AreNames(segs) && segs != [] && AreNames(q) && q != []
    requires PathOf(segs) in t && !t[PathOf(segs)].isDir
    ensures PathOf(q) == PathOf(segs) <==> segs <= q && PathOf(q) in t
  {
    if PathOf(q) == PathOf(segs) {
      PathOfInjective(q, segs);
    } else if segs <= q {
      assert segs == q[..|segs|];
      assert |segs| == |q| ==> segs == q;
      assert segs < q && Matches(t, tree, segs);
      NothingBelow(tree, segs, q);
      PresentIff(t, tree, q);
    }
  }

  /** A removal leaves the times of all that stays. */
  lemma RemoveTimes(t: Table, tree: Node, segs: seq<string>, recursive: bool, q: seq<string>)
    requires Represents(t, tree) && AreNames(segs) && AreNames(q) && q != []
    ensures var done := FlatRemove(t, PathOf(segs), recursive);
            TimesAt(done.table, q) == if done.error.None? && segs <= q then None else TimesAt(t, q)
  {
    if segs != [] {
      ProperPath(segs);
      if PathOf(segs) in t {
        GoneIff(t, tree, segs, q);
        TakesGone(t, PathOf(segs), recursive);
      }
    }
  }

  lemma TakesGone(t: Table, path: string, recursive: bool)
    requires path in t && path != "/"
    ensures FlatRemove(t, path, recursive).table ==
            if FlatRemove(t, path, recursive).error.None? then t - Gone(t, path) else t
  {
  }
}
