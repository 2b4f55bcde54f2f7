/** What the headers found in a data directory amount to, whether or not their files are whole. */
module RelayHeaders {
  import opened BlobCodec
  import opened RelaySpec

  /** The record a header is about. */
  function Named(m: Meta): Key {
    Key(IDOf(m.identity), m.id)
  }

  function SizeOf(m: Meta): nat {
    HEADER_SIZE + m.payloadLen
  }

  function UsageAdd(usage: map<ID, Usage>, owner: ID, size: int): map<ID, Usage> {
    var u := if owner in usage then usage[owner] else Usage(0, 0);
    usage[owner := Usage(u.bytes + size, u.count + 1)]
  }

  /** The sizes the headers of these files tell. */
  ghost function SizeSum<P(!new)>(heads: map<P, Meta>, files: set<P>): nat
    requires files <= heads.Keys
    decreases |files|
  {
    if files == {} then 0
    else
      var p :| p in files;
      SizeOf(heads[p]) + SizeSum(heads, files - {p})
  }

  ghost function OwnedBy<P(!new)>(heads: map<P, Meta>, o: ID): (files: set<P>)
    ensures files <= heads.Keys
  {
    set p | p in heads && IDOf(heads[p].identity) == o
  }

  ghost predicate UsageCounted<P(!new)>(heads: map<P, Meta>, usage: map<ID, Usage>, o: ID) {
    && (o in usage <==> OwnedBy(heads, o) != {})
    && (o in usage ==> usage[o] == Usage(SizeSum(heads, OwnedBy(heads, o)), |OwnedBy(heads, o)|))
  }

  /** Every file with a header is counted, the files that head one record all of them. */
  ghost predicate Counted<P(!new)>(heads: map<P, Meta>, usage: map<ID, Usage>, totalBytes: int) {
    && totalBytes == SizeSum(heads, heads.Keys)
    && forall o {:trigger UsageCounted(heads, usage, o)} :: UsageCounted(heads, usage, o)
  }

  lemma {:induction false} SizeSumRemove<P(!new)>(heads: map<P, Meta>, files: set<P>, p: P)
    requires files <= heads.Keys && p in files
    ensures SizeSum(heads, files) == SizeOf(heads[p]) + SizeSum(heads, files - {p})
    decreases |files|
  {
    var c :| c in files && SizeSum(heads, files) == SizeOf(heads[c]) + SizeSum(heads, files - {c});
    if c != p {
      SizeSumRemove(heads, files - {c}, p);
      SizeSumRemove(heads, files - {p}, c);
      assert files - {c} - {p} == files - {p} - {c};
    }
  }

  lemma {:induction false} SizeSumSame<P(!new)>(heads: map<P, Meta>, more: map<P, Meta>, files: set<P>)
    requires files <= heads.Keys && files <= more.Keys && forall p :: p in files ==> heads[p] == more[p]
    ensures SizeSum(heads, files) == SizeSum(more, files)
    decreases |files|
  {
    if files != {} {
      var p :| p in files;
      SizeSumRemove(heads, files, p);
      SizeSumRemove(more, files, p);
      SizeSumSame(heads, more, files - {p});
    }
  }

  lemma SizeSumAdd<P(!new)>(heads: map<P, Meta>, files: set<P>, p: P, m: Meta)
    requires files <= heads.Keys && p !in heads
    ensures SizeSum(heads[p := m], files + {p}) == SizeSum(heads, files) + SizeOf(m)
    ensures SizeSum(heads[p := m], files) == SizeSum(heads, files)
  {
    SizeSumRemove(heads[p := m], files + {p}, p);
    assert files + {p} - {p} == files;
    SizeSumSame(heads, heads[p := m], files);
  }

  lemma UsageCountedAdd<P(!new)>(heads: map<P, Meta>, usage: map<ID, Usage>, p: P, m: Meta, o: ID)
    requires UsageCounted(heads, usage, o) && p !in heads
    ensures UsageCounted(heads[p := m], UsageAdd(usage, IDOf(m.identity), SizeOf(m)), o)
  {
    var own := OwnedBy(heads, o);
    SizeSumAdd(heads, own, p, m);
    assert OwnedBy(heads[p := m], o) == if IDOf(m.identity) == o then own + {p} else own;
    if own == {} {
      assert SizeSum(heads, own) == 0;
    }
  }

  lemma CountedAdd<P(!new)>(heads: map<P, Meta>, usage: map<ID, Usage>, totalBytes: int, p: P, m: Meta)
    requires Counted(heads, usage, totalBytes) && p !in heads
    ensures Counted(heads[p := m], UsageAdd(usage, IDOf(m.identity), SizeOf(m)), totalBytes + SizeOf(m))
  {
    SizeSumAdd(heads, heads.Keys, p, m);
    assert heads[p := m].Keys == heads.Keys + {p};
    forall o {:trigger UsageCounted(heads[p := m], UsageAdd(usage, IDOf(m.identity), SizeOf(m)), o)}
      ensures UsageCounted(heads[p := m], UsageAdd(usage, IDOf(m.identity), SizeOf(m)), o)
    {
      UsageCountedAdd(heads, usage, p, m, o);
    }
  }

  // ---------------------------------------------------------------- files that head one record

  ghost function IdsIn<P(!new)>(heads: map<P, Meta>, files: set<P>): set<Bytes32>
    requires files <= heads.Keys
  {
    set p | p in files :: heads[p].id
  }

  ghost predicate AllApart<P(!new)>(heads: map<P, Meta>, files: set<P>)
    requires files <= heads.Keys
  {
    forall p, q :: p in files && q in files && heads[p].id == heads[q].id ==> p == q
  }

  lemma {:induction false} IdsApartIff<P(!new)>(heads: map<P, Meta>, files: set<P>)
    requires files <= heads.Keys
    ensures |IdsIn(heads, files)| <= |files|
    ensures |IdsIn(heads, files)| == |files| <==> AllApart(heads, files)
    decreases |files|
  {
    if files != {} {
      var p :| p in files;
      var rest := files - {p};
      IdsApartIff(heads, rest);
      assert IdsIn(heads, files) == IdsIn(heads, rest) + {heads[p].id};
      if heads[p].id in IdsIn(heads, rest) {
        assert IdsIn(heads, files) == IdsIn(heads, rest);
        var q :| q in rest && heads[q].id == heads[p].id;
        assert !AllApart(heads, files);
      } else if AllApart(heads, rest) {
        assert AllApart(heads, files);
      }
    }
  }
}
