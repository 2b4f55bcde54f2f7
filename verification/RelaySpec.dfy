/**
 What the relay's filesystem store promises (relay/internal/store/fs.go): a map from (owner, blob id) to
 record, with exact accounting.
 */
module RelaySpec {
  import opened Options
  import opened Bytes
  import opened BlobCodec

  /** The hash of a public key; a constructor, so different keys have different hashes. */
  datatype ID = IDOf(pub: Bytes32)

  datatype Key = Key(owner: ID, id: Bytes32)

  function KeyOf(r: Record): Key {
    Key(IDOf(r.identity), r.id)
  }

  datatype StoreError = Exists | QuotaExceeded | StorageFull | NotFound | Expired | Parse(error: ParseError) | IoError

  datatype Usage = Usage(bytes: int, count: int)

  /** The records, and the identities that have a usage entry (it is never removed while the store is open). */
  datatype Store = Store(records: map<Key, Record>, known: set<ID>) {
    ghost predicate Ok() {
      && (forall key {:trigger key in records} :: key in records ==>
          KeyOf(records[key]) == key && records[key].Storable())
      && (forall key {:trigger key in records} :: key in records ==> key.owner in known)
    }
  }

  // ---------------------------------------------------------------- accounting

  /** The bytes of the given keys' records. */
  ghost function ByteCount(records: map<Key, Record>, keys: set<Key>): nat
    requires keys <= records.Keys
    decreases |keys|
  {
    if keys == {} then 0
    else
      var k :| k in keys;
      records[k].Size() + ByteCount(records, keys - {k})
  }

  ghost function Total(records: map<Key, Record>): nat {
    ByteCount(records, records.Keys)
  }

  ghost function KeysOf(records: map<Key, Record>, owner: ID): set<Key> {
    set key | key in records && key.owner == owner
  }

  ghost function UsageOf(records: map<Key, Record>, owner: ID): Usage {
    Usage(ByteCount(records, KeysOf(records, owner)), |KeysOf(records, owner)|)
  }

  lemma {:induction false} BytesRemove(records: map<Key, Record>, keys: set<Key>, k: Key)
    requires keys <= records.Keys && k in keys
    ensures ByteCount(records, keys) == records[k].Size() + ByteCount(records, keys - {k})
    decreases |keys|
  {
    var c :| c in keys && ByteCount(records, keys) == records[c].Size() + ByteCount(records, keys - {c});
    if c != k {
      BytesRemove(records, keys - {c}, k);
      BytesRemove(records, keys - {k}, c);
      assert keys - {c} - {k} == keys - {k} - {c};
    }
  }

  lemma {:induction false} BytesSame(a: map<Key, Record>, b: map<Key, Record>, keys: set<Key>)
    requires keys <= a.Keys && keys <= b.Keys && forall k :: k in keys ==> a[k] == b[k]
    ensures ByteCount(a, keys) == ByteCount(b, keys)
    decreases |keys|
  {
    if keys != {} {
      var c :| c in keys && ByteCount(a, keys) == a[c].Size() + ByteCount(a, keys - {c});
      BytesRemove(b, keys, c);
      BytesSame(a, b, keys - {c});
    }
  }

  lemma AddedTotal(records: map<Key, Record>, key: Key, r: Record)
    requires key !in records
    ensures Total(records[key := r]) == Total(records) + r.Size()
  {
    var after := records[key := r];
    BytesRemove(after, after.Keys, key);
    assert after.Keys - {key} == records.Keys;
    BytesSame(after, records, records.Keys);
  }

  lemma AddedOwn(records: map<Key, Record>, key: Key, r: Record)
    requires key !in records
    ensures UsageOf(records[key := r], key.owner) ==
            Usage(UsageOf(records, key.owner).bytes + r.Size(), UsageOf(records, key.owner).count + 1)
  {
    var after := records[key := r];
    var mine, others := KeysOf(after, key.owner), KeysOf(records, key.owner);
    assert mine == others + {key};
    BytesRemove(after, mine, key);
    assert mine - {key} == others;
    BytesSame(after, records, others);
  }

  lemma AddedOther(records: map<Key, Record>, key: Key, r: Record, o: ID)
    requires o != key.owner
    ensures UsageOf(records[key := r], o) == UsageOf(records, o)
  {
    assert KeysOf(records[key := r], o) == KeysOf(records, o);
    BytesSame(records[key := r], records, KeysOf(records, o));
  }

  /** Adding a record adds its size to the total and to its owner's usage, and changes no other usage. */
  lemma AddedCounts(records: map<Key, Record>, key: Key, r: Record)
    requires key !in records
    ensures var after := records[key := r];
            && Total(after) == Total(records) + r.Size()
            && UsageOf(after, key.owner) ==
               Usage(UsageOf(records, key.owner).bytes + r.Size(), UsageOf(records, key.owner).count + 1)
            && forall o {:trigger UsageOf(after, o)} :: o != key.owner ==> UsageOf(after, o) == UsageOf(records, o)
  {
    AddedTotal(records, key, r);
    AddedOwn(records, key, r);
    forall o {:trigger UsageOf(records[key := r], o)} | o != key.owner
      ensures UsageOf(records[key := r], o) == UsageOf(records, o)
    {
      AddedOther(records, key, r, o);
    }
  }

  /** Removing is the reverse of adding. */
  lemma RemovedCounts(records: map<Key, Record>, key: Key)
    requires key in records
    ensures var after := records - {key};
            && Total(records) == Total(after) + records[key].Size()
            && UsageOf(records, key.owner) ==
               Usage(UsageOf(after, key.owner).bytes + records[key].Size(), UsageOf(after, key.owner).count + 1)
            && forall o {:trigger UsageOf(after, o)} :: o != key.owner ==> UsageOf(after, o) == UsageOf(records, o)
  {
    var after := records - {key};
    AddedCounts(after, key, records[key]);
    assert after[key := records[key]] == records;
  }

  lemma NoRecordsNoUsage(records: map<Key, Record>, owner: ID)
    requires forall key :: key in records ==> key.owner != owner
    ensures UsageOf(records, owner) == Usage(0, 0)
  {
    assert KeysOf(records, owner) == {};
  }

  // ---------------------------------------------------------------- the operations

  /** `PutWithin`; `io` tells whether the writes and the rename succeed. */
  ghost function PutWithin(s: Store, r: Record, identityCap: int, totalCap: int, io: bool)
      : (Store, Result<(), StoreError>) {
    if KeyOf(r) in s.records then (s, Err(Exists))
    else if IDOf(r.identity) in s.known && UsageOf(s.records, IDOf(r.identity)).bytes + r.Size() > identityCap then
      (s, Err(QuotaExceeded))
    else if Total(s.records) + r.Size() > totalCap then (s, Err(StorageFull))
    else Added(s, r, io)
  }

  ghost function Put(s: Store, r: Record, io: bool): (Store, Result<(), StoreError>) {
    if KeyOf(r) in s.records then (s, Err(Exists)) else Added(s, r, io)
  }

  ghost function Added(s: Store, r: Record, io: bool): (Store, Result<(), StoreError>) {
    if io then (Store(s.records[KeyOf(r) := r], s.known + {IDOf(r.identity)}), Ok(())) else (s, Err(IoError))
  }

  /** `deleteFile`; the file of a key in `stuck` cannot be removed. */
  ghost function Delete(s: Store, key: Key, stuck: set<Key>): (Store, Result<(), StoreError>) {
    if key !in s.records then (s, Err(NotFound))
    else if key in stuck then (s, Err(IoError))
    else (Store(s.records - {key}, s.known), Ok(()))
  }

  ghost function Get(s: Store, key: Key, now: int, maxPayload: nat, stuck: set<Key>)
      : (Store, Result<Record, StoreError>) {
    if key !in s.records then (s, Err(NotFound))
    else if s.records[key].Expired(now) then (Delete(s, key, stuck).0, Err(Expired))
    else if |s.records[key].payload| > maxPayload then (s, Err(Parse(OverLimit)))
    else (s, Ok(s.records[key]))
  }

  ghost function Dead(s: Store, now: int): set<Key> {
    set key | key in s.records && s.records[key].Expired(now)
  }

  /** `Sweep`: removes what has expired and can be removed; the count includes what could not. */
  ghost function Sweep(s: Store, now: int, stuck: set<Key>): (Store, nat) {
    (Store(s.records - (Dead(s, now) - stuck), s.known), |Dead(s, now)|)
  }

  /** Closing and opening again: only identities with records get a usage entry. */
  ghost function Reopen(s: Store): Store {
    Store(s.records, set key | key in s.records :: key.owner)
  }

  /**
   A put within the caps succeeds exactly if the key is new, the records with the new one added keep the total
   cap and, unless the identity is not known, its quota, and the writes succeed. A refusal names what would break.
   */
  lemma PutWithinIff(s: Store, r: Record, identityCap: int, totalCap: int, io: bool)
    ensures var (after, answer) := PutWithin(s, r, identityCap, totalCap, io);
            var owner, together, isNew := IDOf(r.identity), s.records[KeyOf(r) := r], KeyOf(r) !in s.records;
            var overQuota := owner in s.known && UsageOf(together, owner).bytes > identityCap;
            var overTotal := Total(together) > totalCap;
            && (answer.Ok? <==> isNew && !overQuota && !overTotal && io)
            && (answer == Err(Exists) <==> !isNew)
            && (answer == Err(QuotaExceeded) <==> isNew && overQuota)
            && (answer == Err(StorageFull) <==> isNew && !overQuota && overTotal)
            && after == if answer.Ok? then Store(together, s.known + {owner}) else s
  {
    if KeyOf(r) !in s.records {
      AddedCounts(s.records, KeyOf(r), r);
    }
  }

  /** A put without caps does what a put does within caps that the records with the new one keep. */
  lemma PutIsWithinWideCaps(s: Store, r: Record, identityCap: int, totalCap: int, io: bool)
    requires UsageOf(s.records[KeyOf(r) := r], IDOf(r.identity)).bytes <= identityCap
    requires Total(s.records[KeyOf(r) := r]) <= totalCap
    ensures Put(s, r, io) == PutWithin(s, r, identityCap, totalCap, io)
  {
    PutWithinIff(s, r, identityCap, totalCap, io);
    if KeyOf(r) !in s.records {
      AddedCounts(s.records, KeyOf(r), r);
    }
  }

  /** A sweep counts what has expired and removes what of it can be; where all can be, nothing expired is left. */
  lemma SweepLeavesNoneExpired(s: Store, now: int, stuck: set<Key>)
    ensures Sweep(s, now, stuck).1 == |set key | key in s.records && s.records[key].expiresAt <= now|
    ensures forall key :: key in Sweep(s, now, stuck).0.records <==>
            key in s.records && (key in stuck || now < s.records[key].expiresAt)
    ensures Dead(Sweep(s, now, {}).0, now) == {}
  {
    assert Dead(s, now) == set key | key in s.records && s.records[key].expiresAt <= now;
  }

  // ---------------------------------------------------------------- runs

  datatype Op =
    | OpPut(r: Record, identityCap: int, totalCap: int, io: bool)
    | OpGet(key: Key, now: int, maxPayload: nat, stuck: set<Key>)
    | OpDelete(key: Key, stuck: set<Key>)
    | OpSweep(now: int, stuck: set<Key>)
    | OpReopen

  ghost function Next(s: Store, op: Op): Store {
    match op
    case OpPut(r, identityCap, totalCap, io) => PutWithin(s, r, identityCap, totalCap, io).0
    case OpGet(key, now, maxPayload, stuck) => Get(s, key, now, maxPayload, stuck).0
    case OpDelete(key, stuck) => Delete(s, key, stuck).0
    case OpSweep(now, stuck) => Sweep(s, now, stuck).0
    case OpReopen => Reopen(s)
  }

  ghost function Run(s: Store, ops: seq<Op>): Store {
    if ops == [] then s else Next(Run(s, ops[..|ops| - 1]), ops[|ops| - 1])
  }

  /** Every put of a run uses the same caps, and a single record always fits the quota. */
  ghost predicate Capped(ops: seq<Op>, totalCap: int) {
    forall i :: 0 <= i < |ops| && ops[i].OpPut? ==> ops[i].totalCap == totalCap
  }

  ghost predicate OneFits(ops: seq<Op>, identityCap: int) {
    forall i :: 0 <= i < |ops| && ops[i].OpPut? ==> ops[i].identityCap == identityCap && ops[i].r.Size() <= identityCap
  }

  lemma {:induction false} BytesSubset(records: map<Key, Record>, keys: set<Key>, more: set<Key>)
    requires keys <= more <= records.Keys
    ensures ByteCount(records, keys) <= ByteCount(records, more)
    decreases |more|
  {
    if more <= keys {
      assert keys == more;
    } else {
      var k :| k in more && k !in keys;
      BytesRemove(records, more, k);
      BytesSubset(records, keys, more - {k});
    }
  }

  /** Keeping fewer records never raises the total or any usage. */
  lemma FewerBytes(records: map<Key, Record>, gone: set<Key>, owner: ID)
    ensures Total(records - gone) <= Total(records)
    ensures UsageOf(records - gone, owner).bytes <= UsageOf(records, owner).bytes
  {
    var after := records - gone;
    BytesSame(after, records, after.Keys);
    BytesSubset(records, after.Keys, records.Keys);
    BytesSame(after, records, KeysOf(after, owner));
    BytesSubset(records, KeysOf(after, owner), KeysOf(records, owner));
  }

  /** What an operation other than a put leaves: the records without some of them. */
  lemma OnlyRemoves(s: Store, op: Op)
    requires !op.OpPut?
    ensures exists gone: set<Key> {:trigger s.records - gone} :: Next(s, op).records == s.records - gone
  {
    var none: set<Key> := {};
    assert s.records - none == s.records;
    match op
    case OpGet(key, now, maxPayload, stuck) =>
      assert Next(s, op).records == s.records - none || Next(s, op).records == s.records - {key};
    case OpDelete(key, stuck) =>
      assert Next(s, op).records == s.records - none || Next(s, op).records == s.records - {key};
    case OpSweep(now, stuck) => assert Next(s, op).records == s.records - (Dead(s, now) - stuck);
    case OpReopen => assert Next(s, op).records == s.records - none;
  }

  /** Every run whose puts pass the same total cap stays within it, restarts and failures included. */
  lemma {:induction false} TotalWithinCap(s: Store, ops: seq<Op>, totalCap: int)
    requires Total(s.records) <= totalCap && Capped(ops, totalCap)
    ensures Total(Run(s, ops).records) <= totalCap
    decreases |ops|
  {
    if ops != [] {
      var before, op := Run(s, ops[..|ops| - 1]), ops[|ops| - 1];
      TotalWithinCap(s, ops[..|ops| - 1], totalCap);
      if op.OpPut? {
        if KeyOf(op.r) !in before.records {
          AddedCounts(before.records, KeyOf(op.r), op.r);
        }
      } else {
        OnlyRemoves(before, op);
        var gone: set<Key> :| Next(before, op).records == before.records - gone;
        FewerBytes(before.records, gone, IDOf(ZeroBytes(32)));
      }
    }
  }

  ghost predicate WithinQuota(s: Store, identityCap: int) {
    forall o {:trigger UsageOf(s.records, o)} :: UsageOf(s.records, o).bytes <= identityCap
  }

  /** A stored put keeps every identity within its quota exactly when its own record fits or its identity was known. */
  lemma PutKeepsQuotaIff(s: Store, r: Record, identityCap: int, totalCap: int)
    requires s.Ok() && WithinQuota(s, identityCap) && PutWithin(s, r, identityCap, totalCap, true).1.Ok?
    ensures WithinQuota(PutWithin(s, r, identityCap, totalCap, true).0, identityCap) <==>
            IDOf(r.identity) in s.known || r.Size() <= identityCap
  {
    var owner := IDOf(r.identity);
    var after := PutWithin(s, r, identityCap, totalCap, true).0;
    AddedCounts(s.records, KeyOf(r), r);
    if owner !in s.known {
      NoRecordsNoUsage(s.records, owner);
      assert UsageOf(after.records, owner).bytes == r.Size();
    }
    forall o {:trigger UsageOf(after.records, o)} | o != owner ensures UsageOf(after.records, o).bytes <= identityCap {
      assert UsageOf(after.records, o) == UsageOf(s.records, o);
    }
  }

  /** When one record always fits the quota, every run keeps every identity within it. */
  lemma {:induction false} QuotaKept(s: Store, ops: seq<Op>, identityCap: int)
    requires s.Ok() && WithinQuota(s, identityCap) && OneFits(ops, identityCap)
    requires forall i :: 0 <= i < |ops| && ops[i].OpPut? ==> ops[i].r.Storable()
    ensures Run(s, ops).Ok() && WithinQuota(Run(s, ops), identityCap)
    decreases |ops|
  {
    if ops != [] {
      var before, op := Run(s, ops[..|ops| - 1]), ops[|ops| - 1];
      QuotaKept(s, ops[..|ops| - 1], identityCap);
      if op.OpPut? {
        if PutWithin(before, op.r, op.identityCap, op.totalCap, op.io).1.Ok? {
          PutKeepsQuotaIff(before, op.r, op.identityCap, op.totalCap);
        }
      } else {
        OnlyRemoves(before, op);
        var gone: set<Key> :| Next(before, op).records == before.records - gone;
        forall o {:trigger UsageOf(Next(before, op).records, o)}
          ensures UsageOf(Next(before, op).records, o).bytes <= identityCap
        {
          FewerBytes(before.records, gone, o);
          assert UsageOf(before.records, o).bytes <= identityCap;
        }
      }
    }
  }

  // ---------------------------------------------------------------- durability

  /** The operation does not delete `key`, nor meet it after its expiry, unless its file cannot be removed. */
  ghost predicate Spares(op: Op, key: Key, expiresAt: int) {
    match op
    case OpGet(k, now, _, stuck) => k == key && key !in stuck ==> now < expiresAt
    case OpDelete(k, stuck) => k == key ==> key in stuck
    case OpSweep(now, stuck) => key !in stuck ==> now < expiresAt
    case OpPut(_, _, _, _) => true
    case OpReopen => true
  }

  /** A record stays, unchanged, until it is deleted or its expiry is noticed; no put overwrites it. */
  lemma {:induction false} RecordStays(s: Store, ops: seq<Op>, key: Key)
    requires key in s.records && forall i :: 0 <= i < |ops| ==> Spares(ops[i], key, s.records[key].expiresAt)
    ensures key in Run(s, ops).records && Run(s, ops).records[key] == s.records[key]
    decreases |ops|
  {
    if ops != [] {
      RecordStays(s, ops[..|ops| - 1], key);
      assert Spares(ops[|ops| - 1], key, s.records[key].expiresAt);
    }
  }

  ghost predicate Puts(op: Op, key: Key) {
    op.OpPut? && KeyOf(op.r) == key
  }

  lemma {:induction false} AbsentStays(s: Store, ops: seq<Op>, key: Key)
    requires key !in s.records && forall i :: 0 <= i < |ops| ==> !Puts(ops[i], key)
    ensures key !in Run(s, ops).records
  {
    if ops != [] {
      AbsentStays(s, ops[..|ops| - 1], key);
      assert !Puts(ops[|ops| - 1], key);
    }
  }

  lemma {:induction false} RunInParts(s: Store, first: seq<Op>, more: seq<Op>)
    ensures Run(s, first + more) == Run(Run(s, first), more)
  {
    if more == [] {
      assert first + more == first;
    } else {
      var n := |more| - 1;
      RunInParts(s, first, more[..n]);
      assert (first + more)[..|first + more| - 1] == first + more[..n];
    }
  }

  /** Until it is put again, a record is there exactly as long as every operation spares it. */
  lemma RecordThereIff(s: Store, ops: seq<Op>, key: Key)
    requires key in s.records && forall i :: 0 <= i < |ops| ==> !Puts(ops[i], key)
    ensures key in Run(s, ops).records <==>
            forall i :: 0 <= i < |ops| ==> Spares(ops[i], key, s.records[key].expiresAt)
  {
    var expiresAt := s.records[key].expiresAt;
    if i :| 0 <= i < |ops| && !Spares(ops[i], key, expiresAt) {
      DroppedAtFirst(s, ops, key, i);
    } else {
      RecordStays(s, ops, key);
    }
  }

  lemma {:induction false} DroppedAtFirst(s: Store, ops: seq<Op>, key: Key, i: nat)
    requires key in s.records && i < |ops| && !Spares(ops[i], key, s.records[key].expiresAt)
    requires forall j :: 0 <= j < |ops| ==> !Puts(ops[j], key)
    ensures key !in Run(s, ops).records
  {
    var expiresAt := s.records[key].expiresAt;
    if j :| 0 <= j < i && !Spares(ops[j], key, expiresAt) {
      DroppedAtFirst(s, ops, key, j);
    } else {
      RecordStays(s, ops[..i], key);
      assert ops[..i + 1][..i] == ops[..i] && ops[..i + 1][i] == ops[i];
      assert key !in Run(s, ops[..i + 1]).records;
      assert ops == ops[..i + 1] + ops[i + 1..];
      RunInParts(s, ops[..i + 1], ops[i + 1..]);
      AbsentStays(Run(s, ops[..i + 1]), ops[i + 1..], key);
    }
  }

  /** What a get answers: the record before its expiry, and from then on never. */
  lemma GetAnswers(s: Store, key: Key, now: int, maxPayload: nat, stuck: set<Key>)
    ensures var (after, answer) := Get(s, key, now, maxPayload, stuck);
            && (answer.Ok? <==> key in s.records && now < s.records[key].expiresAt
                                && |s.records[key].payload| <= maxPayload)
            && (answer.Ok? ==> answer.value == s.records[key])
            && (answer == Err(NotFound) <==> key !in s.records)
            && (answer == Err(Expired) <==> key in s.records && s.records[key].expiresAt <= now)
            && after.known == s.known
            && after.records == if answer == Err(Expired) then s.records - ({key} - stuck) else s.records
  {
    assert s.records - {} == s.records;
  }

  /** Once a record has expired no get returns it, whatever happens short of putting the key again. */
  lemma ExpiredIsGone(s: Store, ops: seq<Op>, key: Key, now: int, maxPayload: nat, stuck: set<Key>)
    requires key in s.records && s.records[key].expiresAt <= now
    requires forall i :: 0 <= i < |ops| ==> !Puts(ops[i], key)
    ensures Get(Run(s, ops), key, now, maxPayload, stuck).1.Err?
  {
    if forall i :: 0 <= i < |ops| ==> Spares(ops[i], key, s.records[key].expiresAt) {
      RecordStays(s, ops, key);
    } else {
      RecordThereIff(s, ops, key);
    }
  }

  /** After a put, every get before expiry returns exactly the record put, whatever happened in between. */
  lemma PutThenGet(s: Store, r: Record, identityCap: int, totalCap: int, ops: seq<Op>, now: int, maxPayload: nat)
    requires PutWithin(s, r, identityCap, totalCap, true).1.Ok?
    requires now < r.expiresAt && |r.payload| <= maxPayload
    requires forall i :: 0 <= i < |ops| ==> Spares(ops[i], KeyOf(r), r.expiresAt)
    ensures var later := Run(PutWithin(s, r, identityCap, totalCap, true).0, ops);
            Get(later, KeyOf(r), now, maxPayload, {}) == (later, Ok(r))
  {
    RecordStays(PutWithin(s, r, identityCap, totalCap, true).0, ops, KeyOf(r));
  }

  // ---------------------------------------------------------------- the quota that is not checked

  /** An identity stays known until the store is closed, also when its last record goes. */
  lemma {:induction false} KnownStays(s: Store, ops: seq<Op>, owner: ID)
    requires owner in s.known && OpReopen !in ops
    ensures owner in Run(s, ops).known
  {
    if ops != [] {
      assert ops[|ops| - 1] in ops;
      KnownStays(s, ops[..|ops| - 1], owner);
    }
  }

  /** A 200-byte record against a quota of 100: refused while its identity is known, stored after a restart. */
  lemma FirstPutSkipsQuota(id: Bytes32, pub: Bytes32, sig: Bytes64, payload: seq<byte>)
    requires |payload| == 52
    ensures var r := Record(id, pub, payload, sig, 9);
            var used := Store(map[], {IDOf(pub)});
            && PutWithin(used, r, 100, 1000, true).1 == Err(QuotaExceeded)
            && PutWithin(Reopen(used), r, 100, 1000, true).1 == Ok(())
            && !WithinQuota(PutWithin(Reopen(used), r, 100, 1000, true).0, 100)
  {
    var r := Record(id, pub, payload, sig, 9);
    var used := Store(map[], {IDOf(pub)});
    NoRecordsNoUsage(map[], IDOf(pub));
    assert Reopen(used) == Store(map[], {});
    assert used.records.Keys == {};
    AddedOwn(map[], KeyOf(r), r);
    assert UsageOf(PutWithin(Reopen(used), r, 100, 1000, true).0.records, IDOf(pub)).bytes == 200;
  }
}
